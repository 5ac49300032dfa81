/**
 Where every character of a rewritten text comes from: the original, a redaction marker or a truncation marker,
 and which characters may stand next to each other.
 */
module Labels {
  import opened EventLimits
  import opened Spans
  import opened Provenance

  datatype Label = Kept(from: nat) | Mark(at: nat) | Cut(at: nat)

  /** The character is what its label says. */
  predicate Reads(l: Label, text: string, c: char) {
    match l
    case Kept(i) => i < |text| && c == text[i]
    case Mark(j) => j < |MARKER| && c == MARKER[j]
    case Cut(j) => j < |TRUNCATION_MARKER| && c == TRUNCATION_MARKER[j]
  }

  /**
   The marker `a` is in goes on in `b`, unless another marker begins there. And `b` is within a marker only if
   `a` is the character before it, or the end of another marker. So next to text of the original a redaction
   marker begins at its beginning and ends at its end.
   */
  predicate Follows(a: Label, b: Label) {
    && (a.Mark? && a.at + 1 < |MARKER| ==> b == Mark(a.at + 1) || b == Mark(0) || b.Cut?)
    && (a.Cut? && a.at + 1 < |TRUNCATION_MARKER| ==> b == Mark(0) || b.Cut?)
    && (b.Mark? && b.at > 0 ==> a == Mark(b.at - 1) || a == Mark(|MARKER| - 1))
  }

  ghost predicate Labelled(text: string, out: string, o: Origins, labels: seq<Label>) {
    && |labels| == |out| == |o|
    && (forall p | 0 <= p < |o| ::
          Reads(labels[p], text, out[p]) && (if 0 <= o[p] then labels[p] == Kept(o[p]) else !labels[p].Kept?))
    && (forall p | 0 <= p < |labels| - 1 :: Follows(labels[p], labels[p + 1]))
    && (labels != [] && labels[0].Mark? ==> labels[0].at == 0)
  }

  // ----- One rewrite -----

  /** Neighbours after one rewrite: kept text is not torn without a marker, and the markers it inserts are whole. */
  predicate Joins(a: Label, b: Label) {
    && (a.Kept? && b.Kept? ==> b.from == a.from + 1)
    && (a.Mark? && a.at + 1 < |MARKER| ==> b == Mark(a.at + 1))
    && (b.Mark? && b.at > 0 ==> a == Mark(b.at - 1))
    && (a.Cut? ==> b.Cut?)
  }

  ghost predicate Rewrites(m: Origins, out: string, labels: seq<Label>) {
    && |labels| == |m| == |out|
    && (forall p | 0 <= p < |m| ::
          if 0 <= m[p] then labels[p] == Kept(m[p]) else !labels[p].Kept? && Reads(labels[p], "", out[p]))
    && (forall p | 0 <= p < |labels| - 1 :: Joins(labels[p], labels[p + 1]))
    && (labels != [] ==> labels[0] == Kept(0) || labels[0] == Mark(0) || labels[0].Cut?)
  }

  function Through(before: seq<Label>, step: Label): Label {
    if step.Kept? && step.from < |before| then before[step.from] else step
  }

  lemma {:induction false} ThroughFollows(before: seq<Label>, a: Label, b: Label)
    requires Joins(a, b) && (a.Kept? ==> a.from < |before|) && (b.Kept? ==> b.from < |before|)
    requires forall p | 0 <= p < |before| - 1 :: Follows(before[p], before[p + 1])
    requires (a.Mark? ==> a.at < |MARKER|) && (b.Kept? ==> b.from == 0 || !a.Cut?)
    ensures Follows(Through(before, a), Through(before, b))
  {
  }

  /** Labels compose over a further rewrite. */
  lemma {:induction false} Relabel(text: string, current: string, o: Origins, before: seq<Label>, m: Origins,
                                   out: string, step: seq<Label>)
    returns (labels: seq<Label>)
    requires Labelled(text, current, o, before) && Rewrites(m, out, step) && Embeds(current, out, m)
    ensures Indexes(m, |o|) && Labelled(text, out, Compose(m, o), labels)
  {
    labels := seq(|step|, p requires 0 <= p < |step| => Through(before, step[p]));
    var r := Compose(m, o);
    forall p | 0 <= p < |r|
      ensures Reads(labels[p], text, out[p]) && (if 0 <= r[p] then labels[p] == Kept(r[p]) else !labels[p].Kept?)
    {
      if 0 <= m[p] { assert labels[p] == before[m[p]] && out[p] == current[m[p]]; }
    }
    forall p | 0 <= p < |labels| - 1 ensures Follows(labels[p], labels[p + 1]) {
      ThroughFollows(before, step[p], step[p + 1]);
    }
  }

  // ----- Replacing ranges -----

  function KeptLabels(n: nat): seq<Label> { seq(n, i requires 0 <= i => Kept(i)) }

  function MarkLabels(n: nat): seq<Label> { seq(n, i requires 0 <= i => Mark(i)) }

  lemma {:induction false} ConsJoins(head: seq<Label>, rest: seq<Label>, size: nat, last: nat)
    requires size == |MARKER| && (forall p | 0 <= p < |head| :: head[p] == Kept(last + p))
    requires forall p | 0 <= p < |rest| - 1 :: Joins(rest[p], rest[p + 1])
    requires rest != [] ==> rest[0].Kept? || rest[0] == Mark(0)
    ensures var all := head + MarkLabels(size) + rest;
            && (forall p | 0 <= p < |all| - 1 :: Joins(all[p], all[p + 1]))
            && all != [] && (all[0] == Kept(last) || all[0] == Mark(0))
  {
    var all := head + MarkLabels(size) + rest;
    forall p | 0 <= p < |all| - 1 ensures Joins(all[p], all[p + 1]) {
      if p >= |head| + size {
        assert all[p] == rest[p - |head| - size] && all[p + 1] == rest[p + 1 - |head| - size];
      }
    }
  }

  lemma {:induction false} SpliceJoins(n: nat, cuts: seq<Span>, last: nat)
    requires Cuttable(cuts, last, n)
    ensures var labels := Splice(KeptLabels(n), MarkLabels(|MARKER|), cuts, last);
            && (forall p | 0 <= p < |labels| - 1 :: Joins(labels[p], labels[p + 1]))
            && (labels != [] ==> labels[0] == Kept(last) || labels[0] == Mark(0))
  {
    if cuts != [] {
      SpliceJoins(n, cuts[1..], cuts[0].end);
      ConsJoins(KeptLabels(n)[last..cuts[0].start], Splice(KeptLabels(n), MarkLabels(|MARKER|), cuts[1..], cuts[0].end),
                |MARKER|, last);
    }
  }

  ghost predicate SameShape(xs: string, m: Origins, labels: seq<Label>) {
    && |xs| == |m| == |labels|
    && forall p | 0 <= p < |m| ::
         if 0 <= m[p] then labels[p] == Kept(m[p]) else labels[p].Mark? && Reads(labels[p], "", xs[p])
  }

  lemma {:induction false} SpliceShape(xs: string, cuts: seq<Span>, last: nat)
    requires Cuttable(cuts, last, |xs|)
    ensures SameShape(Splice(xs, MARKER, cuts, last), SpliceMap(|xs|, |MARKER|, cuts, last),
                      Splice(KeptLabels(|xs|), MarkLabels(|MARKER|), cuts, last))
  {
    if cuts != [] {
      var n, cut := |xs|, cuts[0];
      SpliceShape(xs, cuts[1..], cut.end);
      ShapeCons(xs[last..cut.start], Iota(n)[last..cut.start], KeptLabels(n)[last..cut.start],
                Splice(xs, MARKER, cuts[1..], cut.end), SpliceMap(n, |MARKER|, cuts[1..], cut.end),
                Splice(KeptLabels(n), MarkLabels(|MARKER|), cuts[1..], cut.end));
    }
  }

  lemma {:induction false} ShapeCons(xs: string, m: Origins, labels: seq<Label>, xs': string, m': Origins,
                                     labels': seq<Label>)
    requires SameShape(xs, m, labels) && SameShape(xs', m', labels')
    ensures SameShape(xs + MARKER + xs', m + Inserted(|MARKER|) + m', labels + MarkLabels(|MARKER|) + labels')
  {
  }

  lemma {:induction false} SpliceRewrites(xs: string, cuts: seq<Span>) returns (labels: seq<Label>)
    requires Cuttable(cuts, 0, |xs|)
    ensures Rewrites(SpliceMap(|xs|, |MARKER|, cuts, 0), Splice(xs, MARKER, cuts, 0), labels)
  {
    labels := Splice(KeptLabels(|xs|), MarkLabels(|MARKER|), cuts, 0);
    SpliceJoins(|xs|, cuts, 0);
    SpliceShape(xs, cuts, 0);
  }

  // ----- Bounding -----

  /** A bounded text is the text, a start of it, or a start of it and the truncation marker. */
  predicate IsBounded(text: string, bounded: string) {
    || bounded == text
    || exists n :: 0 <= n <= |text| && (bounded == text[..n] || bounded == text[..n] + TRUNCATION_MARKER)
  }

  function CutLabels(from: nat, n: nat): seq<Label> { seq(n, i requires 0 <= i => Cut(from + i)) }

  lemma {:induction false} CutRewrites(bounded: string, n: nat, c: nat)
    requires n <= c <= |bounded| && (c == |bounded| || bounded[n..] == TRUNCATION_MARKER)
    ensures Rewrites(Iota(c) + Inserted(|bounded| - c), bounded, KeptLabels(c) + CutLabels(c - n, |bounded| - c))
  {
    var m, labels := Iota(c) + Inserted(|bounded| - c), KeptLabels(c) + CutLabels(c - n, |bounded| - c);
    forall p | c <= p < |m| ensures labels[p] == Cut(p - n) && Reads(labels[p], "", bounded[p]) {
      assert bounded[p] == bounded[n..][p - n];
    }
  }

  lemma {:induction false} BoundRewrites(text: string, bounded: string) returns (labels: seq<Label>)
    requires IsBounded(text, bounded)
    ensures Rewrites(BoundMap(text, bounded), bounded, labels)
  {
    if bounded == text {
      labels := KeptLabels(|text|);
    } else {
      var n :| 0 <= n <= |text| && (bounded == text[..n] || bounded == text[..n] + TRUNCATION_MARKER);
      var c := CommonPrefix(text, bounded);
      assert bounded[..n] == text[..n];
      CommonPrefixLongest(text, bounded, n);
      CutRewrites(bounded, n, c);
      labels := KeptLabels(c) + CutLabels(c - n, |bounded| - c);
    }
  }
}
