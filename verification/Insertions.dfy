/** What redaction writes into a text: whole markers at each step, and in the result nothing but marker text. */
module Insertions {
  import opened EventLimits
  import opened FixedPoint
  import opened Spans
  import opened Provenance
  import opened Pieces
  import opened Masking
  import opened Markers
  import opened Labels
  import opened Redaction

  // ----- One step -----

  /** Before the marker of a span stand positions before the span, and byte-order marks that it starts with. */
  lemma {:induction false} BeforeCut(text: string, span: Span, k: nat)
    requires span.start <= span.end <= |text| && k < CutOf(text, span).start
    ensures k < |text| && (k < span.start || text[k] == BYTE_ORDER_MARK)
  {
    if span.start <= k { assert text[span.start..span.end][k - span.start] == text[k]; }
  }

  /**
   A redacted text has one whole marker for each span, in its place, and no other text of its own. What is kept
   of a span before its marker are byte-order marks.
   */
  lemma {:induction false} RedactedMarks(text: string, spans: seq<Span>) returns (ws: seq<nat>)
    requires Proper(spans, |text|) && Separated(spans, 0)
    ensures Windows(Redacted(text, spans), RedactMap(text, spans), MARKER, ws) && |ws| == |spans|
    ensures var m := RedactMap(text, spans);
            forall i, p | 0 <= i < |ws| && 0 <= p < |m| && 0 <= m[p] ::
              if p < ws[i] then m[p] < |text| && (m[p] < spans[i].start || text[m[p]] == BYTE_ORDER_MARK)
              else spans[i].end <= m[p]
  {
    var cuts, m := Cuts(text, spans), RedactMap(text, spans);
    ws := SpliceWindows(text, MARKER, cuts, 0);
    forall i, p | 0 <= i < |ws| && 0 <= p < |m| && 0 <= m[p]
      ensures if p < ws[i] then m[p] < |text| && (m[p] < spans[i].start || text[m[p]] == BYTE_ORDER_MARK)
              else spans[i].end <= m[p]
    {
      assert cuts[i] == CutOf(text, spans[i]);
      if p < ws[i] { BeforeCut(text, spans[i], m[p]); }
    }
  }

  /** A masked text has one whole marker for each maximal run of masked positions, in its place, and nothing else. */
  lemma {:induction false} MaskMarks(text: string, o: Origins, structural: seq<Span>, runs: seq<Span>)
    returns (ws: seq<nat>)
    requires |o| == |text| && Proper(runs, |o|) && Separated(runs, 1)
    requires forall p :: Covers(runs, p) <==> Masked(o, structural, p)
    ensures Windows(MaskedText(text, o, structural), MaskMap(o, structural), MARKER, ws)
    ensures Placed(MaskMap(o, structural), runs, ws)
  {
    CoverageDetermines(runs, MaskRuns(o, structural), |o|);
    ws := SpliceWindows(text, MARKER, MaskRuns(o, structural), 0);
  }

  // ----- The labels of the result -----

  lemma {:induction false} ComposeAssociates(b: Origins, r: Origins, o: Origins)
    requires Indexes(b, |r|) && Indexes(r, |o|)
    ensures Indexes(Compose(b, r), |o|) && Compose(Compose(b, r), o) == Compose(b, Compose(r, o))
  {
  }

  lemma {:induction false} SameSigns(text: string, out: string, o: Origins, o': Origins, labels: seq<Label>)
    requires Labelled(text, out, o, labels) && |o'| == |o|
    requires forall p | 0 <= p < |o| :: o'[p] == o[p] || (o'[p] < 0 && o[p] < 0)
    ensures Labelled(text, out, o', labels)
  {
  }

  lemma {:induction false} IotaLabels(text: string)
    ensures Labelled(text, text, Iota(|text|), KeptLabels(|text|))
  {
  }

  /** The bound gives the text, a start of it, or a start of it and the truncation marker. */
  ghost predicate OnlyCuts(bound: string -> string) { forall t: string :: IsBounded(t, bound(t)) }

  lemma {:induction false} BoundLabels(text: string, current: string, o: Origins, labels: seq<Label>, bounded: string)
    returns (after: seq<Label>)
    requires Labelled(text, current, o, labels) && IsBounded(current, bounded)
    ensures Indexes(BoundMap(current, bounded), |o|)
    ensures Labelled(text, bounded, Compose(BoundMap(current, bounded), o), after)
  {
    BoundMapEmbeds(current, bounded);
    var step := BoundRewrites(current, bounded);
    after := Relabel(text, current, o, labels, BoundMap(current, bounded), bounded, step);
  }

  lemma {:induction false} SpliceLabels(text: string, current: string, o: Origins, labels: seq<Label>, cuts: seq<Span>)
    returns (after: seq<Label>)
    requires Labelled(text, current, o, labels) && Cuttable(cuts, 0, |current|)
    ensures var m := SpliceMap(|current|, |MARKER|, cuts, 0);
            Indexes(m, |o|) && Labelled(text, Splice(current, MARKER, cuts, 0), Compose(m, o), after)
  {
    SpliceEmbeds(current, MARKER, cuts, 0);
    var step := SpliceRewrites(current, cuts);
    after := Relabel(text, current, o, labels, SpliceMap(|current|, |MARKER|, cuts, 0),
                     Splice(current, MARKER, cuts, 0), step);
  }

  lemma {:induction false} PassLabels(pat: Patterns, bound: string -> string, text: string, current: string, o: Origins,
                                      labels: seq<Label>)
    returns (after: seq<Label>)
    requires OnlyCuts(bound) && Labelled(text, current, o, labels)
    ensures Indexes(PassMap(pat, bound, current), |o|)
    ensures Labelled(text, Pass(pat, bound, current), Compose(PassMap(pat, bound, current), o), after)
  {
    var spans := SecretSpans(pat, current);
    var redacted, r := Redacted(current, spans), RedactMap(current, spans);
    var mid := SpliceLabels(text, current, o, labels, Cuts(current, spans));
    assert IsBounded(redacted, bound(redacted));
    after := BoundLabels(text, redacted, Compose(r, o), mid, bound(redacted));
    RedactMapSigns(current, spans);
    BoundMapEmbeds(redacted, bound(redacted));
    ComposeAssociates(BoundMap(redacted, bound(redacted)), r, o);
  }

  lemma {:induction false} RedactMapSigns(text: string, spans: seq<Span>)
    requires Proper(spans, |text|) && Separated(spans, 0)
    ensures var r := RedactMap(text, spans);
            |r| == |Redacted(text, spans)| && forall p | 0 <= p < |r| && r[p] < 0 :: r[p] == -1
  {
    SpliceEmbeds(text, MARKER, Cuts(text, spans), 0);
    SpliceSigns(|text|, |MARKER|, Cuts(text, spans), 0);
  }

  lemma {:induction false} SpliceSigns(n: nat, mark: nat, cuts: seq<Span>, last: nat)
    requires Cuttable(cuts, last, n)
    ensures var r := SpliceMap(n, mark, cuts, last); forall p | 0 <= p < |r| && r[p] < 0 :: r[p] == -1
  {
    if cuts != [] {
      SpliceSigns(n, mark, cuts[1..], cuts[0].end);
      assert SpliceMap(n, mark, cuts, last)
             == Iota(n)[last..cuts[0].start] + Inserted(mark) + SpliceMap(n, mark, cuts[1..], cuts[0].end);
    }
  }

  lemma {:induction false} NextPass(pat: Patterns, bound: string -> string, start: string, o: Origins, k: nat)
    requires |o| == |start|
    ensures var before, oa := After(pat, bound, start, k), OriginsAfter(pat, bound, start, k);
            && Indexes(oa, |o|) && |oa| == |before|
            && After(pat, bound, start, k + 1) == Pass(pat, bound, before)
            && Indexes(PassMap(pat, bound, before), |oa|)
            && OriginsAfter(pat, bound, start, k + 1) == Compose(PassMap(pat, bound, before), oa)
  {
  }

  /** After `k` passes from `start` there are labels back to `text`. */
  ghost predicate HasLabels(pat: Patterns, bound: string -> string, text: string, start: string, o: Origins, k: nat) {
    var oa := OriginsAfter(pat, bound, start, k);
    Indexes(oa, |o|) && exists labels :: Labelled(text, After(pat, bound, start, k), Compose(oa, o), labels)
  }

  lemma {:induction false} StartLabels(pat: Patterns, bound: string -> string, text: string, start: string, o: Origins,
                                       labels: seq<Label>)
    requires Labelled(text, start, o, labels)
    ensures HasLabels(pat, bound, text, start, o, 0)
  {
    var oa := OriginsAfter(pat, bound, start, 0);
    assert oa == Iota(|start|) && After(pat, bound, start, 0) == start;
    assert Compose(oa, o) == o;
  }

  lemma {:induction false} NextLabels(pat: Patterns, bound: string -> string, text: string, start: string, o: Origins,
                                      k: nat, next: nat)
    requires OnlyCuts(bound) && |o| == |start| && HasLabels(pat, bound, text, start, o, k) && next == k + 1
    ensures HasLabels(pat, bound, text, start, o, next)
  {
    var before, oa := After(pat, bound, start, k), OriginsAfter(pat, bound, start, k);
    var mid :| Labelled(text, before, Compose(oa, o), mid);
    var after := PassLabels(pat, bound, text, before, Compose(oa, o), mid);
    NextPass(pat, bound, start, o, k);
    ComposeAssociates(PassMap(pat, bound, before), oa, o);
  }

  /** Any number of passes from a labelled text gives a labelled text. */
  lemma {:induction false} AfterLabels(pat: Patterns, bound: string -> string, text: string, start: string, o: Origins,
                                       labels: seq<Label>, k: nat)
    requires OnlyCuts(bound) && Labelled(text, start, o, labels)
    ensures HasLabels(pat, bound, text, start, o, k)
  {
    if k == 0 {
      StartLabels(pat, bound, text, start, o, labels);
    } else {
      AfterLabels(pat, bound, text, start, o, labels, k - 1);
      NextLabels(pat, bound, text, start, o, k - 1, k);
    }
  }

  lemma {:induction false} LabelsFromStart(text: string, out: string, o: Origins, co: Origins)
    returns (labels: seq<Label>)
    requires Indexes(o, |text|) && co == Compose(o, Iota(|text|)) && exists labels :: Labelled(text, out, co, labels)
    ensures Labelled(text, out, o, labels)
  {
    labels :| Labelled(text, out, co, labels);
    SameSigns(text, out, co, o, labels);
  }

  lemma {:induction false} FirstLabels(pat: Patterns, bound: string -> string, text: string, k: nat)
    returns (labels: seq<Label>)
    requires OnlyCuts(bound)
    ensures Labelled(text, After(pat, bound, text, k), OriginsAfter(pat, bound, text, k), labels)
  {
    var oa, iota := OriginsAfter(pat, bound, text, k), Iota(|text|);
    IotaLabels(text);
    AfterLabels(pat, bound, text, text, iota, KeptLabels(|text|), k);
    labels := LabelsFromStart(text, After(pat, bound, text, k), oa, Compose(oa, iota));
  }

  lemma {:induction false} MaskedLabels(text: string, current: string, o: Origins, structural: seq<Span>,
                                        first: seq<Label>, masked: string)
    returns (labels: seq<Label>)
    requires Labelled(text, current, o, first) && IsBounded(MaskedText(current, o, structural), masked)
    ensures var shown := MaskedText(current, o, structural);
            && Indexes(MaskMap(o, structural), |o|)
            && Indexes(BoundMap(shown, masked), |Compose(MaskMap(o, structural), o)|)
            && Labelled(text, masked, Compose(BoundMap(shown, masked), Compose(MaskMap(o, structural), o)), labels)
  {
    var shown := MaskedText(current, o, structural);
    var toShown := SpliceLabels(text, current, o, first, MaskRuns(o, structural));
    labels := BoundLabels(text, shown, Compose(MaskMap(o, structural), o), toShown, masked);
  }

  /** With structural spans, the result comes from the masked text. */
  lemma {:induction false} ResultIsAfter(pat: Patterns, bound: string -> string, text: string, k: nat)
    requires !IsVaulted(text) && Completes(pat, bound, text) && Structural(pat, text) != []
    requires Rest(pat, bound, text) == Some(k)
    ensures var masked := MaskedAfter(pat, bound, text, k);
            && Rest(pat, bound, masked).Some?
            && RedactedResult(pat, bound, text) == After(pat, bound, masked, Rest(pat, bound, masked).value)
  {
  }

  lemma {:induction false} OriginsAreComposed(pat: Patterns, bound: string -> string, text: string, k: nat, j: nat,
                                              current: string, o: Origins, masked: string, toMasked: Origins)
    requires !IsVaulted(text) && Completes(pat, bound, text) && Structural(pat, text) != []
    requires Rest(pat, bound, text) == Some(k) && current == After(pat, bound, text, k)
    requires o == OriginsAfter(pat, bound, text, k)
    requires masked == MaskedAfter(pat, bound, text, k) && Rest(pat, bound, masked) == Some(j)
    requires var structural := Structural(pat, text);
             var shown := MaskedText(current, o, structural);
             && Indexes(MaskMap(o, structural), |o|)
             && Indexes(BoundMap(shown, masked), |Compose(MaskMap(o, structural), o)|)
             && toMasked == Compose(BoundMap(shown, masked), Compose(MaskMap(o, structural), o))
    requires Indexes(OriginsAfter(pat, bound, masked, j), |toMasked|)
    ensures ResultOrigins(pat, bound, text) == Compose(OriginsAfter(pat, bound, masked, j), toMasked)
  {
  }

  /**
   Every character of a result without an origin in the text is text of a redaction marker or of the truncation
   marker. Next to text of the original, a redaction marker begins at its beginning and ends at its end.
   */
  lemma {:induction false} OnlyMarkersAreInserted(pat: Patterns, bound: string -> string, text: string)
    returns (labels: seq<Label>)
    requires OnlyCuts(bound) && !IsVaulted(text) && Completes(pat, bound, text)
    ensures Labelled(text, RedactedResult(pat, bound, text), ResultOrigins(pat, bound, text), labels)
  {
    var k := Rest(pat, bound, text).value;
    var first := FirstLabels(pat, bound, text, k);
    if Structural(pat, text) == [] {
      labels := first;
    } else {
      labels := StructuralLabels(pat, bound, text, k, first);
    }
  }

  lemma {:induction false} StructuralLabels(pat: Patterns, bound: string -> string, text: string, k: nat,
                                            first: seq<Label>)
    returns (labels: seq<Label>)
    requires OnlyCuts(bound) && !IsVaulted(text) && Completes(pat, bound, text) && Structural(pat, text) != []
    requires Rest(pat, bound, text) == Some(k)
    requires Labelled(text, After(pat, bound, text, k), OriginsAfter(pat, bound, text, k), first)
    ensures Labelled(text, RedactedResult(pat, bound, text), ResultOrigins(pat, bound, text), labels)
  {
    var current, o, structural := After(pat, bound, text, k), OriginsAfter(pat, bound, text, k), Structural(pat, text);
    var shown, masked := MaskedText(current, o, structural), MaskedAfter(pat, bound, text, k);
    assert IsBounded(shown, bound(shown));
    var before := MaskedLabels(text, current, o, structural, first, masked);
    var toMasked := Compose(BoundMap(shown, masked), Compose(MaskMap(o, structural), o));
    ResultIsAfter(pat, bound, text, k);
    var j := Rest(pat, bound, masked).value;
    AfterLabels(pat, bound, text, masked, toMasked, before, j);
    OriginsAreComposed(pat, bound, text, k, j, current, o, masked, toMasked);
    labels :|
      Labelled(text, After(pat, bound, masked, j), Compose(OriginsAfter(pat, bound, masked, j), toMasked), labels);
  }

  // ----- Whole markers -----

  /** The origins after the first pass, when the bound leaves the redacted text alone. */
  lemma {:induction false} FirstOrigins(pat: Patterns, bound: string -> string, text: string)
    requires bound(Redacted(text, SecretSpans(pat, text))) == Redacted(text, SecretSpans(pat, text))
    ensures After(pat, bound, text, 1) == Redacted(text, SecretSpans(pat, text))
    ensures OriginsAfter(pat, bound, text, 1) == RedactMap(text, SecretSpans(pat, text))
  {
    var spans := SecretSpans(pat, text);
    var redacted, m := Redacted(text, spans), RedactMap(text, spans);
    NextPass(pat, bound, text, Iota(|text|), 0);
    assert After(pat, bound, text, 0) == text && OriginsAfter(pat, bound, text, 0) == Iota(|text|);
    RedactMapSigns(text, spans);
    SpliceEmbeds(text, MARKER, Cuts(text, spans), 0);
    assert PassMap(pat, bound, text) == Compose(Iota(|redacted|), m) == m;
    assert Compose(m, Iota(|text|)) == m;
  }

  /** When one pass settles the text uncut, its markers are whole: one for each secret span. */
  lemma {:induction false} OnePassIsWhole(pat: Patterns, bound: string -> string, text: string) returns (ws: seq<nat>)
    requires !IsVaulted(text) && Structural(pat, text) == [] && Rest(pat, bound, text) == Some(1)
    requires bound(Redacted(text, SecretSpans(pat, text))) == Redacted(text, SecretSpans(pat, text))
    ensures Completes(pat, bound, text)
    ensures Windows(RedactedResult(pat, bound, text), ResultOrigins(pat, bound, text), MARKER, ws)
    ensures |ws| == |SecretSpans(pat, text)|
  {
    ws := RedactedMarks(text, SecretSpans(pat, text));
    FirstOrigins(pat, bound, text);
  }
}
