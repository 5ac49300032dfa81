/**
 Masking of the structural spans. The spans are found on the original text, mapped through the
 pieces of the redacted text, and replaced there together with the inserted text they touch.
 */
module Masking {
  import opened EventLimits
  import opened Ordering
  import opened Spans
  import opened Provenance
  import opened Pieces

  // ----- The positions that are masked -----

  /** Position `p` was kept from a structural span. */
  ghost predicate Hit(o: Origins, structural: seq<Span>, p: int) {
    0 <= p < |o| && 0 <= o[p] && Covers(structural, o[p])
  }

  ghost predicate InsertedAt(o: Origins, p: int) {
    0 <= p < |o| && o[p] < 0
  }

  predicate Between(p: int, q: int, r: int) { p <= r <= q || q <= r <= p }

  /** From `p`, only hits and inserted positions lead to some hit. */
  ghost predicate Touches(o: Origins, hit: int -> bool, p: int) {
    exists q :: hit(q) && Leads(o, hit, p, q)
  }

  ghost predicate Leads(o: Origins, hit: int -> bool, p: int, q: int) {
    forall r | Between(p, q, r) :: hit(r) || InsertedAt(o, r)
  }

  /** A masked position: a hit, or an inserted position joined to a hit through such positions. */
  ghost predicate Masked(o: Origins, structural: seq<Span>, p: int) {
    Touches(o, p => Hit(o, structural, p), p)
  }

  /** What masking means for one position. */
  lemma {:induction false} MaskedExactly(o: Origins, structural: seq<Span>, p: int)
    ensures Hit(o, structural, p) ==> Masked(o, structural, p)
    ensures Masked(o, structural, p) ==> Hit(o, structural, p) || InsertedAt(o, p)
    ensures 0 <= p < |o| && 0 <= o[p] ==> (Masked(o, structural, p) <==> Covers(structural, o[p]))
  {
    var hit := p => Hit(o, structural, p);
    if Hit(o, structural, p) {
      assert hit(p) && Leads(o, hit, p, p);
    }
    if Masked(o, structural, p) {
      var q :| hit(q) && Leads(o, hit, p, q);
      assert Between(p, q, p);
    }
  }

  lemma {:induction false} TouchesSame(o: Origins, a: int -> bool, b: int -> bool, p: int)
    requires forall q :: a(q) == b(q)
    ensures Touches(o, a, p) == Touches(o, b, p)
  {
    if Touches(o, a, p) {
      var q :| a(q) && Leads(o, a, p, q);
      assert b(q) && Leads(o, b, p, q);
    }
    if Touches(o, b, p) {
      var q :| b(q) && Leads(o, b, p, q);
      assert a(q) && Leads(o, a, p, q);
    }
  }

  lemma {:induction false} ConcatCovers(a: seq<Span>, b: seq<Span>)
    ensures forall p :: Covers(a + b, p) <==> Covers(a, p) || Covers(b, p)
  {
    forall p ensures Covers(a + b, p) <==> Covers(a, p) || Covers(b, p) {
      var ab := a + b;
      if Covers(a, p) {
        var i :| 0 <= i < |a| && a[i].Has(p);
        assert ab[i].Has(p);
      }
      if Covers(b, p) {
        var i :| 0 <= i < |b| && b[i].Has(p);
        assert ab[|a| + i].Has(p);
      }
    }
  }

  // ----- The walk over pieces and spans -----

  /** The part of a span that the piece at `offset`, kept from `source`, shows in the current text. */
  function Shown(s: Span, source: nat, length: nat, offset: nat): Span
    requires s.start < source + length && source < s.end
  {
    Span(offset + Max(s.start, source) - source, offset + Min(s.end, source + length) - source)
  }

  ghost predicate IsShown(r: Span, s: Span, source: nat, length: nat, offset: nat) {
    s.start < source + length && source < s.end && r == Shown(s, source, length, offset)
  }

  lemma {:induction false} ShownCover(structural: seq<Span>, from: nat, index: nat, ranges: seq<Span>, source: nat,
                                      length: nat, offset: nat, n: nat)
    requires Proper(structural, n) && Separated(structural, 0) && from <= index <= |structural|
    requires |ranges| == index - from
    requires forall j | 0 <= j < from :: structural[j].end <= source
    requires forall i | 0 <= i < |ranges| :: IsShown(ranges[i], structural[from + i], source, length, offset)
    requires index < |structural| ==> source + length <= structural[index].start
    ensures StartSorted(ranges)
    ensures forall p | offset <= p < offset + length :: Covers(ranges, p) <==> Covers(structural, source + p - offset)
  {
    forall p | offset <= p < offset + length
      ensures Covers(ranges, p) <==> Covers(structural, source + p - offset)
    {
      if Covers(ranges, p) {
        var i :| 0 <= i < |ranges| && ranges[i].Has(p);
        assert structural[from + i].Has(source + p - offset);
      }
      if Covers(structural, source + p - offset) {
        var j :| 0 <= j < |structural| && structural[j].Has(source + p - offset);
        assert from <= j < index;
        assert IsShown(ranges[j - from], structural[from + (j - from)], source, length, offset);
      }
    }
  }

  method OverlapRanges(structural: seq<Span>, from: nat, source: nat, length: nat, offset: nat, ghost n: nat)
    returns (ranges: seq<Span>)
    requires 0 < length && Proper(structural, n) && Separated(structural, 0) && from <= |structural|
    requires forall j | 0 <= j < from :: structural[j].end <= source
    requires from < |structural| ==> source < structural[from].end
    ensures forall i | 0 <= i < |ranges| :: offset <= ranges[i].start < ranges[i].end <= offset + length
    ensures StartSorted(ranges)
    ensures forall p | offset <= p < offset + length :: Covers(ranges, p) <==> Covers(structural, source + p - offset)
  {
    ranges := [];
    var index := from;
    while index < |structural| && structural[index].start < source + length
      invariant from <= index <= |structural| && |ranges| == index - from
      invariant forall j | from <= j < |structural| :: source < structural[j].end
      invariant forall i | 0 <= i < |ranges| :: IsShown(ranges[i], structural[from + i], source, length, offset)
    {
      ranges := ranges + [Shown(structural[index], source, length, offset)];
      index := index + 1;
    }
    ShownCover(structural, from, index, ranges, source, length, offset, n);
  }

  /** Kept pieces come from increasing, disjoint parts of the original text. */
  lemma {:induction false} SourcesIncrease(pieces: seq<Piece>, k: nat, m: nat)
    requires Tidy(pieces) && Increasing(Expand(pieces)) && k < m < |pieces|
    requires 0 <= pieces[k].source && 0 <= pieces[m].source
    ensures pieces[k].source + pieces[k].length <= pieces[m].source
  {
    var o, a, b := Expand(pieces), |Expand(pieces[..k])|, |Expand(pieces[..m])|;
    ExpandAt(pieces, k);
    ExpandAt(pieces, m);
    PrefixGrows(pieces, k + 1, m);
    var end := a + pieces[k].length;
    assert o[end - 1] == o[a..end][pieces[k].length - 1] == Run(pieces[k])[pieces[k].length - 1];
    assert o[b] == o[b..b + pieces[m].length][0] == Run(pieces[m])[0];
  }

  lemma {:induction false} PrefixGrows(pieces: seq<Piece>, k: nat, m: nat)
    requires k <= m <= |pieces|
    ensures |Expand(pieces[..k])| <= |Expand(pieces[..m])|
  {
    assert pieces[..m] == pieces[..k] + pieces[k..m];
    ExpandConcat(pieces[..k], pieces[k..m]);
  }

  /** The ranges so far cover exactly the hits before `offset`. */
  ghost predicate Found(pieces: seq<Piece>, structural: seq<Span>, ranges: seq<Span>, offset: nat) {
    && Proper(ranges, offset) && StartSorted(ranges)
    && forall p | 0 <= p < offset :: Covers(ranges, p) <==> Hit(Expand(pieces), structural, p)
  }

  lemma {:induction false} FoundGrows(pieces: seq<Piece>, structural: seq<Span>, ranges: seq<Span>, k: nat,
                                      more: seq<Span>)
    requires Tidy(pieces) && k < |pieces|
    requires Found(pieces, structural, ranges, |Expand(pieces[..k])|)
    requires var offset, piece := |Expand(pieces[..k])|, pieces[k];
             && StartSorted(more)
             && (forall i | 0 <= i < |more| :: offset <= more[i].start < more[i].end <= offset + piece.length)
             && (piece.source < 0 ==> more == [])
             && (0 <= piece.source ==> forall p | offset <= p < offset + piece.length ::
                   Covers(more, p) <==> Covers(structural, piece.source + p - offset))
    ensures |Expand(pieces[..k + 1])| == |Expand(pieces[..k])| + pieces[k].length
    ensures Found(pieces, structural, ranges + more, |Expand(pieces[..k + 1])|)
  {
    var offset, piece, o := |Expand(pieces[..k])|, pieces[k], Expand(pieces);
    ExpandAt(pieces, k);
    ConcatCovers(ranges, more);
    forall p | 0 <= p < offset + piece.length
      ensures Covers(ranges + more, p) <==> Hit(o, structural, p)
    {
      if p < offset {
        assert !Covers(more, p);
      } else {
        assert !Covers(ranges, p);
        assert o[p] == o[offset..offset + piece.length][p - offset] == Run(piece)[p - offset];
      }
    }
  }

  /** `_masked_ranges`, its forward walk: the ranges of the current text kept from structural spans. */
  method HitRanges(pieces: seq<Piece>, structural: seq<Span>, ghost n: nat) returns (ranges: seq<Span>)
    requires Tidy(pieces) && Increasing(Expand(pieces))
    requires Proper(structural, n) && Separated(structural, 0)
    ensures Found(pieces, structural, ranges, |Expand(pieces)|)
  {
    ranges := [];
    var spanIndex, offset := 0, 0;
    for k := 0 to |pieces|
      invariant offset == |Expand(pieces[..k])| && spanIndex <= |structural|
      invariant Found(pieces, structural, ranges, offset)
      invariant forall j, m | 0 <= j < spanIndex && k <= m < |pieces| && 0 <= pieces[m].source ::
                  structural[j].end <= pieces[m].source
    {
      var length, source := pieces[k].length, pieces[k].source;
      var more := [];
      if source >= 0 {
        while spanIndex < |structural| && structural[spanIndex].end <= source
          invariant spanIndex <= |structural|
          invariant forall j | 0 <= j < spanIndex :: structural[j].end <= source
        {
          spanIndex := spanIndex + 1;
        }
        more := OverlapRanges(structural, spanIndex, source, length, offset, n);
        forall m | k < m < |pieces| && 0 <= pieces[m].source ensures source <= pieces[m].source {
          SourcesIncrease(pieces, k, m);
        }
      }
      FoundGrows(pieces, structural, ranges, k, more);
      ranges := ranges + more;
      offset := offset + length;
    }
    assert pieces[..|pieces|] == pieces;
  }

  ghost predicate FoundInserted(o: Origins, ranges: seq<Span>, offset: nat) {
    && Proper(ranges, offset) && StartSorted(ranges)
    && forall p :: Covers(ranges, p) <==> p < offset && InsertedAt(o, p)
  }

  lemma {:induction false} FoundInsertedGrows(pieces: seq<Piece>, ranges: seq<Span>, k: nat)
    requires Tidy(pieces) && k < |pieces| && FoundInserted(Expand(pieces), ranges, |Expand(pieces[..k])|)
    ensures var offset := |Expand(pieces[..k])|;
            var end := offset + pieces[k].length;
            && |Expand(pieces[..k + 1])| == end <= |Expand(pieces)|
            && (pieces[k].source < 0 ==> FoundInserted(Expand(pieces), ranges + [Span(offset, end)], end))
            && (0 <= pieces[k].source ==> FoundInserted(Expand(pieces), ranges, end))
  {
    var offset, o := |Expand(pieces[..k])|, Expand(pieces);
    var end := offset + pieces[k].length;
    ExpandAt(pieces, k);
    forall p | offset <= p < end ensures o[p] < 0 <==> pieces[k].source < 0 {
      assert o[p] == o[offset..end][p - offset] == Run(pieces[k])[p - offset];
    }
    if pieces[k].source < 0 {
      var grown := ranges + [Span(offset, end)];
      LastCovers(grown);
      assert grown[..|grown| - 1] == ranges;
    }
  }

  /** `_inserted_ranges`. */
  method InsertedRanges(pieces: seq<Piece>) returns (ranges: seq<Span>)
    requires Tidy(pieces)
    ensures FoundInserted(Expand(pieces), ranges, |Expand(pieces)|)
  {
    ranges := [];
    var offset := 0;
    for k := 0 to |pieces|
      invariant offset == |Expand(pieces[..k])|
      invariant FoundInserted(Expand(pieces), ranges, offset)
    {
      FoundInsertedGrows(pieces, ranges, k);
      if pieces[k].source < 0 {
        ranges := ranges + [Span(offset, offset + pieces[k].length)];
      }
      offset := offset + pieces[k].length;
    }
    assert pieces[..|pieces|] == pieces;
  }

  // ----- Joining masked ranges with the inserted ranges they touch -----

  datatype Tagged = Tagged(span: Span, masked: bool)

  /** Order of the source's `(start, end, masked)` tuples. */
  predicate TaggedBefore(a: Tagged, b: Tagged) {
    || a.span.start < b.span.start
    || (a.span.start == b.span.start && a.span.end < b.span.end)
    || (a.span == b.span && (a.masked ==> b.masked))
  }

  function Tag(spans: seq<Span>, masked: bool): seq<Tagged> {
    seq(|spans|, i requires 0 <= i < |spans| => Tagged(spans[i], masked))
  }

  ghost function SpansOf(ts: seq<Tagged>): seq<Span> {
    seq(|ts|, i requires 0 <= i < |ts| => ts[i].span)
  }

  function GroupInto(groups: seq<Tagged>, t: Tagged): seq<Tagged> {
    var k := |groups| - 1;
    if groups != [] && t.span.start <= groups[k].span.end then
      var g := groups[k];
      groups[k := Tagged(Span(g.span.start, Max(g.span.end, t.span.end)), g.masked || t.masked)]
    else
      groups + [t]
  }

  function GroupAll(ts: seq<Tagged>): seq<Tagged> {
    if ts == [] then [] else GroupInto(GroupAll(ts[..|ts| - 1]), ts[|ts| - 1])
  }

  lemma {:induction false} GroupSpans(ts: seq<Tagged>)
    ensures SpansOf(GroupAll(ts)) == MergeAll(SpansOf(ts), 1)
  {
    if ts != [] {
      var k := |ts| - 1;
      GroupSpans(ts[..k]);
      assert SpansOf(ts)[..k] == SpansOf(ts[..k]) && SpansOf(ts)[k] == ts[k].span;
      GroupIntoSpans(GroupAll(ts[..k]), ts[k]);
    }
  }

  lemma {:induction false} GroupIntoSpans(groups: seq<Tagged>, t: Tagged)
    ensures SpansOf(GroupInto(groups, t)) == MergeInto(SpansOf(groups), t.span, 1)
  {
  }

  /** Position `p` lies in a masked member. */
  ghost predicate GroupMasks(ts: seq<Tagged>, p: int) {
    exists k :: 0 <= k < |ts| && ts[k].masked && ts[k].span.Has(p)
  }

  ghost predicate HoldsMasked(ts: seq<Tagged>, g: Span) {
    exists p :: g.Has(p) && GroupMasks(ts, p)
  }

  lemma {:induction false} LastMasks(ts: seq<Tagged>, p: int)
    requires ts != []
    ensures var k := |ts| - 1;
            GroupMasks(ts, p) <==> GroupMasks(ts[..k], p) || (ts[k].masked && ts[k].span.Has(p))
  {
    var k := |ts| - 1;
    var init := ts[..k];
    if GroupMasks(init, p) {
      var i :| 0 <= i < |init| && init[i].masked && init[i].span.Has(p);
      assert ts[i].masked && ts[i].span.Has(p);
    }
    if GroupMasks(ts, p) {
      var i :| 0 <= i < |ts| && ts[i].masked && ts[i].span.Has(p);
      if i < k { assert init[i].masked && init[i].span.Has(p); }
    }
  }

  lemma {:induction false} MaskedIsCovered(ts: seq<Tagged>, p: int)
    ensures GroupMasks(ts, p) ==> Covers(SpansOf(ts), p)
  {
    if GroupMasks(ts, p) {
      var i :| 0 <= i < |ts| && ts[i].masked && ts[i].span.Has(p);
      assert SpansOf(ts)[i].Has(p);
    }
  }

  /** Only the last group grows, and only past the positions covered so far. */
  lemma {:induction false} GrowthIsNew(groups: seq<Tagged>, t: Tagged, n: nat, i: nat, p: int)
    requires Proper(SpansOf(groups), n) && Separated(SpansOf(groups), 1)
    requires groups != [] ==> groups[|groups| - 1].span.start <= t.span.start
    requires i < |GroupInto(groups, t)| && GroupInto(groups, t)[i].span.Has(p) && Covers(SpansOf(groups), p)
    ensures i < |groups| && groups[i].span.Has(p)
  {
    var spans, last := SpansOf(groups), |groups| - 1;
    assert forall a, b | 0 <= a < b < |spans| :: spans[a].end + 1 <= spans[b].start;
    assert forall a | 0 <= a < |spans| :: spans[a] == groups[a].span;
    var k :| 0 <= k < |spans| && spans[k].Has(p);
  }

  lemma {:induction false} FlagStep(ts: seq<Tagged>, groups: seq<Tagged>, n: nat, i: nat)
    requires ts != [] && i < |GroupInto(groups, ts[|ts| - 1])|
    requires ts[|ts| - 1].span.start < ts[|ts| - 1].span.end
    requires Proper(SpansOf(groups), n) && Separated(SpansOf(groups), 1)
    requires groups != [] ==> groups[|groups| - 1].span.start <= ts[|ts| - 1].span.start
    requires forall p :: GroupMasks(ts[..|ts| - 1], p) ==> Covers(SpansOf(groups), p)
    requires i < |groups| ==> (groups[i].masked <==> HoldsMasked(ts[..|ts| - 1], groups[i].span))
    ensures var g := GroupInto(groups, ts[|ts| - 1])[i]; g.masked <==> HoldsMasked(ts, g.span)
  {
    var m := |ts| - 1;
    var init, t, g := ts[..m], ts[m], GroupInto(groups, ts[m])[i];
    if g.masked {
      var p: int := t.span.start;
      if i < |groups| && groups[i].masked {
        p :| groups[i].span.Has(p) && GroupMasks(init, p);
      }
      LastMasks(ts, p);
      assert g.span.Has(p) && GroupMasks(ts, p);
    }
    if HoldsMasked(ts, g.span) {
      var p :| g.span.Has(p) && GroupMasks(ts, p);
      LastMasks(ts, p);
      if GroupMasks(init, p) {
        GrowthIsNew(groups, t, n, i, p);
        assert HoldsMasked(init, groups[i].span);
      } else {
        LastHolds(groups, t, n, i, p);
      }
    }
  }

  /** A position of the new member lies in the last group only. */
  lemma {:induction false} LastHolds(groups: seq<Tagged>, t: Tagged, n: nat, i: nat, p: int)
    requires Proper(SpansOf(groups), n) && Separated(SpansOf(groups), 1)
    requires groups != [] ==> groups[|groups| - 1].span.start <= t.span.start
    requires i < |GroupInto(groups, t)| && GroupInto(groups, t)[i].span.Has(p) && t.span.Has(p)
    ensures i == |GroupInto(groups, t)| - 1
  {
    var spans, last := SpansOf(groups), |groups| - 1;
    assert forall j | 0 <= j < last :: spans[j].end + 1 <= spans[last].start && spans[j] == groups[j].span;
  }

  /** A group is masked exactly when a masked member lies in it. */
  lemma {:induction false} GroupFlags(ts: seq<Tagged>, n: nat)
    requires Proper(SpansOf(ts), n) && StartSorted(SpansOf(ts))
    ensures forall i | 0 <= i < |GroupAll(ts)| :: GroupAll(ts)[i].masked <==> HoldsMasked(ts, GroupAll(ts)[i].span)
  {
    if ts != [] {
      var k := |ts| - 1;
      var groups := GroupAll(ts[..k]);
      assert SpansOf(ts)[..k] == SpansOf(ts[..k]) && SpansOf(ts)[k] == ts[k].span;
      GroupFlags(ts[..k], n);
      GroupSpans(ts[..k]);
      MergeAllFacts(SpansOf(ts[..k]), 1, n);
      assert groups != [] ==> SpansOf(groups)[|groups| - 1] == groups[|groups| - 1].span;
      forall p ensures GroupMasks(ts[..k], p) ==> Covers(SpansOf(groups), p) {
        MaskedIsCovered(ts[..k], p);
      }
      forall i | 0 <= i < |GroupAll(ts)|
        ensures GroupAll(ts)[i].masked <==> HoldsMasked(ts, GroupAll(ts)[i].span)
      {
        FlagStep(ts, groups, n, i);
      }
    }
  }

  function MaskedOnly(groups: seq<Tagged>): seq<Span> {
    if groups == [] then []
    else (if groups[0].masked then [groups[0].span] else []) + MaskedOnly(groups[1..])
  }

  lemma {:induction false} PrependShape(s: Span, r: seq<Span>, n: nat)
    requires Proper(r, n) && Separated(r, 1) && s.start < s.end <= n
    requires forall i | 0 <= i < |r| :: s.end + 1 <= r[i].start
    ensures Proper([s] + r, n) && Separated([s] + r, 1)
  {
  }

  lemma {:induction false} MaskedOnlyShape(groups: seq<Tagged>, low: nat, n: nat)
    requires Proper(SpansOf(groups), n) && Separated(SpansOf(groups), 1)
    requires forall i | 0 <= i < |groups| :: low <= groups[i].span.start
    ensures Proper(MaskedOnly(groups), n) && Separated(MaskedOnly(groups), 1)
    ensures forall i | 0 <= i < |MaskedOnly(groups)| :: low <= MaskedOnly(groups)[i].start
  {
    if groups != [] {
      var spans, tail := SpansOf(groups), groups[1..];
      assert SpansOf(tail) == spans[1..] && spans[0] == groups[0].span;
      if groups[0].masked {
        forall i | 0 <= i < |tail| ensures spans[0].end + 1 <= tail[i].span.start {
          assert spans[i + 1] == tail[i].span;
        }
        MaskedOnlyShape(tail, spans[0].end + 1, n);
        PrependShape(spans[0], MaskedOnly(tail), n);
        assert MaskedOnly(groups) == [spans[0]] + MaskedOnly(tail);
      } else {
        MaskedOnlyShape(tail, low, n);
        assert MaskedOnly(groups) == MaskedOnly(tail);
      }
    }
  }

  lemma {:induction false} MaskedOnlyCovers(groups: seq<Tagged>, p: int)
    ensures Covers(MaskedOnly(groups), p) <==> GroupMasks(groups, p)
  {
    if groups != [] {
      var head, tail := if groups[0].masked then [groups[0].span] else [], groups[1..];
      MaskedOnlyCovers(tail, p);
      ConcatCovers(head, MaskedOnly(tail));
      assert MaskedOnly(groups) == head + MaskedOnly(tail);
      assert Covers(head, p) <==> groups[0].masked && groups[0].span.Has(p) by {
        assert groups[0].masked ==> head[0] == groups[0].span;
      }
      if GroupMasks(tail, p) {
        var i :| 0 <= i < |tail| && tail[i].masked && tail[i].span.Has(p);
        assert groups[i + 1].masked && groups[i + 1].span.Has(p);
      }
      if GroupMasks(groups, p) {
        var i :| 0 <= i < |groups| && groups[i].masked && groups[i].span.Has(p);
        assert i > 0 ==> tail[i - 1].masked && tail[i - 1].span.Has(p);
      }
    }
  }

  /** What the grouping gives: separated spans over the covered positions, flagged by their members. */
  ghost predicate Grouped(spans: seq<Span>, groups: seq<Tagged>, o: Origins, hit: int -> bool) {
    && spans == SpansOf(groups) && Proper(spans, |o|) && Separated(spans, 1)
    && (forall q :: Covers(spans, q) <==> hit(q) || InsertedAt(o, q))
    && (forall i | 0 <= i < |groups| :: groups[i].masked <==> exists q :: spans[i].Has(q) && hit(q))
  }

  lemma {:induction false} MaskedLeads(spans: seq<Span>, groups: seq<Tagged>, o: Origins, hit: int -> bool, p: int)
    requires Grouped(spans, groups, o, hit) && GroupMasks(groups, p)
    ensures Touches(o, hit, p)
  {
    var i :| 0 <= i < |groups| && groups[i].masked && groups[i].span.Has(p);
    var q :| spans[i].Has(q) && hit(q);
    forall r | Between(p, q, r) ensures hit(r) || InsertedAt(o, r) {
      assert spans[i].Has(r);
      assert Covers(spans, r);
    }
    assert hit(q) && Leads(o, hit, p, q);
  }

  lemma {:induction false} LeadsMasked(spans: seq<Span>, groups: seq<Tagged>, o: Origins, hit: int -> bool, p: int)
    requires Grouped(spans, groups, o, hit) && Touches(o, hit, p)
    ensures GroupMasks(groups, p)
  {
    var q :| hit(q) && Leads(o, hit, p, q);
    assert Covers(spans, q);
    var i :| 0 <= i < |spans| && spans[i].Has(q);
    CoveredRunStays(spans, |o|, i, p, q);
    assert groups[i].masked && groups[i].span == spans[i];
  }

  /** Position `p` is in a masked group exactly when covered positions lead from it to a masked one. */
  lemma {:induction false} GroupsFollowTouch(ts: seq<Tagged>, o: Origins, hit: int -> bool)
    requires Proper(SpansOf(ts), |o|) && StartSorted(SpansOf(ts))
    requires forall q :: Covers(SpansOf(ts), q) <==> hit(q) || InsertedAt(o, q)
    requires forall q :: GroupMasks(ts, q) <==> hit(q)
    ensures Proper(SpansOf(GroupAll(ts)), |o|) && Separated(SpansOf(GroupAll(ts)), 1)
    ensures forall p :: GroupMasks(GroupAll(ts), p) <==> Touches(o, hit, p)
  {
    var groups := GroupAll(ts);
    var spans := SpansOf(groups);
    GroupSpans(ts);
    MergeAllFacts(SpansOf(ts), 1, |o|);
    GroupFlags(ts, |o|);
    forall i | 0 <= i < |groups| ensures groups[i].masked <==> exists q :: spans[i].Has(q) && hit(q) {
      assert spans[i] == groups[i].span;
      assert HoldsMasked(ts, spans[i]) <==> exists q :: spans[i].Has(q) && hit(q);
    }
    assert Grouped(spans, groups, o, hit);
    forall p ensures GroupMasks(groups, p) <==> Touches(o, hit, p) {
      if GroupMasks(groups, p) { MaskedLeads(spans, groups, o, hit, p); }
      if Touches(o, hit, p) { LeadsMasked(spans, groups, o, hit, p); }
    }
  }

  /** A run of covered positions that meets a separated span lies inside it. */
  lemma {:induction false} CoveredRunStays(spans: seq<Span>, n: nat, i: nat, p: int, q: int)
    requires Proper(spans, n) && Separated(spans, 1) && i < |spans| && spans[i].Has(q)
    requires forall r | Between(p, q, r) :: Covers(spans, r)
    ensures spans[i].Has(p)
  {
    NotCoveredAround(spans, n, i);
    assert !Between(p, q, spans[i].end) && !Between(p, q, spans[i].start - 1);
  }

  lemma {:induction false} NotCoveredAround(spans: seq<Span>, n: nat, i: nat)
    requires Proper(spans, n) && Separated(spans, 1) && i < |spans|
    ensures !Covers(spans, spans[i].end) && !Covers(spans, spans[i].start - 1)
  {
  }

  lemma {:induction false} TaggedOrder()
    ensures TotalPreorder(TaggedBefore)
  {
  }

  lemma {:induction false} TagMembers(ranges: seq<Span>, inserted: seq<Span>)
    ensures var ts := SortBy(TaggedBefore, Tag(ranges, true) + Tag(inserted, false));
            && (forall k | 0 <= k < |ts| :: ts[k].span in (if ts[k].masked then ranges else inserted))
            && (forall s | s in ranges :: Tagged(s, true) in ts)
            && (forall s | s in inserted :: Tagged(s, false) in ts)
  {
    var tagged := Tag(ranges, true) + Tag(inserted, false);
    var ts := SortBy(TaggedBefore, tagged);
    forall k | 0 <= k < |ts| ensures ts[k].span in (if ts[k].masked then ranges else inserted) {
      SortMembers(TaggedBefore, tagged, ts[k]);
    }
    forall s | s in ranges ensures Tagged(s, true) in ts {
      var i :| 0 <= i < |ranges| && ranges[i] == s;
      assert tagged[i] == Tagged(s, true);
      SortMembers(TaggedBefore, tagged, Tagged(s, true));
    }
    forall s | s in inserted ensures Tagged(s, false) in ts {
      var i :| 0 <= i < |inserted| && inserted[i] == s;
      assert tagged[|ranges| + i] == Tagged(s, false);
      SortMembers(TaggedBefore, tagged, Tagged(s, false));
    }
  }

  /** The sorted list of masked and inserted ranges. */
  lemma {:induction false} SortedTags(o: Origins, ranges: seq<Span>, inserted: seq<Span>)
    requires Proper(ranges, |o|) && FoundInserted(o, inserted, |o|)
    ensures var ts := SortBy(TaggedBefore, Tag(ranges, true) + Tag(inserted, false));
            && Proper(SpansOf(ts), |o|) && StartSorted(SpansOf(ts))
            && (forall q :: Covers(SpansOf(ts), q) <==> Covers(ranges, q) || InsertedAt(o, q))
            && (forall q :: GroupMasks(ts, q) <==> Covers(ranges, q))
  {
    var tagged := Tag(ranges, true) + Tag(inserted, false);
    var ts := SortBy(TaggedBefore, tagged);
    TaggedOrder();
    SortSorted(TaggedBefore, tagged);
    TagMembers(ranges, inserted);
    TagShape(ts, ranges, inserted, |o|);
    forall q
      ensures Covers(SpansOf(ts), q) <==> Covers(ranges, q) || InsertedAt(o, q)
      ensures GroupMasks(ts, q) <==> Covers(ranges, q)
    {
      TagCover(ts, ranges, inserted, q);
    }
  }

  lemma {:induction false} TagShape(ts: seq<Tagged>, ranges: seq<Span>, inserted: seq<Span>, n: nat)
    requires forall k | 0 <= k < |ts| :: ts[k].span in (if ts[k].masked then ranges else inserted)
    requires Proper(ranges, n) && Proper(inserted, n) && SortedBy(TaggedBefore, ts)
    ensures Proper(SpansOf(ts), n) && StartSorted(SpansOf(ts))
  {
  }

  lemma {:induction false} TagCover(ts: seq<Tagged>, ranges: seq<Span>, inserted: seq<Span>, q: int)
    requires forall k | 0 <= k < |ts| :: ts[k].span in (if ts[k].masked then ranges else inserted)
    requires forall s | s in ranges :: Tagged(s, true) in ts
    requires forall s | s in inserted :: Tagged(s, false) in ts
    ensures Covers(SpansOf(ts), q) <==> Covers(ranges, q) || Covers(inserted, q)
    ensures GroupMasks(ts, q) <==> Covers(ranges, q)
  {
    forall k | 0 <= k < |ts| && ts[k].span.Has(q) ensures Covers(if ts[k].masked then ranges else inserted, q) {
      var home := if ts[k].masked then ranges else inserted;
      var i :| 0 <= i < |home| && home[i] == ts[k].span;
      assert home[i].Has(q);
    }
    if Covers(SpansOf(ts), q) {
      var k :| 0 <= k < |ts| && SpansOf(ts)[k].Has(q);
      assert ts[k].span.Has(q);
    }
    if Covers(ranges, q) {
      var i :| 0 <= i < |ranges| && ranges[i].Has(q);
      assert Tagged(ranges[i], true) in ts;
      var k :| 0 <= k < |ts| && ts[k] == Tagged(ranges[i], true);
      assert SpansOf(ts)[k].Has(q);
    }
    if Covers(inserted, q) {
      var i :| 0 <= i < |inserted| && inserted[i].Has(q);
      assert Tagged(inserted[i], false) in ts;
      var k :| 0 <= k < |ts| && ts[k] == Tagged(inserted[i], false);
      assert SpansOf(ts)[k].Has(q);
    }
  }

  /** `_absorb_inserted`, its loop: touching ranges join into groups. */
  method GroupTouching(ts: seq<Tagged>) returns (groups: seq<Tagged>)
    ensures groups == GroupAll(ts)
  {
    groups := [];
    for i := 0 to |ts|
      invariant groups == GroupAll(ts[..i])
    {
      assert ts[..i + 1][..i] == ts[..i];
      var t := ts[i];
      if |groups| > 0 && t.span.start <= groups[|groups| - 1].span.end {
        var g := groups[|groups| - 1];
        groups := groups[|groups| - 1 := Tagged(Span(g.span.start, Max(g.span.end, t.span.end)), g.masked || t.masked)];
      } else {
        groups := groups + [t];
      }
    }
    assert ts[..|ts|] == ts;
  }

  /** `_absorb_inserted`: each masked range joins the inserted ranges that touch it, in a chain. */
  method AbsorbInserted(pieces: seq<Piece>, ranges: seq<Span>) returns (joined: seq<Span>)
    requires Tidy(pieces) && Proper(ranges, |Expand(pieces)|)
    ensures Proper(joined, |Expand(pieces)|) && Separated(joined, 1)
    ensures forall p :: Covers(joined, p) <==> Touches(Expand(pieces), q => Covers(ranges, q), p)
  {
    ghost var o := Expand(pieces);
    if |ranges| == 0 {
      return ranges;
    }
    var inserted := InsertedRanges(pieces);
    var ts := SortBy(TaggedBefore, Tag(ranges, true) + Tag(inserted, false));
    SortedTags(o, ranges, inserted);
    var groups := GroupTouching(ts);
    joined := MaskedOnly(groups);
    GroupsFollowTouch(ts, o, q => Covers(ranges, q));
    MaskedOnlyShape(groups, 0, |o|);
    forall p ensures Covers(joined, p) <==> Touches(o, q => Covers(ranges, q), p) {
      MaskedOnlyCovers(groups, p);
    }
  }

  /** `_masked_ranges`: exactly the masked positions, as separated ranges in order. */
  method MaskedRanges(pieces: seq<Piece>, structural: seq<Span>, ghost n: nat) returns (ranges: seq<Span>)
    requires Tidy(pieces) && Increasing(Expand(pieces))
    requires Proper(structural, n) && Separated(structural, 0)
    ensures Proper(ranges, |Expand(pieces)|) && Separated(ranges, 1)
    ensures forall p :: Covers(ranges, p) <==> Masked(Expand(pieces), structural, p)
  {
    ghost var o := Expand(pieces);
    var hits := HitRanges(pieces, structural, n);
    var merged := MergeTouching(hits);
    MergeAllFacts(hits, 1, |o|);
    ranges := AbsorbInserted(pieces, merged);
    forall p ensures Covers(ranges, p) <==> Masked(o, structural, p) {
      TouchesSame(o, q => Covers(merged, q), q => Hit(o, structural, q), p);
    }
  }

  // ----- The masked text -----

  /** The maximal runs of marked positions below `n`. */
  ghost function Runs(mark: int -> bool, n: nat): (r: seq<Span>)
    ensures Proper(r, n) && Separated(r, 1)
    ensures forall p :: Covers(r, p) <==> 0 <= p < n && mark(p)
  {
    if n == 0 then []
    else
      var r := Runs(mark, n - 1);
      if mark(n - 1) then
        MergeIntoShape(r, Span(n - 1, n), 1, n);
        MergeIntoCovers(r, Span(n - 1, n), 1);
        MergeInto(r, Span(n - 1, n), 1)
      else r
  }

  ghost function MaskRuns(o: Origins, structural: seq<Span>): (r: seq<Span>)
    ensures Proper(r, |o|) && Separated(r, 1)
    ensures forall p :: Covers(r, p) <==> Masked(o, structural, p)
  {
    forall p ensures Masked(o, structural, p) ==> 0 <= p < |o| { MaskedExactly(o, structural, p); }
    Runs(p => Masked(o, structural, p), |o|)
  }

  /** The text with one marker in place of each maximal run of masked positions. */
  ghost function MaskedText(text: string, o: Origins, structural: seq<Span>): string
    requires |o| == |text|
  {
    Splice(text, MARKER, MaskRuns(o, structural), 0)
  }

  ghost function MaskMap(o: Origins, structural: seq<Span>): Origins {
    SpliceMap(|o|, |MARKER|, MaskRuns(o, structural), 0)
  }

  /** Masking keeps exactly the kept characters outside structural spans, and inserted ones that touch no hit. */
  lemma {:induction false} MaskKeeps(text: string, o: Origins, structural: seq<Span>)
    requires |o| == |text|
    ensures Embeds(text, MaskedText(text, o, structural), MaskMap(o, structural))
    ensures forall k | 0 <= k < |o| :: k in MaskMap(o, structural) <==> !Masked(o, structural, k)
    ensures forall k | 0 <= k < |o| && 0 <= o[k] :: k in MaskMap(o, structural) <==> !Covers(structural, o[k])
  {
    var runs := MaskRuns(o, structural);
    SpliceEmbeds(text, MARKER, runs, 0);
    forall k | 0 <= k < |o|
      ensures k in MaskMap(o, structural) <==> !Masked(o, structural, k)
      ensures 0 <= o[k] ==> (Masked(o, structural, k) <==> Covers(structural, o[k]))
    {
      SpliceKeeps(|o|, |MARKER|, runs, 0, k);
      MaskedExactly(o, structural, k);
    }
  }

  /** `_mask_structural`. */
  method MaskStructural(text: string, pieces: seq<Piece>, structural: seq<Span>, ghost n: nat) returns (masked: string)
    requires Tidy(pieces) && Increasing(Expand(pieces)) && |Expand(pieces)| == |text|
    requires Proper(structural, n) && Separated(structural, 0)
    ensures masked == MaskedText(text, Expand(pieces), structural)
  {
    var ranges := MaskedRanges(pieces, structural, n);
    CoverageDetermines(ranges, MaskRuns(Expand(pieces), structural), |text|);
    masked := "";
    var last: nat := 0;
    for i := 0 to |ranges|
      invariant Cuttable(ranges[i..], last, |text|)
      invariant masked + Splice(text, MARKER, ranges[i..], last) == Splice(text, MARKER, ranges, 0)
    {
      SpliceStep(masked, text, MARKER, ranges, i, last, masked + text[last..ranges[i].start] + MARKER);
      masked := masked + text[last..ranges[i].start] + MARKER;
      last := ranges[i].end;
    }
    masked := masked + text[last..];
  }
}
