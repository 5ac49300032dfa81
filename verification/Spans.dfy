/** Half-open ranges of text positions, and the merging of overlapping or touching ranges. */
module Spans {
  import opened Ordering

  datatype Span = Span(start: nat, end: nat) {
    predicate Has(p: int) { start <= p < end }
  }

  /** Order of the source's `(start, end)` tuples. */
  predicate Before(a: Span, b: Span) {
    a.start < b.start || (a.start == b.start && a.end <= b.end)
  }

  predicate Proper(spans: seq<Span>, n: nat) {
    forall i | 0 <= i < |spans| :: spans[i].start < spans[i].end <= n
  }

  /** Consecutive spans are at least `gap` positions apart. */
  predicate Separated(spans: seq<Span>, gap: nat) {
    forall i, j | 0 <= i < j < |spans| :: spans[i].end + gap <= spans[j].start
  }

  predicate Covers(spans: seq<Span>, p: int) {
    exists i :: 0 <= i < |spans| && spans[i].Has(p)
  }

  predicate StartSorted(spans: seq<Span>) {
    forall i, j | 0 <= i < j < |spans| :: spans[i].start <= spans[j].start
  }

  /** One step of a merge: `touch` is 0 when only an overlap merges, 1 when touching does too. */
  function MergeInto(merged: seq<Span>, s: Span, touch: nat): seq<Span> {
    var k := |merged| - 1;
    if merged != [] && s.start < merged[k].end + touch then
      merged[k := Span(merged[k].start, if merged[k].end < s.end then s.end else merged[k].end)]
    else
      merged + [s]
  }

  function MergeAll(spans: seq<Span>, touch: nat): seq<Span> {
    if spans == [] then []
    else MergeInto(MergeAll(spans[..|spans| - 1], touch), spans[|spans| - 1], touch)
  }

  function MergedSpans(spans: seq<Span>): seq<Span> {
    MergeAll(SortBy(Before, spans), 0)
  }

  lemma {:induction false} MergeIntoCovers(merged: seq<Span>, s: Span, touch: nat)
    requires touch <= 1
    requires merged != [] ==> merged[|merged| - 1].start <= s.start
    ensures forall p :: Covers(MergeInto(merged, s, touch), p) <==> Covers(merged, p) || s.Has(p)
  {
    var r := MergeInto(merged, s, touch);
    var k := |merged| - 1;
    forall p ensures Covers(r, p) <==> Covers(merged, p) || s.Has(p) {
      if Covers(merged, p) {
        var i :| 0 <= i < |merged| && merged[i].Has(p);
        assert r[i].Has(p);
      }
      if s.Has(p) {
        assert r[|r| - 1].Has(p);
      }
      if Covers(r, p) {
        var i :| 0 <= i < |r| && r[i].Has(p);
        if i < |merged| && !merged[i].Has(p) {
          assert i == k;
        }
      }
    }
  }

  lemma {:induction false} LastCovers(spans: seq<Span>)
    requires spans != []
    ensures var k := |spans| - 1;
            forall p :: Covers(spans, p) <==> Covers(spans[..k], p) || spans[k].Has(p)
  {
    var k := |spans| - 1;
    var init := spans[..k];
    forall p ensures Covers(spans, p) <==> Covers(init, p) || spans[k].Has(p) {
      if Covers(init, p) {
        var i :| 0 <= i < |init| && init[i].Has(p);
        assert spans[i].Has(p);
      }
      if Covers(spans, p) {
        var i :| 0 <= i < |spans| && spans[i].Has(p);
        if i < k { assert init[i].Has(p); }
      }
    }
  }

  lemma {:induction false} MergeIntoShape(merged: seq<Span>, s: Span, touch: nat, n: nat)
    requires Proper(merged, n) && Separated(merged, touch) && s.start < s.end <= n
    requires merged != [] ==> merged[|merged| - 1].start <= s.start
    ensures var r := MergeInto(merged, s, touch);
            Proper(r, n) && Separated(r, touch) && r != [] && r[|r| - 1].start <= s.start
  {
  }

  /** Merging a start-sorted list gives proper, separated spans with the same coverage. */
  lemma {:induction false} MergeAllFacts(spans: seq<Span>, touch: nat, n: nat)
    requires touch <= 1 && Proper(spans, n) && StartSorted(spans)
    ensures var r := MergeAll(spans, touch);
            && Proper(r, n) && Separated(r, touch)
            && (forall p :: Covers(r, p) <==> Covers(spans, p))
            && (spans != [] ==> r != [] && r[|r| - 1].start <= spans[|spans| - 1].start)
  {
    if spans != [] {
      var k := |spans| - 1;
      MergeAllFacts(spans[..k], touch, n);
      var acc := MergeAll(spans[..k], touch);
      MergeIntoShape(acc, spans[k], touch, n);
      MergeIntoCovers(acc, spans[k], touch);
      LastCovers(spans);
    }
  }

  lemma {:induction false} BeforeIsOrder()
    ensures TotalPreorder(Before)
  {
  }

  lemma {:induction false} SortedSpans(spans: seq<Span>, n: nat)
    requires Proper(spans, n)
    ensures var r := SortBy(Before, spans);
            Proper(r, n) && StartSorted(r) && forall p :: Covers(r, p) <==> Covers(spans, p)
  {
    var r := SortBy(Before, spans);
    BeforeIsOrder();
    SortSorted(Before, spans);
    forall i | 0 <= i < |r| ensures r[i].start < r[i].end <= n {
      SortMembers(Before, spans, r[i]);
    }
    forall p ensures Covers(r, p) <==> Covers(spans, p) {
      if Covers(r, p) {
        var i :| 0 <= i < |r| && r[i].Has(p);
        SortMembers(Before, spans, r[i]);
        var j :| 0 <= j < |spans| && spans[j] == r[i];
        assert spans[j].Has(p);
      }
      if Covers(spans, p) {
        var i :| 0 <= i < |spans| && spans[i].Has(p);
        SortMembers(Before, spans, spans[i]);
        var j :| 0 <= j < |r| && r[j] == spans[i];
        assert r[j].Has(p);
      }
    }
  }

  /** `_merge_spans` for every list of proper spans, in any order: sorted, disjoint, same coverage. */
  lemma {:induction false} MergedSpansFacts(spans: seq<Span>, n: nat)
    requires Proper(spans, n)
    ensures var r := MergedSpans(spans);
            Proper(r, n) && Separated(r, 0) && forall p :: Covers(r, p) <==> Covers(spans, p)
  {
    SortedSpans(spans, n);
    MergeAllFacts(SortBy(Before, spans), 0, n);
  }

  lemma {:induction false} LastEndsBefore(init: seq<Span>, s: Span, n: nat)
    requires Proper(init, n) && StartSorted(init) && forall i | 0 <= i < |init| :: init[i].end <= s.start
    ensures var acc := MergeAll(init, 0); acc != [] ==> acc[|acc| - 1].end <= s.start
  {
    MergeAllFacts(init, 0, n);
    var acc := MergeAll(init, 0);
    if acc != [] {
      var z := acc[|acc| - 1];
      assert z.Has(z.end - 1) && Covers(acc, z.end - 1);
      var i :| 0 <= i < |init| && init[i].Has(z.end - 1);
    }
  }

  lemma {:induction false} MergeIntoKeeps(acc: seq<Span>, s: Span, i: nat)
    requires i < |acc| && (i == |acc| - 1 ==> acc[i].end <= s.start)
    ensures acc[i] in MergeInto(acc, s, 0)
  {
    assert MergeInto(acc, s, 0)[i] == acc[i];
  }

  lemma {:induction false} MergeAllKeepsApart(spans: seq<Span>, n: nat, k: nat)
    requires Proper(spans, n) && StartSorted(spans) && k < |spans|
    requires forall i | 0 <= i < |spans| && i != k :: spans[i].end <= spans[k].start || spans[k].end <= spans[i].start
    ensures spans[k] in MergeAll(spans, 0)
    ensures k == |spans| - 1 ==> MergeAll(spans, 0)[|MergeAll(spans, 0)| - 1] == spans[k]
  {
    var m := |spans| - 1;
    var init, s := spans[..m], spans[m];
    var acc := MergeAll(init, 0);
    if k == m {
      LastEndsBefore(init, s, n);
    } else {
      MergeAllKeepsApart(init, n, k);
      var i :| 0 <= i < |acc| && acc[i] == spans[k];
      if i == |acc| - 1 {
        assert spans[k].end <= s.start;
      }
      MergeIntoKeeps(acc, s, i);
    }
  }

  /** A span that overlaps no other is left exactly as it was found. */
  lemma {:induction false} MergedSpansKeepsApart(spans: seq<Span>, n: nat, k: nat)
    requires Proper(spans, n) && k < |spans|
    requires forall i | 0 <= i < |spans| && i != k :: spans[i].end <= spans[k].start || spans[k].end <= spans[i].start
    ensures spans[k] in MergedSpans(spans)
  {
    var r := SortBy(Before, spans);
    SortedSpans(spans, n);
    SortMembers(Before, spans, spans[k]);
    var j :| 0 <= j < |r| && r[j] == spans[k];
    forall i | 0 <= i < |r| && i != j
      ensures r[i].end <= r[j].start || r[j].end <= r[i].start
    {
      SortMembers(Before, spans, r[i]);
      var i' :| 0 <= i' < |spans| && spans[i'] == r[i];
      CountOnce(spans, k);
      TwiceInMultiset(r, i, j);
    }
    MergeAllKeepsApart(r, n, j);
  }

  lemma {:induction false} CountOnce(s: seq<Span>, k: nat)
    requires k < |s| && s[k].start < s[k].end
    requires forall i | 0 <= i < |s| && i != k :: s[i].end <= s[k].start || s[k].end <= s[i].start
    ensures multiset(s)[s[k]] == 1
  {
    assert s == s[..k] + [s[k]] + s[k + 1..];
    assert s[k] !in s[..k] && s[k] !in s[k + 1..];
    assert multiset(s[..k])[s[k]] == 0 && multiset(s[k + 1..])[s[k]] == 0;
  }

  /** Separated proper spans are determined by the positions they cover. */
  lemma {:induction false} CoverageDetermines(a: seq<Span>, b: seq<Span>, n: nat)
    requires Proper(a, n) && Proper(b, n) && Separated(a, 1) && Separated(b, 1)
    requires forall p :: Covers(a, p) <==> Covers(b, p)
    ensures a == b
  {
    if a == [] || b == [] {
      if a != [] { assert a[0].Has(a[0].start) && Covers(a, a[0].start); }
      if b != [] { assert b[0].Has(b[0].start) && Covers(b, b[0].start); }
    } else {
      SameHead(a, b, n);
      TailCoverage(a);
      TailCoverage(b);
      CoverageDetermines(a[1..], b[1..], n);
    }
  }

  lemma {:induction false} SameHead(a: seq<Span>, b: seq<Span>, n: nat)
    requires a != [] && b != [] && Proper(a, n) && Proper(b, n) && Separated(a, 1) && Separated(b, 1)
    requires forall p :: Covers(a, p) <==> Covers(b, p)
    ensures a[0] == b[0]
  {
    HeadBound(a, b, n);
    HeadBound(b, a, n);
  }

  lemma {:induction false} HeadBound(a: seq<Span>, b: seq<Span>, n: nat)
    requires a != [] && b != [] && Proper(a, n) && Proper(b, n) && Separated(a, 1) && Separated(b, 1)
    requires forall p :: Covers(a, p) ==> Covers(b, p)
    requires forall p :: Covers(b, p) ==> Covers(a, p)
    ensures b[0].start <= a[0].start && (a[0].start == b[0].start ==> a[0].end <= b[0].end)
  {
    assert a[0].Has(a[0].start) && Covers(a, a[0].start);
    assert !Covers(b, b[0].end);
    assert !a[0].Has(b[0].end);
  }

  lemma {:induction false} TailCoverage(a: seq<Span>)
    requires a != [] && Separated(a, 0)
    ensures forall p :: Covers(a[1..], p) <==> Covers(a, p) && !a[0].Has(p)
  {
    forall p ensures Covers(a[1..], p) <==> Covers(a, p) && !a[0].Has(p) {
      if Covers(a[1..], p) {
        var i :| 0 <= i < |a[1..]| && a[1..][i].Has(p);
        assert a[i + 1].Has(p);
      }
      if Covers(a, p) && !a[0].Has(p) {
        var i :| 0 <= i < |a| && a[i].Has(p);
        assert a[1..][i - 1].Has(p);
      }
    }
  }

  /** `_merge_spans`: the loop that keeps the last merged span growing. */
  method MergeSpans(spans: seq<Span>) returns (merged: seq<Span>)
    ensures merged == MergedSpans(spans)
  {
    merged := [];
    var sorted := SortBy(Before, spans);
    for i := 0 to |sorted|
      invariant merged == MergeAll(sorted[..i], 0)
    {
      var s := sorted[i];
      assert sorted[..i + 1][..i] == sorted[..i];
      if |merged| > 0 && s.start < merged[|merged| - 1].end {
        var last := merged[|merged| - 1];
        merged := merged[|merged| - 1 := Span(last.start, if last.end < s.end then s.end else last.end)];
      } else {
        merged := merged + [s];
      }
    }
    assert sorted[..|sorted|] == sorted;
  }

  /** `_merge_touching`: the same loop over ranges that already come in order. */
  method MergeTouching(ranges: seq<Span>) returns (merged: seq<Span>)
    ensures merged == MergeAll(ranges, 1)
  {
    merged := [];
    for i := 0 to |ranges|
      invariant merged == MergeAll(ranges[..i], 1)
    {
      var s := ranges[i];
      assert ranges[..i + 1][..i] == ranges[..i];
      if |merged| > 0 && s.start <= merged[|merged| - 1].end {
        var last := merged[|merged| - 1];
        merged := merged[|merged| - 1 := Span(last.start, if last.end < s.end then s.end else last.end)];
      } else {
        merged := merged + [s];
      }
    }
    assert ranges[..|ranges|] == ranges;
  }
}
