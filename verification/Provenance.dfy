/**
 Index maps between a rewritten text and the text it came from. A map holds, for each position of
 the rewritten text, the position it was kept from, or a negative number for an inserted character.
 */
module Provenance {
  import opened Spans

  type Origins = seq<int>

  function Iota(n: nat): Origins { seq(n, i => i) }

  function Inserted(n: nat): Origins { seq(n, _ => -1) }

  ghost predicate Increasing(o: Origins) {
    forall i, j | 0 <= i < j < |o| && 0 <= o[i] && 0 <= o[j] :: o[i] < o[j]
  }

  /** `o` is an order-preserving embedding of the kept part of `to` into `from`. */
  ghost predicate Embeds<T>(from: seq<T>, to: seq<T>, o: Origins) {
    && |o| == |to|
    && (forall i | 0 <= i < |o| && 0 <= o[i] :: o[i] < |from| && to[i] == from[o[i]])
    && Increasing(o)
  }

  ghost predicate Indexes(m: Origins, n: nat) {
    forall i | 0 <= i < |m| :: m[i] < n
  }

  /** The map of two rewrites in a row: first the one mapped by `o`, then the one mapped by `m`. */
  ghost function Compose(m: Origins, o: Origins): (r: Origins)
    requires Indexes(m, |o|)
    ensures |r| == |m|
  {
    seq(|m|, i requires 0 <= i < |m| => if m[i] < 0 then -1 else o[m[i]])
  }

  lemma {:induction false} ComposeEmbeds<T>(a: seq<T>, b: seq<T>, c: seq<T>, o: Origins, m: Origins)
    requires Embeds(a, b, o) && Embeds(b, c, m)
    ensures Indexes(m, |o|) && Embeds(a, c, Compose(m, o))
  {
  }

  lemma {:induction false} ComposeMembers(m: Origins, o: Origins, k: int)
    requires Indexes(m, |o|) && 0 <= k
    ensures k in Compose(m, o) ==> k in o
  {
  }

  /** Where a member of the composed map stood between the two rewrites. */
  lemma {:induction false} ComposedThrough(m: Origins, o: Origins, k: nat) returns (q: nat)
    requires Indexes(m, |o|) && k in Compose(m, o)
    ensures q in m && q < |o| && o[q] == k
  {
    var i :| 0 <= i < |m| && Compose(m, o)[i] == k;
    q := m[i];
  }

  lemma {:induction false} IotaEmbeds<T>(xs: seq<T>)
    ensures Embeds(xs, xs, Iota(|xs|))
  {
  }

  // ----- Replacing cuts with a mark -----

  /** The cuts lie in `last..n`, in order. An empty cut is allowed: it only inserts the mark. */
  ghost predicate Cuttable(cuts: seq<Span>, last: nat, n: nat) {
    && last <= n && Separated(cuts, 0)
    && forall i | 0 <= i < |cuts| :: last <= cuts[i].start <= cuts[i].end <= n
  }

  ghost function Splice<T>(xs: seq<T>, mark: seq<T>, cuts: seq<Span>, last: nat): seq<T>
    requires Cuttable(cuts, last, |xs|)
  {
    if cuts == [] then xs[last..]
    else xs[last..cuts[0].start] + mark + Splice(xs, mark, cuts[1..], cuts[0].end)
  }

  ghost function SpliceMap(n: nat, mark: nat, cuts: seq<Span>, last: nat): Origins
    requires Cuttable(cuts, last, n)
  {
    Splice(Iota(n), Inserted(mark), cuts, last)
  }

  lemma {:induction false} JoinEmbeds<T>(from: seq<T>, a: seq<T>, b: seq<T>, ma: Origins, mb: Origins, limit: int)
    requires Embeds(from, a, ma) && Embeds(from, b, mb)
    requires forall i | 0 <= i < |ma| :: ma[i] < limit
    requires forall i | 0 <= i < |mb| && 0 <= mb[i] :: limit <= mb[i]
    ensures Embeds(from, a + b, ma + mb)
  {
  }

  lemma {:induction false} HeadEmbeds<T>(xs: seq<T>, mark: seq<T>, last: nat, start: nat)
    requires last <= start <= |xs|
    ensures Embeds(xs, xs[last..start] + mark, Iota(|xs|)[last..start] + Inserted(|mark|))
    ensures forall i | 0 <= i < start - last + |mark| :: (Iota(|xs|)[last..start] + Inserted(|mark|))[i] < start
  {
  }

  /** Replacing cuts is an embedding of what is left. */
  lemma {:induction false} SpliceEmbeds<T>(xs: seq<T>, mark: seq<T>, cuts: seq<Span>, last: nat)
    requires Cuttable(cuts, last, |xs|)
    ensures var m := SpliceMap(|xs|, |mark|, cuts, last);
            && Embeds(xs, Splice(xs, mark, cuts, last), m)
            && forall i | 0 <= i < |m| && 0 <= m[i] :: last <= m[i]
  {
    if cuts != [] {
      var n, c, cut := |xs|, |mark|, cuts[0];
      SpliceEmbeds(xs, mark, cuts[1..], cut.end);
      HeadEmbeds(xs, mark, last, cut.start);
      JoinEmbeds(xs, xs[last..cut.start] + mark, Splice(xs, mark, cuts[1..], cut.end),
                 Iota(n)[last..cut.start] + Inserted(c), SpliceMap(n, c, cuts[1..], cut.end), cut.start);
    }
  }

  /** Replacing cuts keeps exactly the positions outside the cuts. */
  lemma {:induction false} SpliceKeeps(n: nat, mark: nat, cuts: seq<Span>, last: nat, k: nat)
    requires Cuttable(cuts, last, n) && last <= k < n
    ensures k in SpliceMap(n, mark, cuts, last) <==> !Covers(cuts, k)
  {
    var m := SpliceMap(n, mark, cuts, last);
    if cuts == [] {
      assert m[k - last] == k;
    } else {
      var cut := cuts[0];
      var head, tail := Iota(n)[last..cut.start], SpliceMap(n, mark, cuts[1..], cut.end);
      assert k in m <==> k in head || k in tail;
      TailCoverage(cuts);
      if k < cut.start {
        assert head[k - last] == k;
      } else if k < cut.end {
        assert cuts[0].Has(k);
        SpliceEmbeds(Iota(n), Inserted(mark), cuts[1..], cut.end);
      } else {
        SpliceKeeps(n, mark, cuts[1..], cut.end, k);
      }
    }
  }

  lemma {:induction false} SpliceCompose(o: Origins, mark: nat, cuts: seq<Span>, last: nat)
    requires Cuttable(cuts, last, |o|)
    requires forall i | 0 <= i < |o| && o[i] < 0 :: o[i] == -1
    ensures Indexes(SpliceMap(|o|, mark, cuts, last), |o|)
    ensures Splice(o, Inserted(mark), cuts, last) == Compose(SpliceMap(|o|, mark, cuts, last), o)
  {
    if cuts != [] {
      SpliceCompose(o, mark, cuts[1..], cuts[0].end);
    }
  }

  // ----- Bounding -----

  ghost function CommonPrefix<T>(a: seq<T>, b: seq<T>): (k: nat)
    ensures k <= |a| && k <= |b|
  {
    if a == [] || b == [] || a[0] != b[0] then 0 else 1 + CommonPrefix(a[1..], b[1..])
  }

  /** The common prefix is the longest one: a prefix length agrees exactly when it is no longer. */
  lemma {:induction false} CommonPrefixLongest<T>(a: seq<T>, b: seq<T>, k: nat)
    requires k <= |a| && k <= |b|
    ensures a[..k] == b[..k] <==> k <= CommonPrefix(a, b)
  {
    if k > 0 {
      assert a[..k] == [a[0]] + a[1..][..k - 1];
      assert b[..k] == [b[0]] + b[1..][..k - 1];
      CommonPrefixLongest(a[1..], b[1..], k - 1);
      assert a[..k] == b[..k] <==> a[0] == b[0] && a[1..][..k - 1] == b[1..][..k - 1];
    }
  }

  ghost function BoundMap<T>(text: seq<T>, bounded: seq<T>): Origins {
    if bounded == text then Iota(|text|)
    else var k := CommonPrefix(text, bounded); Iota(k) + Inserted(|bounded| - k)
  }

  lemma {:induction false} BoundMapEmbeds<T>(text: seq<T>, bounded: seq<T>)
    ensures Embeds(text, bounded, BoundMap(text, bounded))
  {
    var k := CommonPrefix(text, bounded);
    CommonPrefixLongest(text, bounded, k);
    assert forall i | 0 <= i < k :: bounded[i] == bounded[..k][i] == text[..k][i] == text[i];
  }
}
