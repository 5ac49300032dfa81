/** Where a rewrite put text of its own: whole copies of a mark, one for each replaced range and in its place. */
module Markers {
  import opened Spans
  import opened Provenance

  ghost predicate InWindow(ws: seq<nat>, size: nat, p: int) { exists i :: 0 <= i < |ws| && ws[i] <= p < ws[i] + size }

  ghost predicate Copies<T>(out: seq<T>, mark: seq<T>, ws: seq<nat>) {
    forall i | 0 <= i < |ws| :: ws[i] + |mark| <= |out| && out[ws[i]..ws[i] + |mark|] == mark
  }

  ghost predicate Spaced(ws: seq<nat>, size: nat) { forall i, j | 0 <= i < j < |ws| :: ws[i] + size <= ws[j] }

  ghost predicate Signs(m: Origins, ws: seq<nat>, size: nat) {
    forall p | 0 <= p < |m| :: m[p] < 0 <==> InWindow(ws, size, p)
  }

  /** Everything without an origin, and nothing else, lies in disjoint whole copies of the mark, which start at `ws`. */
  ghost predicate Windows<T>(out: seq<T>, m: Origins, mark: seq<T>, ws: seq<nat>) {
    |m| == |out| && Copies(out, mark, ws) && Spaced(ws, |mark|) && Signs(m, ws, |mark|)
  }

  /** The copy number `i` stands where the range number `i` was. */
  ghost predicate Placed(m: Origins, cuts: seq<Span>, ws: seq<nat>) {
    && |ws| == |cuts|
    && forall i, p | 0 <= i < |ws| && 0 <= p < |m| && 0 <= m[p] ::
         if p < ws[i] then m[p] < cuts[i].start else cuts[i].end <= m[p]
  }

  ghost function Shift(ws: seq<nat>, d: nat): seq<nat> { seq(|ws|, i requires 0 <= i < |ws| => ws[i] + d) }

  lemma {:induction false} ShiftedWindow(ws: seq<nat>, size: nat, d: nat, first: nat, p: int)
    ensures InWindow([first] + Shift(ws, d), size, p) <==> first <= p < first + size || InWindow(ws, size, p - d)
  {
    var all := [first] + Shift(ws, d);
    if first <= p < first + size { assert all[0] <= p < all[0] + size; }
    if InWindow(ws, size, p - d) {
      var i :| 0 <= i < |ws| && ws[i] <= p - d < ws[i] + size;
      assert all[i + 1] <= p < all[i + 1] + size;
    }
    if InWindow(all, size, p) {
      var i :| 0 <= i < |all| && all[i] <= p < all[i] + size;
      if i > 0 { assert ws[i - 1] <= p - d < ws[i - 1] + size; }
    }
  }

  lemma {:induction false} CopyAt<T>(head: seq<T>, mark: seq<T>, rest: seq<T>, w: nat)
    requires w + |mark| <= |rest| && rest[w..w + |mark|] == mark
    ensures var out, at := head + mark + rest, w + |head| + |mark|; at + |mark| <= |out| && out[at..at + |mark|] == mark
  {
    var out, at := head + mark + rest, w + |head| + |mark|;
    assert out[at..at + |mark|] == rest[w..w + |mark|];
  }

  lemma {:induction false} CopiesCons<T>(head: seq<T>, mark: seq<T>, rest: seq<T>, ws: seq<nat>)
    requires Copies(rest, mark, ws)
    ensures Copies(head + mark + rest, mark, [|head|] + Shift(ws, |head| + |mark|))
  {
    var out, all := head + mark + rest, [|head|] + Shift(ws, |head| + |mark|);
    assert out[|head|..|head| + |mark|] == mark;
    forall i | 0 <= i < |all| ensures all[i] + |mark| <= |out| && out[all[i]..all[i] + |mark|] == mark {
      if i > 0 { CopyAt(head, mark, rest, ws[i - 1]); }
    }
  }

  lemma {:induction false} SpacedCons(ws: seq<nat>, size: nat, first: nat)
    requires Spaced(ws, size)
    ensures Spaced([first] + Shift(ws, first + size), size)
  {
  }

  lemma {:induction false} SignsCons(hm: Origins, size: nat, rm: Origins, ws: seq<nat>)
    requires Signs(rm, ws, size) && forall q | 0 <= q < |hm| :: 0 <= hm[q]
    ensures Signs(hm + Inserted(size) + rm, [|hm|] + Shift(ws, |hm| + size), size)
  {
    var m, d := hm + Inserted(size) + rm, |hm| + size;
    forall p | 0 <= p < |m| ensures m[p] < 0 <==> InWindow([|hm|] + Shift(ws, d), size, p) {
      ShiftedWindow(ws, size, d, |hm|, p);
      if p >= d {
        assert m[p] == rm[p - d];
      } else {
        assert !InWindow(ws, size, p - d);
      }
    }
  }

  lemma {:induction false} WindowsCons<T>(head: seq<T>, hm: Origins, mark: seq<T>, rest: seq<T>, rm: Origins,
                                          ws: seq<nat>)
    requires Windows(rest, rm, mark, ws) && |hm| == |head| && forall p | 0 <= p < |hm| :: 0 <= hm[p]
    ensures Windows(head + mark + rest, hm + Inserted(|mark|) + rm, mark, [|head|] + Shift(ws, |head| + |mark|))
  {
    CopiesCons(head, mark, rest, ws);
    SpacedCons(ws, |mark|, |head|);
    SignsCons(hm, |mark|, rm, ws);
  }

  lemma {:induction false} PlacedCons(hm: Origins, size: nat, rm: Origins, cuts: seq<Span>, ws: seq<nat>, last: nat)
    requires cuts != [] && Placed(rm, cuts[1..], ws) && Separated(cuts, 0)
    requires forall i | 0 <= i < |cuts| :: cuts[i].start <= cuts[i].end
    requires forall p | 0 <= p < |hm| :: 0 <= hm[p] < cuts[0].start
    requires forall p | 0 <= p < |rm| && 0 <= rm[p] :: cuts[0].end <= rm[p]
    ensures Placed(hm + Inserted(size) + rm, cuts, [|hm|] + Shift(ws, |hm| + size))
  {
    var d := |hm| + size;
    var m, all := hm + Inserted(size) + rm, [|hm|] + Shift(ws, d);
    forall i, p | 0 <= i < |all| && 0 <= p < |m| && 0 <= m[p]
      ensures if p < all[i] then m[p] < cuts[i].start else cuts[i].end <= m[p]
    {
      if p >= d { assert m[p] == rm[p - d]; }
      if i > 0 {
        assert cuts[i] == cuts[1..][i - 1] && all[i] == ws[i - 1] + d;
        assert cuts[0].end <= cuts[i].start;
      }
    }
  }

  /** Replacing ranges inserts one whole copy of the mark for each of them, in its place. */
  lemma {:induction false} SpliceWindows<T>(xs: seq<T>, mark: seq<T>, cuts: seq<Span>, last: nat) returns (ws: seq<nat>)
    requires Cuttable(cuts, last, |xs|)
    ensures Windows(Splice(xs, mark, cuts, last), SpliceMap(|xs|, |mark|, cuts, last), mark, ws)
    ensures Placed(SpliceMap(|xs|, |mark|, cuts, last), cuts, ws)
  {
    if cuts == [] {
      ws := [];
    } else {
      var cut, n := cuts[0], |xs|;
      var tail := SpliceWindows(xs, mark, cuts[1..], cut.end);
      var head, hm := xs[last..cut.start], Iota(n)[last..cut.start];
      var rest, rm := Splice(xs, mark, cuts[1..], cut.end), SpliceMap(n, |mark|, cuts[1..], cut.end);
      WindowsCons(head, hm, mark, rest, rm, tail);
      SpliceEmbeds(xs, mark, cuts[1..], cut.end);
      PlacedCons(hm, |mark|, rm, cuts, tail, last);
      ws := [|head|] + Shift(tail, |head| + |mark|);
    }
  }
}
