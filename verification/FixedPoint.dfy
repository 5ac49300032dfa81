/** Repeating a step until it changes nothing, within a bounded number of passes. */
module FixedPoint {

  datatype Option<+T> = None | Some(value: T)

  ghost function Iterate<T>(step: T -> T, x: T, k: nat): T {
    if k == 0 then x else step(Iterate(step, x, k - 1))
  }

  ghost predicate StableAt<T>(step: T -> T, x: T, k: nat) {
    step(Iterate(step, x, k)) == Iterate(step, x, k)
  }

  /** The first pass, from pass `k` on, that changes nothing; none when the passes run out. */
  ghost function SettledFrom<T>(step: T -> T, x: T, passes: nat, k: nat): Option<nat>
    requires k <= passes
    decreases passes - k
  {
    if k == passes then None
    else if StableAt(step, x, k) then Some(k)
    else SettledFrom(step, x, passes, k + 1)
  }

  ghost function Settled<T>(step: T -> T, x: T, passes: nat): Option<nat> {
    SettledFrom(step, x, passes, 0)
  }

  lemma {:induction false} SettledFromFirst<T>(step: T -> T, x: T, passes: nat, k: nat)
    requires k <= passes
    ensures var r := SettledFrom(step, x, passes, k);
            && (r.Some? ==> k <= r.value < passes && StableAt(step, x, r.value))
            && (forall i | k <= i < passes && StableAt(step, x, i) :: r.Some? && r.value <= i)
    decreases passes - k
  {
    if k < passes && !StableAt(step, x, k) {
      SettledFromFirst(step, x, passes, k + 1);
    }
  }

  /** The search finds the first stable pass, and it finds one exactly when there is one. */
  lemma {:induction false} SettledFirst<T>(step: T -> T, x: T, passes: nat)
    ensures var r := Settled(step, x, passes);
            && (r.Some? ==> r.value < passes && StableAt(step, x, r.value))
            && (r.Some? ==> step(Iterate(step, x, r.value)) == Iterate(step, x, r.value))
            && (r.None? <==> forall i | 0 <= i < passes :: !StableAt(step, x, i))
            && (r.Some? ==> forall i | 0 <= i < r.value :: !StableAt(step, x, i))
  {
    SettledFromFirst(step, x, passes, 0);
  }

  /** A step that changes nothing after the first time settles there. */
  lemma {:induction false} SettlesAfterOne<T>(step: T -> T, x: T, y: T, passes: nat)
    requires step(x) == y && step(y) == y && 2 <= passes
    ensures Settled(step, x, passes).Some? && Iterate(step, x, Settled(step, x, passes).value) == y
  {
    assert Iterate(step, x, 0) == x && Iterate(step, x, 1) == y;
    assert StableAt(step, x, 1);
    SettledFirst(step, x, passes);
  }

  lemma {:induction false} SettledExactly<T>(step: T -> T, x: T, passes: nat, k: nat)
    ensures Settled(step, x, passes) == Some(k) <==>
            k < passes && StableAt(step, x, k) && forall i | 0 <= i < k :: !StableAt(step, x, i)
  {
    SettledFirst(step, x, passes);
  }
}
