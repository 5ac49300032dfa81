/** The closed result objects of the protected procedures: fixed names, typed values, exclusive states. */
module ClosedResult {
  import opened Json
  import opened Ordering
  import opened CredentialReference

  /** What a result schema says about one property. */
  datatype Check =
    | Anything
    | Is(value: Json)
    | Word(words: set<string>)
    | Truth(orNull: bool)
    | Count(max: int, orNull: bool)
    | Hex(digits: nat, orNull: bool, newline: bool)

  predicate IsHex(s: string) { forall i | 0 <= i < |s| :: IsLowerHex(s[i]) }

  /** A JSON Schema integer of at least one: a float without fraction counts, a boolean does not. */
  predicate IsCount(v: Json, max: int) {
    || (v.Int? && 1 <= v.n <= max)
    || (v.Float? && v.r.Floor as real == v.r && 1 <= v.r.Floor <= max)
  }

  /** A pattern that ends in a dollar sign also accepts one newline after the digits. */
  predicate Meets(c: Check, v: Json) {
    match c
    case Anything => true
    case Is(value) => v == value
    case Word(words) => v.Str? && v.s in words
    case Truth(orNull) => v.Bool? || (orNull && v.Null?)
    case Count(max, orNull) => IsCount(v, max) || (orNull && v.Null?)
    case Hex(digits, orNull, newline) =>
      || (v.Str? && |v.s| == digits && IsHex(v.s))
      || (newline && v.Str? && |v.s| == digits + 1 && IsHex(v.s[..digits]) && v.s[digits] == '\n')
      || (orNull && v.Null?)
  }

  /** The values of one object in the order of the declared names. */
  type Row = seq<Json>

  predicate MeetsAll(checks: seq<Check>, row: Row) {
    |checks| == |row| && forall i | 0 <= i < |row| :: Meets(checks[i], row[i])
  }

  /** `names` are required and typed by `checks`; `fixed` holds constant properties; `states` is the `oneOf`. */
  datatype Schema = Schema(names: seq<string>, checks: seq<Check>, states: seq<seq<Check>>, fixed: map<string, Json>) {
    ghost predicate WellFormed() {
      && Distinct(names) && |checks| == |names|
      && (forall k | k in states :: |k| == |names|)
      && fixed.Keys !! Elements(names)
    }
  }

  function RowOf(names: seq<string>, v: Json): Row {
    seq(|names|, i requires 0 <= i < |names| => v.Get(names[i]))
  }

  /** Exactly one alternative holds. */
  ghost predicate InOneState(states: seq<seq<Check>>, row: Row) {
    exists i ::
      && 0 <= i < |states| && IsState(states, i, row)
      && forall j | 0 <= j < |states| && j != i :: !IsState(states, j, row)
  }

  predicate IsState(states: seq<seq<Check>>, i: nat, row: Row)
    requires i < |states|
  {
    MeetsAll(states[i], row)
  }

  ghost predicate Valid(s: Schema, v: Json) {
    && v.Obj? && v.fields.Keys == Elements(s.names) + s.fixed.Keys
    && MeetsAll(s.checks, RowOf(s.names, v))
    && (forall k | k in s.fixed :: v.Get(k) == s.fixed[k])
    && InOneState(s.states, RowOf(s.names, v))
  }

  /** What the caller of an exchange gets: the two-key mapping of the closed envelope. */
  datatype Closed = Closed(ok: bool, result: Json)

  /** A schema-valid result whose own flag is the outcome's. */
  ghost predicate IsClosed(s: Schema, o: Closed) {
    Valid(s, o.result) && o.result.Get("ok") == Bool(o.ok)
  }

  // ----- Objects built from a row -----

  function Zip(names: seq<string>, row: Row): map<string, Json>
    requires |names| == |row|
  {
    if names == [] then map[] else Zip(names[1..], row[1..])[names[0] := row[0]]
  }

  function Build(s: Schema, row: Row): Json
    requires |s.names| == |row|
  {
    Obj(Zip(s.names, row) + s.fixed)
  }

  lemma {:induction false} ZipKeys(names: seq<string>, row: Row)
    requires |names| == |row|
    ensures Zip(names, row).Keys == Elements(names)
  {
    if names != [] {
      ZipKeys(names[1..], row[1..]);
      assert names == [names[0]] + names[1..];
    }
  }

  lemma {:induction false} ZipAt(names: seq<string>, row: Row, i: nat)
    requires |names| == |row| && Distinct(names) && i < |names|
    ensures names[i] in Zip(names, row) && Zip(names, row)[names[i]] == row[i]
  {
    if i > 0 {
      ZipAt(names[1..], row[1..], i - 1);
    }
  }

  /** A row that meets the checks and is in one state makes a valid object, and reading it back gives the row. */
  lemma {:induction false} BuiltIsValid(s: Schema, row: Row)
    requires s.WellFormed() && MeetsAll(s.checks, row) && InOneState(s.states, row)
    ensures Valid(s, Build(s, row)) && RowOf(s.names, Build(s, row)) == row
  {
    var v := Build(s, row);
    ZipKeys(s.names, row);
    forall i | 0 <= i < |row| ensures v.Get(s.names[i]) == row[i] {
      ZipAt(s.names, row, i);
      assert s.names[i] in Elements(s.names);
    }
    assert RowOf(s.names, v) == row;
  }

  // ----- Exclusive states -----

  /** Two checks that no value meets together. */
  predicate Clash(a: Check, b: Check) {
    a.Is? && b.Is? && a.value != b.value
  }

  /** Every two states clash at some property, so a row is in at most one. */
  ghost predicate Exclusive(states: seq<seq<Check>>) {
    forall i, j | 0 <= i < j < |states| :: Separate(states[i], states[j])
  }

  ghost predicate Separate(a: seq<Check>, b: seq<Check>) {
    exists k :: 0 <= k < |a| && k < |b| && Clash(a[k], b[k])
  }

  lemma {:induction false} SeparateStates(a: seq<Check>, b: seq<Check>, row: Row)
    requires Separate(a, b)
    ensures !(MeetsAll(a, row) && MeetsAll(b, row))
  {
  }

  lemma {:induction false} OnlyState(states: seq<seq<Check>>, i: nat, row: Row)
    requires Exclusive(states) && i < |states| && IsState(states, i, row)
    ensures InOneState(states, row)
    ensures forall j | 0 <= j < |states| && j != i :: !IsState(states, j, row)
  {
    forall j | 0 <= j < |states| && j != i ensures !IsState(states, j, row) {
      if j < i { SeparateStates(states[j], states[i], row); } else { SeparateStates(states[i], states[j], row); }
    }
  }
}
