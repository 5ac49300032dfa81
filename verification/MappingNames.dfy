/** Names under which the ledger persists mapping entries: a placeholder hides a secret-bearing name. */
module MappingNames {
  import opened Ordering

  const PLACEHOLDER_PREFIX := "[REDACTED-NAME:"

  // ----- Candidates for one name -----

  function Digit(d: nat): char
    requires d < 10
  {
    "0123456789"[d]
  }

  function Decimal(n: nat): (s: string)
    ensures s != "" && forall i | 0 <= i < |s| :: '0' <= s[i] <= '9'
  {
    if n < 10 then [Digit(n)] else Decimal(n / 10) + [Digit(n % 10)]
  }

  lemma {:induction false} DecimalInjective(m: nat, n: nat)
    requires Decimal(m) == Decimal(n)
    ensures m == n
  {
    var a, b := Decimal(m), Decimal(n);
    assert a[|a| - 1] == Digit(m % 10) && b[|b| - 1] == Digit(n % 10);
    if m >= 10 && n >= 10 {
      assert a[..|a| - 1] == Decimal(m / 10) && b[..|b| - 1] == Decimal(n / 10);
      DecimalInjective(m / 10, n / 10);
    }
  }

  function Placeholder(digest: string -> string, name: string): string {
    PLACEHOLDER_PREFIX + digest(name) + "]"
  }

  /** Names with different digests have different placeholders. */
  lemma {:induction false} PlaceholdersDiffer(digest: string -> string, a: string, b: string)
    requires digest(a) != digest(b)
    ensures Placeholder(digest, a) != Placeholder(digest, b)
  {
    var n := |PLACEHOLDER_PREFIX|;
    var p, q := Placeholder(digest, a), Placeholder(digest, b);
    assert p[n..|p| - 1] == digest(a) && q[n..|q| - 1] == digest(b);
  }

  /** The candidates in the order they are tried, from suffix 1 on. */
  function Candidate(placeholder: string, suffix: nat): string {
    if suffix <= 1 then placeholder else placeholder + "#" + Decimal(suffix)
  }

  lemma {:induction false} CandidatesDiffer(placeholder: string, i: nat, j: nat)
    requires 1 <= i < j
    ensures Candidate(placeholder, i) != Candidate(placeholder, j)
  {
    var c := Candidate(placeholder, j);
    assert c[|placeholder|..] == "#" + Decimal(j);
    if i > 1 {
      var b := Candidate(placeholder, i);
      assert b[|placeholder|..] == "#" + Decimal(i);
      assert ("#" + Decimal(i))[1..] == Decimal(i) && ("#" + Decimal(j))[1..] == Decimal(j);
      if Decimal(i) == Decimal(j) { DecimalInjective(i, j); }
    }
  }

  /** The suffix of the first unused candidate, from `suffix` on. */
  function FirstFree(placeholder: string, taken: set<string>, suffix: nat): (k: nat)
    requires 1 <= suffix
    ensures suffix <= k
    decreases |taken|
  {
    var c := Candidate(placeholder, suffix);
    if c in taken then
      assert |taken - {c}| < |taken|;
      FirstFree(placeholder, taken - {c}, suffix + 1)
    else suffix
  }

  /** The first unused candidate: it is free, all before it are taken, and the search is short. */
  lemma {:induction false} FirstFreeIsFirst(placeholder: string, taken: set<string>, suffix: nat)
    requires 1 <= suffix
    ensures var k := FirstFree(placeholder, taken, suffix);
            && Candidate(placeholder, k) !in taken
            && k - suffix <= |taken|
            && forall i | suffix <= i < k :: Candidate(placeholder, i) in taken
    decreases |taken|
  {
    var c := Candidate(placeholder, suffix);
    if c in taken {
      assert |taken - {c}| == |taken| - 1;
      FirstFreeIsFirst(placeholder, taken - {c}, suffix + 1);
      CandidatesDiffer(placeholder, suffix, FirstFree(placeholder, taken, suffix));
    }
  }

  /** `_unused_placeholder`: at most one turn per taken name, whatever the digest gives. */
  method UnusedPlaceholder(digest: string -> string, name: string, taken: set<string>) returns (candidate: string)
    ensures candidate !in taken
    ensures candidate == Candidate(Placeholder(digest, name), FirstFree(Placeholder(digest, name), taken, 1))
  {
    var placeholder := Placeholder(digest, name);
    candidate := placeholder;
    var suffix: nat := 1;
    FirstFreeIsFirst(placeholder, taken, 1);
    while candidate in taken
      invariant 1 <= suffix <= FirstFree(placeholder, taken, 1) && candidate == Candidate(placeholder, suffix)
      decreases FirstFree(placeholder, taken, 1) - suffix
    {
      suffix := suffix + 1;
      candidate := placeholder + "#" + Decimal(suffix);
    }
  }

  // ----- All names of a mapping -----

  /** The order of strings by their characters. */
  predicate StringBefore(a: string, b: string) {
    if a == "" then true else if b == "" then false
    else a[0] < b[0] || (a[0] == b[0] && StringBefore(a[1..], b[1..]))
  }

  lemma {:induction false} StringOrderTotal(a: string, b: string)
    ensures StringBefore(a, b) || StringBefore(b, a)
  {
    if a != "" && b != "" && a[0] == b[0] {
      StringOrderTotal(a[1..], b[1..]);
    }
  }

  lemma {:induction false} StringOrderTransitive(a: string, b: string, c: string)
    requires StringBefore(a, b) && StringBefore(b, c)
    ensures StringBefore(a, c)
  {
    if a != "" && a[0] == b[0] && b[0] == c[0] {
      StringOrderTransitive(a[1..], b[1..], c[1..]);
    }
  }

  lemma {:induction false} StringOrder()
    ensures TotalPreorder(StringBefore)
  {
    forall a, b ensures StringBefore(a, b) || StringBefore(b, a) { StringOrderTotal(a, b); }
    forall a, b, c | StringBefore(a, b) && StringBefore(b, c) ensures StringBefore(a, c) {
      StringOrderTransitive(a, b, c);
    }
  }

  function PersistFrom(digest: string -> string, secret: string -> bool, names: seq<string>, taken: set<string>)
    : (r: seq<string>)
    ensures |r| == |names|
  {
    if names == [] then []
    else if secret(names[0]) then
      var placeholder := Placeholder(digest, names[0]);
      var c := Candidate(placeholder, FirstFree(placeholder, taken, 1));
      [c] + PersistFrom(digest, secret, names[1..], taken + {c})
    else [names[0]] + PersistFrom(digest, secret, names[1..], taken)
  }

  /** The persisted name of each name, in the order of `names`. */
  function Persisted(digest: string -> string, secret: string -> bool, names: seq<string>): (r: seq<string>)
    ensures |r| == |names|
  {
    PersistFrom(digest, secret, names, set n | n in names && !secret(n))
  }

  lemma {:induction false} PersistStep(digest: string -> string, secret: string -> bool, names: seq<string>, i: nat,
                                       taken: set<string>)
    requires i < |names|
    ensures PersistFrom(digest, secret, names[i..], taken) ==
            if secret(names[i]) then
              var placeholder := Placeholder(digest, names[i]);
              var c := Candidate(placeholder, FirstFree(placeholder, taken, 1));
              [c] + PersistFrom(digest, secret, names[i + 1..], taken + {c})
            else [names[i]] + PersistFrom(digest, secret, names[i + 1..], taken)
  {
    assert names[i..][0] == names[i] && names[i..][1..] == names[i + 1..];
  }

  /** The loop of `_persisted_mapping_entries`, over names in order. */
  method ResolveNames(digest: string -> string, secret: string -> bool, names: seq<string>, plain: set<string>)
    returns (resolved: seq<string>)
    ensures resolved == PersistFrom(digest, secret, names, plain)
  {
    var taken := plain;
    resolved := [];
    ghost var all := PersistFrom(digest, secret, names, plain);
    assert names[0..] == names;
    for i := 0 to |names|
      invariant all == resolved + PersistFrom(digest, secret, names[i..], taken)
    {
      var persisted, before := names[i], taken;
      if secret(names[i]) {
        persisted := UnusedPlaceholder(digest, names[i], taken);
        taken := taken + {persisted};
      }
      ResolveStep(digest, secret, names, i, before, persisted, resolved);
      resolved := resolved + [persisted];
    }
  }

  lemma {:induction false} ResolveStep(digest: string -> string, secret: string -> bool, names: seq<string>, i: nat,
                                       taken: set<string>, persisted: string, resolved: seq<string>)
    requires i < |names|
    requires persisted == if secret(names[i])
                          then Candidate(Placeholder(digest, names[i]),
                                         FirstFree(Placeholder(digest, names[i]), taken, 1))
                          else names[i]
    ensures var after := if secret(names[i]) then taken + {persisted} else taken;
            resolved + PersistFrom(digest, secret, names[i..], taken)
            == (resolved + [persisted]) + PersistFrom(digest, secret, names[i + 1..], after)
  {
    PersistStep(digest, secret, names, i, taken);
  }

  lemma {:induction false} SortedNames(secret: string -> bool, names: seq<string>)
    ensures var ordered := SortBy(StringBefore, names);
            && SortedBy(StringBefore, ordered)
            && (set n | n in ordered && !secret(n)) == (set n | n in names && !secret(n))
  {
    StringOrder();
    SortSorted(StringBefore, names);
    forall n ensures n in SortBy(StringBefore, names) <==> n in names { SortMembers(StringBefore, names, n); }
  }

  /** `_persisted_mapping_entries`: the names in order, and what each is persisted as. */
  method PersistedNames(digest: string -> string, secret: string -> bool, names: seq<string>)
    returns (ordered: seq<string>, resolved: seq<string>)
    ensures multiset(ordered) == multiset(names) && SortedBy(StringBefore, ordered)
    ensures ordered == SortBy(StringBefore, names) && resolved == Persisted(digest, secret, ordered)
  {
    var plain := set n | n in names && !secret(n);
    ordered := SortBy(StringBefore, names);
    SortedNames(secret, names);
    resolved := ResolveNames(digest, secret, ordered, plain);
  }

  /** A candidate for the placeholder of this very name. */
  ghost predicate IsPlaceholderOf(digest: string -> string, name: string, p: string) {
    exists k: nat :: p == Candidate(Placeholder(digest, name), k)
  }

  ghost predicate IsPlaceholder(digest: string -> string, p: string) {
    exists name: string, k: nat :: p == Candidate(Placeholder(digest, name), k)
  }

  lemma {:induction false} PersistFromFacts(digest: string -> string, secret: string -> bool, names: seq<string>,
                                            taken: set<string>)
    requires Distinct(names)
    requires forall n | n in names && !secret(n) :: n in taken
    ensures var r := PersistFrom(digest, secret, names, taken);
            && Distinct(r)
            && (forall i | 0 <= i < |r| && !secret(names[i]) :: r[i] == names[i])
            && (forall i | 0 <= i < |r| && secret(names[i]) ::
                  r[i] !in taken && IsPlaceholder(digest, r[i]) && IsPlaceholderOf(digest, names[i], r[i]))
  {
    if names != [] {
      var tail := names[1..];
      var placeholder := Placeholder(digest, names[0]);
      var c := Candidate(placeholder, FirstFree(placeholder, taken, 1));
      var taken' := if secret(names[0]) then taken + {c} else taken;
      FirstFreeIsFirst(placeholder, taken, 1);
      PersistFromFacts(digest, secret, tail, taken');
      var r, rest := PersistFrom(digest, secret, names, taken), PersistFrom(digest, secret, tail, taken');
      assert r[1..] == rest;
      forall i | 0 <= i < |rest| ensures rest[i] != r[0] {
        assert tail[i] == names[i + 1];
      }
      forall i | 0 < i < |r| ensures r[i] == rest[i - 1] && names[i] == tail[i - 1] {
      }
    }
  }

  /** The first candidate of the name's placeholder that is not used. */
  ghost predicate IsFirstUnused(digest: string -> string, name: string, used: set<string>, p: string) {
    var placeholder := Placeholder(digest, name);
    exists k: nat ::
      && 1 <= k && p == Candidate(placeholder, k) && p !in used
      && forall j: nat | 1 <= j < k :: Candidate(placeholder, j) in used
  }

  lemma {:induction false} FirstUnused(digest: string -> string, name: string, used: set<string>)
    ensures var placeholder := Placeholder(digest, name);
            IsFirstUnused(digest, name, used, Candidate(placeholder, FirstFree(placeholder, used, 1)))
  {
    FirstFreeIsFirst(Placeholder(digest, name), used, 1);
  }

  /** The placeholders that the secret-bearing names before position `i` got. */
  ghost function Earlier(secret: string -> bool, names: seq<string>, r: seq<string>, i: nat): set<string>
    requires i <= |names| == |r|
  {
    set j | 0 <= j < i && secret(names[j]) :: r[j]
  }

  lemma {:induction false} EarlierStep(secret: string -> bool, names: seq<string>, r: seq<string>, i: nat)
    requires 0 < i <= |names| == |r|
    ensures Earlier(secret, names, r, i)
            == (if secret(names[0]) then {r[0]} else {}) + Earlier(secret, names[1..], r[1..], i - 1)
  {
    var tail, rest := names[1..], r[1..];
    forall p | p in Earlier(secret, names, r, i)
      ensures p in (if secret(names[0]) then {r[0]} else {}) + Earlier(secret, tail, rest, i - 1)
    {
      var j :| 0 <= j < i && secret(names[j]) && r[j] == p;
      if j > 0 { assert tail[j - 1] == names[j] && rest[j - 1] == p; }
    }
    forall p | p in Earlier(secret, tail, rest, i - 1) ensures p in Earlier(secret, names, r, i) {
      var j :| 0 <= j < i - 1 && secret(tail[j]) && rest[j] == p;
      assert names[j + 1] == tail[j] && r[j + 1] == p;
    }
  }

  lemma {:induction false} PersistFromExactly(digest: string -> string, secret: string -> bool, names: seq<string>,
                                              taken: set<string>, i: nat)
    requires i < |names| && secret(names[i])
    ensures var r := PersistFrom(digest, secret, names, taken);
            IsFirstUnused(digest, names[i], taken + Earlier(secret, names, r, i), r[i])
  {
    var r, tail := PersistFrom(digest, secret, names, taken), names[1..];
    var taken' := if secret(names[0]) then taken + {r[0]} else taken;
    assert r[1..] == PersistFrom(digest, secret, tail, taken');
    if i == 0 {
      assert taken + Earlier(secret, names, r, 0) == taken;
      FirstUnused(digest, names[0], taken);
    } else {
      PersistFromExactly(digest, secret, tail, taken', i - 1);
      EarlierStep(secret, names, r, i);
      assert taken + Earlier(secret, names, r, i) == taken' + Earlier(secret, tail, r[1..], i - 1);
    }
  }

  /**
   Each secret-bearing name gets the first candidate of its own placeholder that no plain name of the mapping
   and no earlier placeholder uses.
   */
  lemma {:induction false} PersistedExactly(digest: string -> string, secret: string -> bool, names: seq<string>,
                                            i: nat)
    requires i < |names| && secret(names[i])
    ensures var r := Persisted(digest, secret, names);
            IsFirstUnused(digest, names[i],
                          (set n | n in names && !secret(n)) + Earlier(secret, names, r, i), r[i])
  {
    PersistFromExactly(digest, secret, names, (set n | n in names && !secret(n)), i);
  }

  /** Distinct names stay distinct for every digest, non-secret ones as written, the others behind placeholders. */
  lemma {:induction false} PersistedInjective(digest: string -> string, secret: string -> bool, names: seq<string>)
    requires Distinct(names)
    ensures var r := Persisted(digest, secret, names);
            && Distinct(r)
            && (forall i | 0 <= i < |r| && !secret(names[i]) :: r[i] == names[i])
            && (forall i | 0 <= i < |r| && secret(names[i]) ::
                  && IsPlaceholder(digest, r[i]) && IsPlaceholderOf(digest, names[i], r[i])
                  && forall j | 0 <= j < |names| && !secret(names[j]) :: r[i] != names[j])
  {
    PersistFromFacts(digest, secret, names, set n | n in names && !secret(n));
  }
}
