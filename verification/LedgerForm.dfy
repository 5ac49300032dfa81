/**
 The form in which the ledger stores a JSON value: redacted, bounded in size and depth, with
 secret-bearing names replaced. The leaf text redactor is left open.
 */
module LedgerForm {
  import opened EventLimits
  import opened FixedPoint
  import opened Ordering
  import opened Json
  import opened MappingNames

  const MAX_LIST: nat := 50
  const MAX_DICT: nat := 100
  const MAX_DEPTH: nat := 32
  const TRUNCATED := "_truncated"
  const CUT_OFF := "[truncated]"

  // ----- Redaction of a value -----

  /**
   What the ledger form is built from: the leaf redactor, the checks on names, keys and vaulted references, the
   digest, the public credential metadata, and the string limits by path.
   */
  datatype Rules = Rules(
    text: (nat, string) -> string,
    secret: string -> bool,
    digest: string -> string,
    sensitive: string -> bool,
    policy: string -> bool,
    public: (Json, string) -> Option<Json>,
    vaulted: string -> bool,
    limits: map<Path, nat>)
  {
    function Limit(path: Path): nat { if path in limits then limits[path] else MAX_STRING }

    /** The limits that some path has. */
    predicate Yields(l: nat) { l == MAX_STRING || l in limits.Values }
  }

  /** The insertion order of each mapping. */
  type Order = map<string, Json> -> seq<string>

  ghost predicate Lists(order: Order) {
    forall m: map<string, Json> :: Distinct(order(m)) && Elements(order(m)) == m.Keys
  }

  /** `_is_truncation_marker`. */
  predicate IsListMarker(v: Json) {
    && v.Obj? && v.fields.Keys == {TRUNCATED, "remaining"}
    && v.fields[TRUNCATED] == Bool(true) && v.fields["remaining"].Int?
  }

  predicate IsBoundedMapping(fields: map<string, Json>) {
    |fields| == MAX_DICT + 1 && TRUNCATED in fields && fields[TRUNCATED] == Bool(true)
  }

  predicate IsBoundedList(items: seq<Json>) {
    |items| == MAX_LIST + 1 && IsListMarker(items[MAX_LIST])
  }

  function Without(names: seq<string>, x: string): seq<string> {
    if names == [] then [] else (if names[0] == x then [] else [names[0]]) + Without(names[1..], x)
  }

  function Take(names: seq<string>, n: nat): seq<string> {
    if |names| <= n then names else names[..n]
  }

  /** The entries that `_redact_event_mapping` keeps, in name order. */
  function KeptNames(order: Order, fields: map<string, Json>): (names: seq<string>)
    requires Lists(order)
    ensures forall n | n in names :: n in fields
  {
    var window := if IsBoundedMapping(fields) then Without(order(fields), TRUNCATED) else Take(order(fields), MAX_DICT);
    WithoutFacts(order(fields), TRUNCATED);
    assert forall n | n in window :: n in Elements(order(fields));
    forall n ensures n in SortBy(StringBefore, window) <==> n in window { SortMembers(StringBefore, window, n); }
    SortBy(StringBefore, window)
  }

  function IndexOf(names: seq<string>, x: string): (i: nat)
    requires x in names
    ensures i < |names| && names[i] == x
  {
    if names[0] == x then 0 else 1 + IndexOf(names[1..], x)
  }

  /** `_redact_sensitive_value`. */
  function RedactSensitive(r: Rules, v: Json, key: string): Json {
    if v.Bool? then v
    else if r.public(v, key).Some? then r.public(v, key).value
    else if v.Str? && r.vaulted(v.s) then v
    else Str(MARKER)
  }

  /** `redact_event_value`. */
  function Redact(r: Rules, order: Order, v: Json, key: string, path: Path, depth: nat): Json
    requires Lists(order)
    decreases v
  {
    if r.policy(key) then if v.Bool? then v else Str(MARKER)
    else if r.sensitive(key) then RedactSensitive(r, v, key)
    else
      match v
      case Null => v
      case Bool(_) => v
      case Int(_) => v
      case Float(_) => v
      case Str(s) => Str(r.text(r.Limit(path), s))
      case Arr(items) =>
        if depth > MAX_DEPTH then Str(CUT_OFF)
        else
          var n := if |items| <= MAX_LIST then |items| else MAX_LIST;
          var kept := seq(n, i requires 0 <= i < n => Redact(r, order, items[i], key, path + ["*"], depth + 1));
          if IsBoundedList(items) then Arr(kept + [items[MAX_LIST]])
          else if |items| > MAX_LIST then
            Arr(kept + [Obj(map[TRUNCATED := Bool(true), "remaining" := Int(|items| - MAX_LIST)])])
          else Arr(kept)
      case Obj(fields) =>
        if depth > MAX_DEPTH then Str(CUT_OFF)
        else
          var names := KeptNames(order, fields);
          var persisted := Persisted(r.digest, r.secret, names);
          var kept := map p | p in persisted ::
            var name := names[IndexOf(persisted, p)];
            Redact(r, order, fields[name], name, path + [name], depth + 1);
          if IsBoundedMapping(fields) || |fields| > MAX_DICT then Obj(kept[TRUNCATED := Bool(true)]) else Obj(kept)
  }

  lemma {:induction false} WithoutFacts(names: seq<string>, x: string)
    ensures forall n :: n in Without(names, x) <==> n in names && n != x
    ensures Distinct(names) ==> Distinct(Without(names, x))
    ensures Distinct(names) ==> |Without(names, x)| == |names| - (if x in names then 1 else 0)
  {
    if names != [] {
      var tail := names[1..];
      WithoutFacts(tail, x);
      assert forall n :: n in names <==> n == names[0] || n in tail;
      if names[0] == x {
        assert Without(names, x) == Without(tail, x);
        assert Distinct(names) ==> x !in tail;
      } else {
        assert Without(names, x) == [names[0]] + Without(tail, x);
        assert Distinct(names) ==> names[0] !in Without(tail, x);
      }
    }
  }

  // ----- Stored values -----

  ghost predicate Unlimited(r: Rules, path: Path) {
    forall q | q in r.limits :: !(path <= q)
  }

  /** What the leaf redactor, the name check and the digest must satisfy for the stored form to be stable. */
  ghost predicate Steady(r: Rules) {
    && (forall l: nat, s: string | r.Yields(l) :: r.text(l, r.text(l, s)) == r.text(l, s))
    && (forall l: nat | r.Yields(l) :: r.text(l, MARKER) == MARKER && r.text(l, CUT_OFF) == CUT_OFF)
    && (forall l: nat, s: string | r.Yields(l) && r.vaulted(s) :: r.text(l, s) == s)
    && !r.secret(TRUNCATED)
    && (forall v: Json, k: string | r.public(v, k).Some? :: r.public(v, k).value == v && !r.secret(k))
    && (forall p: string | IsPlaceholder(r.digest, p) :: !r.secret(p) && !r.sensitive(p) && !r.policy(p))
    && (forall q | q in r.limits :: forall i | 0 <= i < |q| :: !r.secret(q[i]) && !IsPlaceholder(r.digest, q[i]))
  }

  lemma {:induction false} LimitYields(r: Rules, path: Path)
    ensures r.Yields(r.Limit(path))
  {
    if path in r.limits {
      assert path in r.limits.Keys;
    }
  }

  /** A value in the form the ledger stores, described without redacting it. */
  ghost predicate Stored(r: Rules, v: Json, key: string, path: Path, depth: nat)
    decreases v
  {
    if r.policy(key) then v.Bool? || v == Str(MARKER)
    else if r.sensitive(key) then
      v.Bool? || v == Str(MARKER) || r.public(v, key).Some? || (v.Str? && r.vaulted(v.s))
    else
      match v
      case Str(s) => r.text(r.Limit(path), s) == s
      case Arr(items) =>
        && depth <= MAX_DEPTH && (|items| <= MAX_LIST || IsBoundedList(items))
        && forall i | 0 <= i < |items| && i < MAX_LIST :: Stored(r, items[i], key, path + ["*"], depth + 1)
      case Obj(fields) =>
        && depth <= MAX_DEPTH && (|fields| <= MAX_DICT || IsBoundedMapping(fields))
        && forall k | k in fields :: !r.secret(k) && Stored(r, fields[k], k, path + [k], depth + 1)
      case _ => true
  }

  /** The window of a distinct list: without `x`, or the first `n` entries. */
  lemma {:induction false} WindowFacts(all: seq<string>, x: string, n: nat)
    requires Distinct(all)
    ensures Distinct(Without(all, x)) && Elements(Without(all, x)) == Elements(all) - {x}
    ensures Distinct(Take(all, n)) && |Take(all, n)| == (if |all| <= n then |all| else n)
    ensures |all| <= n ==> Take(all, n) == all
    ensures |all| > n ==> Elements(Take(all, n)) == Elements(all[..n])
  {
    WithoutFacts(all, x);
  }

  lemma {:induction false} KeptFacts(order: Order, fields: map<string, Json>)
    requires Lists(order)
    ensures var names := KeptNames(order, fields);
            && Distinct(names)
            && (IsBoundedMapping(fields) ==> Elements(names) == fields.Keys - {TRUNCATED} && |names| == MAX_DICT)
            && (|fields| <= MAX_DICT ==> Elements(names) == fields.Keys && |names| == |fields|)
            && (|fields| > MAX_DICT ==> |names| == MAX_DICT)
            && (|fields| > MAX_DICT && !IsBoundedMapping(fields) ==>
                  |order(fields)| == |fields| && Elements(names) == Elements(order(fields)[..MAX_DICT]))
  {
    var all := order(fields);
    assert Distinct(all) && Elements(all) == fields.Keys;
    DistinctCount(all);
    var window := if IsBoundedMapping(fields) then Without(all, TRUNCATED) else Take(all, MAX_DICT);
    WindowFacts(all, TRUNCATED, MAX_DICT);
    DistinctSort(StringBefore, window);
    DistinctCount(window);
  }

  /** The kept names come in name order, so placeholders are given out in that order. */
  lemma {:induction false} KeptNamesAreSorted(order: Order, fields: map<string, Json>)
    requires Lists(order)
    ensures SortedBy(StringBefore, KeptNames(order, fields))
  {
    var all := order(fields);
    StringOrder();
    SortSorted(StringBefore, if IsBoundedMapping(fields) then Without(all, TRUNCATED) else Take(all, MAX_DICT));
  }

  /** A value redacted under one key and path may be stored under the other. */
  ghost predicate Compatible(r: Rules, key: string, path: Path, key': string, path': Path) {
    && (key' == key || (!r.sensitive(key') && !r.policy(key') && r.secret(key)))
    && (path' == path || (Unlimited(r, path) && Unlimited(r, path')))
  }

  lemma {:induction false} SensitiveStored(r: Rules, v: Json, key: string, key': string, path': Path, depth: nat)
    requires Steady(r) && r.sensitive(key) && !r.policy(key)
    requires key' == key || (!r.sensitive(key') && !r.policy(key') && r.secret(key))
    ensures Stored(r, RedactSensitive(r, v, key), key', path', depth)
  {
    LimitYields(r, path');
  }

  lemma {:induction false} PrefixStep(path: Path, step: string, q: Path)
    ensures path + [step] <= q ==> path <= q && |path| < |q| && q[|path|] == step
  {
    if path + [step] <= q {
      assert (path + [step])[|path|] == step;
      assert forall i | 0 <= i < |path| :: q[i] == (path + [step])[i] == path[i];
    }
  }

  lemma {:induction false} UnlimitedStep(r: Rules, path: Path, step: string)
    requires Unlimited(r, path)
    ensures Unlimited(r, path + [step])
  {
    forall q | q in r.limits ensures !(path + [step] <= q) { PrefixStep(path, step, q); }
  }

  lemma {:induction false} HiddenStep(r: Rules, path: Path, step: string)
    requires Steady(r) && (r.secret(step) || IsPlaceholder(r.digest, step))
    ensures Unlimited(r, path + [step])
  {
    forall q | q in r.limits ensures !(path + [step] <= q) { PrefixStep(path, step, q); }
  }

  /** The key and path of a child, before and after its name is persisted. */
  lemma {:induction false} ChildCompatible(r: Rules, path: Path, path': Path, name: string, p: string)
    requires Steady(r) && (path' == path || (Unlimited(r, path) && Unlimited(r, path')))
    requires if r.secret(name) then IsPlaceholder(r.digest, p) else p == name
    ensures !r.secret(p) && Compatible(r, name, path + [name], p, path' + [p])
  {
    if r.secret(name) {
      HiddenStep(r, path, name);
      HiddenStep(r, path', p);
    } else if path' != path {
      UnlimitedStep(r, path, name);
      UnlimitedStep(r, path', name);
    }
  }

  ghost function KeptFields(r: Rules, order: Order, fields: map<string, Json>, path: Path, depth: nat)
    : map<string, Json>
    requires Lists(order)
  {
    var names := KeptNames(order, fields);
    var persisted := Persisted(r.digest, r.secret, names);
    map p | p in persisted ::
      var name := names[IndexOf(persisted, p)]; Redact(r, order, fields[name], name, path + [name], depth + 1)
  }

  lemma {:induction false} RedactObj(r: Rules, order: Order, fields: map<string, Json>, key: string, path: Path,
                                     depth: nat)
    requires Lists(order) && !r.policy(key) && !r.sensitive(key) && depth <= MAX_DEPTH
    ensures Redact(r, order, Obj(fields), key, path, depth)
         == var kept := KeptFields(r, order, fields, path, depth);
            Obj(if |fields| > MAX_DICT then kept[TRUNCATED := Bool(true)] else kept)
  {
  }

  lemma {:induction false} KeptSize(r: Rules, order: Order, fields: map<string, Json>, path: Path, depth: nat)
    requires Lists(order)
    ensures |KeptFields(r, order, fields, path, depth)| == if |fields| <= MAX_DICT then |fields| else MAX_DICT
  {
    var names := KeptNames(order, fields);
    var persisted := Persisted(r.digest, r.secret, names);
    KeptFacts(order, fields);
    PersistedInjective(r.digest, r.secret, names);
    DistinctCount(persisted);
    assert KeptFields(r, order, fields, path, depth).Keys == Elements(persisted);
  }

  lemma {:induction false} MarkedSize(kept: map<string, Json>)
    requires |kept| == MAX_DICT
    ensures var marked := kept[TRUNCATED := Bool(true)]; |marked| <= MAX_DICT || IsBoundedMapping(marked)
  {
    assert kept[TRUNCATED := Bool(true)].Keys == kept.Keys + {TRUNCATED};
  }

  lemma {:induction false} RedactArr(r: Rules, order: Order, items: seq<Json>, key: string, path: Path, depth: nat)
    requires Lists(order) && !r.policy(key) && !r.sensitive(key) && depth <= MAX_DEPTH
    ensures var out := Redact(r, order, Arr(items), key, path, depth);
            && out.Arr? && |out.items| == (if |items| <= MAX_LIST then |items| else MAX_LIST + 1)
            && (forall i | 0 <= i < |items| && i < MAX_LIST ::
                  out.items[i] == Redact(r, order, items[i], key, path + ["*"], depth + 1))
            && (|items| > MAX_LIST ==> IsBoundedList(out.items))
  {
    var out := Redact(r, order, Arr(items), key, path, depth);
    if |items| > MAX_LIST && !IsBoundedList(items) {
      var marker := map[TRUNCATED := Bool(true), "remaining" := Int(|items| - MAX_LIST)];
      assert marker.Keys == {TRUNCATED, "remaining"} && out.items[MAX_LIST] == Obj(marker);
    }
  }

  lemma {:induction false} ListStored(r: Rules, order: Order, items: seq<Json>, key: string, path: Path, key': string,
                                      path': Path, depth: nat)
    requires Lists(order) && depth <= MAX_DEPTH
    requires !r.policy(key) && !r.sensitive(key) && !r.policy(key') && !r.sensitive(key')
    requires forall i | 0 <= i < |items| && i < MAX_LIST ::
               Stored(r, Redact(r, order, items[i], key, path + ["*"], depth + 1), key', path' + ["*"], depth + 1)
    ensures Stored(r, Redact(r, order, Arr(items), key, path, depth), key', path', depth)
  {
    RedactArr(r, order, items, key, path, depth);
    ItemsStored(r, Redact(r, order, Arr(items), key, path, depth).items, key', path', depth);
  }

  lemma {:induction false} ItemsStored(r: Rules, items: seq<Json>, key: string, path: Path, depth: nat)
    requires depth <= MAX_DEPTH && !r.policy(key) && !r.sensitive(key)
    requires |items| <= MAX_LIST || IsBoundedList(items)
    requires forall i | 0 <= i < |items| && i < MAX_LIST :: Stored(r, items[i], key, path + ["*"], depth + 1)
    ensures Stored(r, Arr(items), key, path, depth)
  {
  }

  lemma {:induction false} ObjStored(r: Rules, order: Order, fields: map<string, Json>, key: string, path: Path,
                                     key': string, path': Path, depth: nat)
    requires Lists(order) && depth <= MAX_DEPTH && !r.secret(TRUNCATED)
    requires !r.policy(key) && !r.sensitive(key) && !r.policy(key') && !r.sensitive(key')
    requires var kept := KeptFields(r, order, fields, path, depth);
             forall p | p in kept :: !r.secret(p) && Stored(r, kept[p], p, path' + [p], depth + 1)
    ensures Stored(r, Redact(r, order, Obj(fields), key, path, depth), key', path', depth)
  {
    RedactObj(r, order, fields, key, path, depth);
    KeptSize(r, order, fields, path, depth);
    var kept := KeptFields(r, order, fields, path, depth);
    if |fields| > MAX_DICT {
      MarkedSize(kept);
      var marked := kept[TRUNCATED := Bool(true)];
      forall p | p in marked ensures !r.secret(p) && Stored(r, marked[p], p, path' + [p], depth + 1) {
        assert p == TRUNCATED || p in kept;
      }
    }
  }

  /** Every redacted value is in stored form, also under the name and path it is persisted with. */
  lemma {:induction false} RedactStores(r: Rules, order: Order, v: Json, key: string, path: Path, key': string,
                                        path': Path, depth: nat)
    requires Lists(order) && Steady(r) && Compatible(r, key, path, key', path')
    ensures Stored(r, Redact(r, order, v, key, path, depth), key', path', depth)
    decreases v, 1
  {
    if r.policy(key) {
      RedactedStored(r, key', path', depth);
    } else if r.sensitive(key) {
      SensitiveStored(r, v, key, key', path', depth);
    } else if v.Arr? && depth <= MAX_DEPTH {
      ListStores(r, order, v, key, path, key', path', depth);
    } else if v.Obj? && depth <= MAX_DEPTH {
      ObjStores(r, order, v, key, path, key', path', depth);
    } else {
      LeafStored(r, order, v, key, path, key', path', depth);
    }
  }

  lemma {:induction false} ListStores(r: Rules, order: Order, v: Json, key: string, path: Path, key': string,
                                      path': Path, depth: nat)
    requires Lists(order) && Steady(r) && Compatible(r, key, path, key', path')
    requires v.Arr? && depth <= MAX_DEPTH && !r.policy(key) && !r.sensitive(key)
    ensures Stored(r, Redact(r, order, v, key, path, depth), key', path', depth)
    decreases v, 0
  {
    if path' != path {
      UnlimitedStep(r, path, "*");
      UnlimitedStep(r, path', "*");
    }
    assert Compatible(r, key, path + ["*"], key', path' + ["*"]);
    forall i | 0 <= i < |v.items| && i < MAX_LIST
      ensures Stored(r, Redact(r, order, v.items[i], key, path + ["*"], depth + 1), key', path' + ["*"], depth + 1)
    {
      RedactStores(r, order, v.items[i], key, path + ["*"], key', path' + ["*"], depth + 1);
    }
    ListStored(r, order, v.items, key, path, key', path', depth);
  }

  lemma {:induction false} ObjStores(r: Rules, order: Order, v: Json, key: string, path: Path, key': string,
                                     path': Path, depth: nat)
    requires Lists(order) && Steady(r) && Compatible(r, key, path, key', path')
    requires v.Obj? && depth <= MAX_DEPTH && !r.policy(key) && !r.sensitive(key)
    ensures Stored(r, Redact(r, order, v, key, path, depth), key', path', depth)
    decreases v, 0
  {
    var kept := KeptFields(r, order, v.fields, path, depth);
    forall p | p in kept ensures !r.secret(p) && Stored(r, kept[p], p, path' + [p], depth + 1) {
      var name := KeptFrom(r, order, v.fields, path, depth, p);
      ChildCompatible(r, path, path', name, p);
      RedactStores(r, order, v.fields[name], name, path + [name], p, path' + [p], depth + 1);
    }
    ObjStored(r, order, v.fields, key, path, key', path', depth);
  }

  lemma {:induction false} RedactedStored(r: Rules, key: string, path: Path, depth: nat)
    requires Steady(r)
    ensures Stored(r, Str(MARKER), key, path, depth) && forall b :: Stored(r, Bool(b), key, path, depth)
  {
    LimitYields(r, path);
  }

  lemma {:induction false} LeafStored(r: Rules, order: Order, v: Json, key: string, path: Path, key': string,
                                      path': Path, depth: nat)
    requires Lists(order) && Steady(r) && Compatible(r, key, path, key', path')
    requires !r.policy(key) && !r.sensitive(key) && ((v.Arr? || v.Obj?) ==> depth > MAX_DEPTH)
    ensures Stored(r, Redact(r, order, v, key, path, depth), key', path', depth)
  {
    LimitYields(r, path');
    if v.Str? {
      assert path' != path ==> path !in r.limits && path' !in r.limits;
      var l := r.Limit(path);
      assert r.text(l, r.text(l, v.s)) == r.text(l, v.s);
    }
  }

  /** The entry that a kept field was redacted from. */
  lemma {:induction false} KeptFrom(r: Rules, order: Order, fields: map<string, Json>, path: Path, depth: nat,
                                    p: string)
    returns (name: string)
    requires Lists(order) && p in KeptFields(r, order, fields, path, depth)
    ensures name in fields
    ensures KeptFields(r, order, fields, path, depth)[p]
            == Redact(r, order, fields[name], name, path + [name], depth + 1)
    ensures if r.secret(name) then IsPlaceholder(r.digest, p) && IsPlaceholderOf(r.digest, name, p) else p == name
  {
    var names := KeptNames(order, fields);
    var persisted := Persisted(r.digest, r.secret, names);
    KeptFacts(order, fields);
    PersistedInjective(r.digest, r.secret, names);
    name := names[IndexOf(persisted, p)];
  }

  lemma {:induction false} PlainNamesPersist(r: Rules, names: seq<string>)
    requires Distinct(names) && forall n | n in names :: !r.secret(n)
    ensures Persisted(r.digest, r.secret, names) == names
  {
    PersistedInjective(r.digest, r.secret, names);
  }

  lemma {:induction false} PlainKeysKept(r: Rules, order: Order, fields: map<string, Json>, path: Path, depth: nat)
    requires Lists(order) && (|fields| <= MAX_DICT || IsBoundedMapping(fields))
    requires forall k | k in fields :: !r.secret(k)
    ensures KeptFields(r, order, fields, path, depth).Keys
         == if |fields| <= MAX_DICT then fields.Keys else fields.Keys - {TRUNCATED}
  {
    var names := KeptNames(order, fields);
    KeptFacts(order, fields);
    PlainNamesPersist(r, names);
    assert KeptFields(r, order, fields, path, depth).Keys == Elements(names);
  }

  lemma {:induction false} SameFields(kept: map<string, Json>, fields: map<string, Json>)
    requires |fields| <= MAX_DICT || IsBoundedMapping(fields)
    requires kept.Keys == if |fields| <= MAX_DICT then fields.Keys else fields.Keys - {TRUNCATED}
    requires forall p | p in kept :: kept[p] == fields[p]
    ensures (if |fields| > MAX_DICT then kept[TRUNCATED := Bool(true)] else kept) == fields
  {
  }

  lemma {:induction false} ObjFixed(r: Rules, order: Order, fields: map<string, Json>, key: string, path: Path,
                                    depth: nat)
    requires Lists(order) && depth <= MAX_DEPTH && !r.policy(key) && !r.sensitive(key)
    requires |fields| <= MAX_DICT || IsBoundedMapping(fields)
    requires forall k | k in fields ::
               !r.secret(k) && Redact(r, order, fields[k], k, path + [k], depth + 1) == fields[k]
    ensures Redact(r, order, Obj(fields), key, path, depth) == Obj(fields)
  {
    var kept := KeptFields(r, order, fields, path, depth);
    PlainKeysKept(r, order, fields, path, depth);
    forall p | p in kept ensures kept[p] == fields[p] {
      var name := KeptFrom(r, order, fields, path, depth, p);
    }
    SameFields(kept, fields);
    RedactObj(r, order, fields, key, path, depth);
  }

  lemma {:induction false} ListFixed(r: Rules, order: Order, items: seq<Json>, key: string, path: Path, depth: nat)
    requires Lists(order) && depth <= MAX_DEPTH && !r.policy(key) && !r.sensitive(key)
    requires |items| <= MAX_LIST || IsBoundedList(items)
    requires forall i | 0 <= i < |items| && i < MAX_LIST ::
               Redact(r, order, items[i], key, path + ["*"], depth + 1) == items[i]
    ensures Redact(r, order, Arr(items), key, path, depth) == Arr(items)
  {
    assert Redact(r, order, Arr(items), key, path, depth).items == items;
  }

  /** Redacting a value in stored form changes nothing, whatever order its mappings come back in. */
  lemma {:induction false} StoredIsFixed(r: Rules, order: Order, v: Json, key: string, path: Path, depth: nat)
    requires Lists(order) && Steady(r) && Stored(r, v, key, path, depth)
    ensures Redact(r, order, v, key, path, depth) == v
    decreases v
  {
    if !r.policy(key) && !r.sensitive(key) && v.Arr? {
      forall i | 0 <= i < |v.items| && i < MAX_LIST
        ensures Redact(r, order, v.items[i], key, path + ["*"], depth + 1) == v.items[i]
      {
        StoredIsFixed(r, order, v.items[i], key, path + ["*"], depth + 1);
      }
      ListFixed(r, order, v.items, key, path, depth);
    } else if !r.policy(key) && !r.sensitive(key) && v.Obj? {
      forall k | k in v.fields ensures Redact(r, order, v.fields[k], k, path + [k], depth + 1) == v.fields[k] {
        StoredIsFixed(r, order, v.fields[k], k, path + [k], depth + 1);
      }
      ObjFixed(r, order, v.fields, key, path, depth);
    }
  }

  /** Redaction is stable: a second redaction, with any mapping order, returns the stored value. */
  lemma {:induction false} RedactIsStable(r: Rules, first: Order, second: Order, v: Json, key: string, path: Path,
                                          depth: nat)
    requires Lists(first) && Lists(second) && Steady(r)
    ensures var stored := Redact(r, first, v, key, path, depth);
            Redact(r, second, stored, key, path, depth) == stored
  {
    RedactStores(r, first, v, key, path, key, path, depth);
    StoredIsFixed(r, second, Redact(r, first, v, key, path, depth), key, path, depth);
  }

  lemma {:induction false} PlainFieldKept(r: Rules, order: Order, fields: map<string, Json>, name: string, path: Path,
                                          depth: nat)
    requires Lists(order) && name in fields && |fields| <= MAX_DICT && forall k | k in fields :: !r.secret(k)
    ensures var kept := KeptFields(r, order, fields, path, depth);
            kept.Keys == fields.Keys && kept[name] == Redact(r, order, fields[name], name, path + [name], depth + 1)
  {
    PlainKeysKept(r, order, fields, path, depth);
    var from := KeptFrom(r, order, fields, path, depth, name);
  }

  /** One field of a redacted mapping of plain names is that field redacted on its own. */
  lemma {:induction false} FieldsAreIndependent(r: Rules, order: Order, fields: map<string, Json>, name: string,
                                                key: string, path: Path, depth: nat)
    requires Lists(order) && name in fields && |fields| <= MAX_DICT && forall k | k in fields :: !r.secret(k)
    requires !r.policy(key) && !r.sensitive(key) && depth <= MAX_DEPTH
    ensures var out := Redact(r, order, Obj(fields), key, path, depth);
            out.Has(name) && out.Get(name) == Redact(r, order, fields[name], name, path + [name], depth + 1)
  {
    PlainFieldKept(r, order, fields, name, path, depth);
    RedactObj(r, order, fields, key, path, depth);
  }

  /** A mapping of plain names is redacted field by field. */
  lemma {:induction false} FieldByField(r: Rules, order: Order, fields: map<string, Json>, key: string, path: Path,
                                        depth: nat)
    requires Lists(order) && |fields| <= MAX_DICT && forall k | k in fields :: !r.secret(k)
    requires !r.policy(key) && !r.sensitive(key) && depth <= MAX_DEPTH
    ensures var out := Redact(r, order, Obj(fields), key, path, depth);
            && out.Obj? && out.fields.Keys == fields.Keys
            && forall k | k in fields :: out.fields[k] == Redact(r, order, fields[k], k, path + [k], depth + 1)
  {
    RedactObj(r, order, fields, key, path, depth);
    PlainKeysKept(r, order, fields, path, depth);
    forall k | k in fields
      ensures KeptFields(r, order, fields, path, depth)[k] == Redact(r, order, fields[k], k, path + [k], depth + 1)
    {
      PlainFieldKept(r, order, fields, k, path, depth);
    }
  }

  /** A value under a sensitive key that is neither boolean nor public is stored as a string. */
  lemma {:induction false} SensitiveIsString(r: Rules, order: Order, fields: map<string, Json>, name: string,
                                             key: string, path: Path, depth: nat)
    requires Lists(order) && name in fields && |fields| <= MAX_DICT && forall k | k in fields :: !r.secret(k)
    requires !r.policy(key) && !r.sensitive(key) && depth <= MAX_DEPTH
    requires r.sensitive(name) && !r.policy(name) && !fields[name].Bool? && r.public(fields[name], name).None?
    ensures var out := Redact(r, order, Obj(fields), key, path, depth); out.Has(name) && out.fields[name].Str?
  {
    FieldsAreIndependent(r, order, fields, name, key, path, depth);
  }

  lemma {:induction false} NestedSensitiveIsString(r: Rules, order: Order, outer: string, fields: map<string, Json>,
                                                   name: string, key: string, path: Path, depth: nat)
    requires Lists(order) && name in fields && |fields| <= MAX_DICT && forall k | k in fields :: !r.secret(k)
    requires !r.secret(outer) && !r.policy(outer) && !r.sensitive(outer)
    requires !r.policy(key) && !r.sensitive(key) && depth < MAX_DEPTH
    requires r.sensitive(name) && !r.policy(name) && !fields[name].Bool? && r.public(fields[name], name).None?
    ensures var out := Redact(r, order, Obj(map[outer := Obj(fields)]), key, path, depth).Get(outer);
            out.Has(name) && out.fields[name].Str?
  {
    var wrapper := map[outer := Obj(fields)];
    assert wrapper.Keys == {outer} && |wrapper| == 1;
    FieldsAreIndependent(r, order, wrapper, outer, key, path, depth);
    SensitiveIsString(r, order, fields, name, outer, path + [outer], depth + 1);
  }

  lemma {:induction false} SingleKept(r: Rules, order: Order, name: string, v: Json, path: Path, depth: nat)
    requires Lists(order) && !r.secret(name)
    ensures KeptFields(r, order, map[name := v], path, depth)
         == map[name := Redact(r, order, v, name, path + [name], depth + 1)]
  {
    var fields := map[name := v];
    assert fields.Keys == {name} && |fields| == 1;
    PlainKeysKept(r, order, fields, path, depth);
    var from := KeptFrom(r, order, fields, path, depth, name);
    Singleton(KeptFields(r, order, fields, path, depth), name, Redact(r, order, v, name, path + [name], depth + 1));
  }

  lemma {:induction false} Singleton(m: map<string, Json>, name: string, v: Json)
    requires m.Keys == {name} && m[name] == v
    ensures m == map[name := v]
  {
  }
}
