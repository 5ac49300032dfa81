/**
 Result schemas whose long string limits are relaxed for the first validation. A schema keeps its
 `maxLength`, `properties` and `items`; every other keyword is one abstract check.
 */
module SchemaRelaxation {
  import opened EventLimits
  import opened FixedPoint
  import opened Json

  const ANY_ITEM := "*"

  /** `Flag` is a boolean schema; `prefix` counts the leading items that `items` does not check. */
  datatype Schema =
    | Flag(accepts: bool)
    | Schema(maxLength: Option<int>, properties: map<string, Schema>, items: Option<Schema>, prefix: nat, other: nat)
  {
    predicate Wide() { Schema? && maxLength.Some? && maxLength.value > MAX_STRING }

    predicate Narrow() { Schema? && maxLength.Some? && maxLength.value <= MAX_STRING }
  }

  /** Validity (section 6.3.1 of JSON Schema Validation 2020-12 for `maxLength`). */
  predicate Valid(other: (nat, Json) -> bool, s: Schema, v: Json)
    decreases s
  {
    match s
    case Flag(accepts) => accepts
    case Schema(maxLength, properties, items, prefix, rest) =>
      && other(rest, v)
      && (v.Str? && maxLength.Some? ==> |v.s| <= maxLength.value)
      && (v.Obj? ==> forall k | k in properties && k in v.fields :: Valid(other, properties[k], v.fields[k]))
      && (v.Arr? && items.Some? ==> forall i | prefix <= i < |v.items| :: Valid(other, items.value, v.items[i]))
  }

  // ----- The paths of the wide limits -----

  /** The limits a subschema may declare: above the default event limit, within it, or exactly `m` above it. */
  datatype Limit = Wide | Narrow | Declared(m: int) {
    predicate On(s: Schema) {
      match this
      case Wide => s.Wide()
      case Narrow => s.Narrow()
      case Declared(m) => s.Wide() && s.maxLength == Some(m)
    }
  }

  /** Some subschema at path `q` declares such a limit. */
  ghost predicate At(s: Schema, q: Path, kind: Limit)
    decreases |q|
  {
    if q == [] then kind.On(s)
    else if s.Flag? then false
    else
      || (q[0] in s.properties && At(s.properties[q[0]], q[1..], kind))
      || (q[0] == ANY_ITEM && s.items.Some? && At(s.items.value, q[1..], kind))
  }

  /** The part of `At` that a walk has visited: the node, the named properties, and maybe the items. */
  ghost predicate PartAt(s: Schema, q: Path, kind: Limit, names: set<string>, items: bool) {
    if q == [] then kind.On(s)
    else if s.Flag? then false
    else
      || (q[0] in names && q[0] in s.properties && At(s.properties[q[0]], q[1..], kind))
      || (items && q[0] == ANY_ITEM && s.items.Some? && At(s.items.value, q[1..], kind))
  }

  /** `limits` holds the paths of `before` and the visited paths below `path` with a wide limit. */
  ghost predicate Collected(s: Schema, path: Path, before: map<Path, int>, limits: map<Path, int>, names: set<string>,
                            items: bool) {
    && (forall p :: p in limits <==> p in before || (path <= p && PartAt(s, p[|path|..], Wide, names, items)))
    && (forall p | p in limits ::
          || (p in before && limits[p] == before[p])
          || (path <= p && PartAt(s, p[|path|..], Declared(limits[p]), names, items)))
  }

  /** `limits` holds the paths of `before`, and those below `path` where `s` declares a wide limit. */
  ghost predicate Registered(s: Schema, path: Path, before: map<Path, int>, limits: map<Path, int>) {
    && (forall p :: p in limits <==> p in before || (path <= p && At(s, p[|path|..], Wide)))
    && (forall p | p in limits ::
          || (p in before && limits[p] == before[p])
          || (path <= p && At(s, p[|path|..], Declared(limits[p]))))
  }

  lemma {:induction false} ChildPath(path: Path, step: string, p: Path)
    ensures path + [step] <= p <==> path <= p && |path| < |p| && p[|path|] == step
    ensures path + [step] <= p ==> p[|path|..][0] == step && p[|path|..][1..] == p[|path + [step]|..]
  {
    if path <= p && |path| < |p| && p[|path|] == step {
      assert p[..|path| + 1] == path + [step];
    }
    if path + [step] <= p {
      assert forall i | 0 <= i < |path| :: p[i] == (path + [step])[i] == path[i];
      assert (path + [step])[|path|] == step;
    }
  }

  lemma {:induction false} CollectedStart(s: Schema, path: Path, before: map<Path, int>)
    requires s.Schema?
    ensures Collected(s, path, before, if s.Wide() then before[path := s.maxLength.value] else before, {}, false)
  {
    forall p | path <= p ensures p[|path|..] == [] <==> p == path {
      if p[|path|..] == [] { assert p == p[..|path|] + p[|path|..]; }
    }
  }

  lemma {:induction false} CollectedProperty(s: Schema, path: Path, before: map<Path, int>, limits: map<Path, int>,
                                             names: set<string>, name: string, grown: map<Path, int>)
    requires s.Schema? && name in s.properties && Collected(s, path, before, limits, names, false)
    requires Registered(s.properties[name], path + [name], limits, grown)
    ensures Collected(s, path, before, grown, names + {name}, false)
  {
    forall p { ChildPath(path, name, p); }
  }

  lemma {:induction false} CollectedItems(s: Schema, path: Path, before: map<Path, int>, limits: map<Path, int>,
                                          grown: map<Path, int>)
    requires s.Schema? && s.items.Some? && Collected(s, path, before, limits, s.properties.Keys, false)
    requires Registered(s.items.value, path + [ANY_ITEM], limits, grown)
    ensures Collected(s, path, before, grown, s.properties.Keys, true)
  {
    forall p { ChildPath(path, ANY_ITEM, p); }
  }

  lemma {:induction false} CollectedAll(s: Schema, path: Path, before: map<Path, int>, limits: map<Path, int>)
    requires s.Schema? && Collected(s, path, before, limits, s.properties.Keys, s.items.Some?)
    ensures Registered(s, path, before, limits)
  {
  }

  /** `_collect_schema_string_limits`, for any order of the properties. */
  method CollectLimits(s: Schema, path: Path, before: map<Path, int>) returns (limits: map<Path, int>)
    ensures Registered(s, path, before, limits)
    decreases s
  {
    limits := before;
    if s.Flag? {
      return;
    }
    if s.Wide() {
      limits := limits[path := s.maxLength.value];
    }
    CollectedStart(s, path, before);
    var names := s.properties.Keys;
    assert s.properties.Keys - names == {};
    while names != {}
      invariant names <= s.properties.Keys
      invariant Collected(s, path, before, limits, s.properties.Keys - names, false)
      decreases |names|
    {
      var name :| name in names;
      var grown := CollectLimits(s.properties[name], path + [name], limits);
      CollectedProperty(s, path, before, limits, s.properties.Keys - names, name, grown);
      assert s.properties.Keys - (names - {name}) == s.properties.Keys - names + {name};
      limits, names := grown, names - {name};
    }
    assert s.properties.Keys - names == s.properties.Keys;
    if s.items.Some? {
      var grown := CollectLimits(s.items.value, path + [ANY_ITEM], limits);
      CollectedItems(s, path, before, limits, grown);
      limits := grown;
    }
    CollectedAll(s, path, before, limits);
  }

  // ----- Stripping -----

  /** `_strip_max_length_at_paths`, on the copy that `_relax_schema_string_lengths` makes. */
  function Strip(s: Schema, limits: map<Path, int>, path: Path): Schema
    decreases s
  {
    match s
    case Flag(_) => s
    case Schema(maxLength, properties, items, prefix, other) =>
      Schema(
        if path in limits then None else maxLength,
        map k | k in properties :: Strip(properties[k], limits, path + [k]),
        if items.None? then None else Some(Strip(items.value, limits, path + [ANY_ITEM])),
        prefix, other)
  }

  /** The schema without its wide limits, described without paths. */
  function Relax(s: Schema): Schema
    decreases s
  {
    match s
    case Flag(_) => s
    case Schema(maxLength, properties, items, prefix, other) =>
      Schema(
        if s.Wide() then None else maxLength,
        map k | k in properties :: Relax(properties[k]),
        if items.None? then None else Some(Relax(items.value)),
        prefix, other)
  }

  /** A narrow limit shares its path with a wide one. */
  ghost predicate Shadowed(s: Schema) {
    exists q :: At(s, q, Narrow) && At(s, q, Wide)
  }

  ghost predicate Matches(s: Schema, limits: map<Path, int>, path: Path) {
    && (forall q | At(s, q, Wide) :: path + q in limits)
    && (forall q | At(s, q, Narrow) :: path + q !in limits)
  }

  lemma {:induction false} MatchesChild(s: Schema, limits: map<Path, int>, path: Path, step: string, child: Schema)
    requires s.Schema? && Matches(s, limits, path)
    requires (step in s.properties && s.properties[step] == child) || (step == ANY_ITEM && s.items == Some(child))
    ensures Matches(child, limits, path + [step])
  {
    forall q ensures path + ([step] + q) == (path + [step]) + q
      ensures At(child, q, Wide) ==> At(s, [step] + q, Wide)
      ensures At(child, q, Narrow) ==> At(s, [step] + q, Narrow)
    {
      assert ([step] + q)[1..] == q;
    }
  }

  lemma {:induction false} MatchesNode(s: Schema, limits: map<Path, int>, path: Path)
    requires Matches(s, limits, path)
    ensures (s.Wide() ==> path in limits) && (s.Narrow() ==> path !in limits)
  {
    assert path + [] == path;
    assert s.Wide() ==> At(s, [], Wide);
    assert s.Narrow() ==> At(s, [], Narrow);
  }

  lemma {:induction false} StripNode(s: Schema, limits: map<Path, int>, path: Path)
    requires s.Schema? && (s.Wide() ==> path in limits) && (s.Narrow() ==> path !in limits)
    requires forall k | k in s.properties :: Strip(s.properties[k], limits, path + [k]) == Relax(s.properties[k])
    requires s.items.Some? ==> Strip(s.items.value, limits, path + [ANY_ITEM]) == Relax(s.items.value)
    ensures Strip(s, limits, path) == Relax(s)
  {
  }

  lemma {:induction false} StripMatching(s: Schema, limits: map<Path, int>, path: Path)
    requires Matches(s, limits, path)
    ensures Strip(s, limits, path) == Relax(s)
    decreases s
  {
    if s.Schema? {
      MatchesNode(s, limits, path);
      forall k | k in s.properties ensures Strip(s.properties[k], limits, path + [k]) == Relax(s.properties[k]) {
        MatchesChild(s, limits, path, k, s.properties[k]);
        StripMatching(s.properties[k], limits, path + [k]);
      }
      if s.items.Some? {
        MatchesChild(s, limits, path, ANY_ITEM, s.items.value);
        StripMatching(s.items.value, limits, path + [ANY_ITEM]);
      }
      StripNode(s, limits, path);
    }
  }

  lemma {:induction false} StripDiffers(s: Schema, limits: map<Path, int>, path: Path, q: Path)
    requires At(s, q, Narrow) && path + q in limits
    ensures Strip(s, limits, path) != Relax(s)
    decreases |q|
  {
    if q == [] {
      assert path + q == path;
      assert Strip(s, limits, path).maxLength == None && Relax(s).maxLength == s.maxLength;
    } else {
      assert path + q == (path + [q[0]]) + q[1..];
      if q[0] in s.properties && At(s.properties[q[0]], q[1..], Narrow) {
        StripDiffers(s.properties[q[0]], limits, path + [q[0]], q[1..]);
        assert Strip(s, limits, path).properties[q[0]] != Relax(s).properties[q[0]];
      } else {
        StripDiffers(s.items.value, limits, path + [ANY_ITEM], q[1..]);
        assert Strip(s, limits, path).items.value != Relax(s).items.value;
      }
    }
  }

  /** Collect and strip stay in lockstep exactly when no narrow limit shares a path with a wide one. */
  lemma {:induction false} StripIsExact(s: Schema, limits: map<Path, int>)
    requires Registered(s, [], map[], limits)
    ensures Strip(s, limits, []) == Relax(s) <==> !Shadowed(s)
  {
    assert forall q: Path :: [] + q == q && q[0..] == q;
    if Shadowed(s) {
      var q :| At(s, q, Narrow) && At(s, q, Wide);
      StripDiffers(s, limits, [], q);
    } else {
      StripMatching(s, limits, []);
    }
  }

  /** No schema node has both items and a property that is named like the item step. */
  predicate NoClash(s: Schema)
    decreases s
  {
    s.Schema? ==>
      && !(ANY_ITEM in s.properties && s.items.Some?)
      && (forall k | k in s.properties :: NoClash(s.properties[k]))
      && (s.items.Some? ==> NoClash(s.items.value))
  }

  lemma {:induction false} OneLimitPerPath(s: Schema, q: Path, m: int, m': int)
    requires NoClash(s)
    ensures !(At(s, q, Narrow) && At(s, q, Wide))
    ensures At(s, q, Declared(m)) && At(s, q, Declared(m')) ==> m == m'
    decreases |q|
  {
    if q != [] && s.Schema? {
      if q[0] in s.properties {
        OneLimitPerPath(s.properties[q[0]], q[1..], m, m');
      } else if q[0] == ANY_ITEM && s.items.Some? {
        OneLimitPerPath(s.items.value, q[1..], m, m');
      }
    }
  }

  lemma {:induction false} NoClashIsExact(s: Schema, limits: map<Path, int>)
    requires NoClash(s) && Registered(s, [], map[], limits)
    ensures Strip(s, limits, []) == Relax(s)
  {
    forall q ensures !(At(s, q, Narrow) && At(s, q, Wide)) { OneLimitPerPath(s, q, 0, 0); }
    StripIsExact(s, limits);
  }

  /** A property named `*` beside items makes strip remove a limit that collect never registered. */
  lemma {:induction false} StarPropertyLosesALimit() returns (s: Schema)
    ensures Shadowed(s) && forall limits | Registered(s, [], map[], limits) :: Strip(s, limits, []) != Relax(s)
  {
    var wide := Schema(Some(5000), map[], None, 0, 0);
    var narrow := Schema(Some(10), map[], None, 0, 0);
    s := Schema(None, map[ANY_ITEM := wide], Some(narrow), 0, 0);
    var q := [ANY_ITEM];
    assert q[1..] == [];
    assert At(s, q, Wide) && At(s, q, Narrow);
    forall limits | Registered(s, [], map[], limits) ensures Strip(s, limits, []) != Relax(s) {
      StripIsExact(s, limits);
    }
  }

  // ----- Validity -----

  /** A valid value stays valid when limits are stripped. */
  lemma {:induction false} StripKeepsValid(other: (nat, Json) -> bool, s: Schema, limits: map<Path, int>, path: Path,
                                           v: Json)
    requires Valid(other, s, v)
    ensures Valid(other, Strip(s, limits, path), v)
    decreases s
  {
    if s.Schema? {
      if v.Obj? {
        forall k | k in s.properties && k in v.fields
          ensures Valid(other, Strip(s.properties[k], limits, path + [k]), v.fields[k])
        {
          StripKeepsValid(other, s.properties[k], limits, path + [k], v.fields[k]);
        }
      }
      if v.Arr? && s.items.Some? {
        forall i | s.prefix <= i < |v.items|
          ensures Valid(other, Strip(s.items.value, limits, path + [ANY_ITEM]), v.items[i])
        {
          StripKeepsValid(other, s.items.value, limits, path + [ANY_ITEM], v.items[i]);
        }
      }
    }
  }

  /** Every string that a wide limit applies to is within it. */
  predicate InBounds(s: Schema, v: Json)
    decreases s
  {
    s.Schema? ==>
      && (v.Str? && s.Wide() ==> |v.s| <= s.maxLength.value)
      && (v.Obj? ==> forall k | k in s.properties && k in v.fields :: InBounds(s.properties[k], v.fields[k]))
      && (v.Arr? && s.items.Some? ==> forall i | s.prefix <= i < |v.items| :: InBounds(s.items.value, v.items[i]))
  }

  /** The wide limits are all that relaxing gives up. */
  lemma {:induction false} RelaxIsExact(other: (nat, Json) -> bool, s: Schema, v: Json)
    ensures Valid(other, s, v) <==> Valid(other, Relax(s), v) && InBounds(s, v)
    decreases s
  {
    if s.Schema? {
      var t := Relax(s);
      if v.Obj? {
        forall k | k in s.properties && k in v.fields
          ensures Valid(other, s.properties[k], v.fields[k]) <==>
                  Valid(other, t.properties[k], v.fields[k]) && InBounds(s.properties[k], v.fields[k])
        {
          RelaxIsExact(other, s.properties[k], v.fields[k]);
        }
      }
      if v.Arr? && s.items.Some? {
        forall i | s.prefix <= i < |v.items|
          ensures Valid(other, s.items.value, v.items[i]) <==>
                  Valid(other, t.items.value, v.items[i]) && InBounds(s.items.value, v.items[i])
        {
          RelaxIsExact(other, s.items.value, v.items[i]);
        }
      }
    }
  }

  // ----- Bounds by path -----

  /** String `str` occurs in `v` at the path by which redaction looks its limit up. */
  ghost predicate StringAt(v: Json, q: Path, str: string)
    decreases v
  {
    if q == [] then v == Str(str)
    else
      || (v.Obj? && q[0] in v.fields && StringAt(v.fields[q[0]], q[1..], str))
      || (v.Arr? && q[0] == ANY_ITEM && exists i | 0 <= i < |v.items| :: StringAt(v.items[i], q[1..], str))
  }

  ghost predicate Fits(s: Schema, v: Json) {
    forall q, str, m | StringAt(v, q, str) && At(s, q, Declared(m)) :: |str| <= m
  }

  lemma {:induction false} FitsChild(s: Schema, v: Json, step: string, child: Schema, w: Json)
    requires s.Schema? && Fits(s, v)
    requires (step in s.properties && s.properties[step] == child) || (step == ANY_ITEM && s.items == Some(child))
    requires (v.Obj? && step in v.fields && v.fields[step] == w) || (v.Arr? && step == ANY_ITEM && w in v.items)
    ensures Fits(child, w)
  {
    forall q, str, m | StringAt(w, q, str) && At(child, q, Declared(m)) ensures |str| <= m {
      assert ([step] + q)[1..] == q;
      assert At(s, [step] + q, Declared(m));
      assert StringAt(v, [step] + q, str);
    }
  }

  /** Bounds that hold path by path are bounds of the schema. */
  lemma {:induction false} FitsInBounds(s: Schema, v: Json)
    requires Fits(s, v)
    ensures InBounds(s, v)
    decreases s
  {
    if s.Schema? {
      if v.Str? && s.Wide() {
        assert At(s, [], Declared(s.maxLength.value)) && StringAt(v, [], v.s);
      }
      if v.Obj? {
        forall k | k in s.properties && k in v.fields ensures InBounds(s.properties[k], v.fields[k]) {
          FitsChild(s, v, k, s.properties[k], v.fields[k]);
          FitsInBounds(s.properties[k], v.fields[k]);
        }
      }
      if v.Arr? && s.items.Some? {
        forall i | s.prefix <= i < |v.items| ensures InBounds(s.items.value, v.items[i]) {
          FitsChild(s, v, ANY_ITEM, s.items.value, v.items[i]);
          FitsInBounds(s.items.value, v.items[i]);
        }
      }
    }
  }

  /** Relaxed-valid, and within the registered limit at every registered path, is valid. */
  lemma {:induction false} RelaxedAndBoundedIsValid(other: (nat, Json) -> bool, s: Schema, limits: map<Path, int>,
                                                    v: Json)
    requires NoClash(s) && Registered(s, [], map[], limits)
    requires Valid(other, Strip(s, limits, []), v)
    requires forall q, str | StringAt(v, q, str) && q in limits :: |str| <= limits[q]
    ensures Valid(other, s, v)
  {
    forall q, str, m | StringAt(v, q, str) && At(s, q, Declared(m)) ensures |str| <= m {
      DeclaredIsWide(s, q, m);
      assert q[0..] == q && q in limits;
      OneLimitPerPath(s, q, m, limits[q]);
    }
    NoClashIsExact(s, limits);
    FitsInBounds(s, v);
    RelaxIsExact(other, s, v);
  }

  lemma {:induction false} DeclaredIsWide(s: Schema, q: Path, m: int)
    ensures At(s, q, Declared(m)) ==> At(s, q, Wide) && m > MAX_STRING
    decreases |q|
  {
    if q != [] && s.Schema? {
      if q[0] in s.properties { DeclaredIsWide(s.properties[q[0]], q[1..], m); }
      if q[0] == ANY_ITEM && s.items.Some? { DeclaredIsWide(s.items.value, q[1..], m); }
    }
  }

  // ----- Room for the truncation marker -----

  /** `_result_schema_string_limits`: what redaction may keep before it adds the marker. */
  function Reserved(limits: map<Path, int>): map<Path, int> {
    map p | p in limits :: if limits[p] >= |TRUNCATION_MARKER| then limits[p] - |TRUNCATION_MARKER| else 0
  }
}
