/** The strings of a stored result fit the long limits of its schema, truncation markers included. */
module LedgerBounds {
  import opened EventLimits
  import opened FixedPoint
  import opened Json
  import opened MappingNames
  import opened LedgerForm
  import opened SchemaRelaxation
  import opened BackendResponse
  import opened BackendRecord

  // ----- Short values -----

  /** No string of the value is longer than the default limit. */
  ghost predicate Short(v: Json)
    decreases v
  {
    match v
    case Str(s) => |s| <= MAX_STRING
    case Arr(items) => forall i | 0 <= i < |items| :: Short(items[i])
    case Obj(fields) => forall k | k in fields :: Short(fields[k])
    case _ => true
  }

  /** A long limit never concerns a short value. */
  lemma {:induction false} ShortInBounds(s: Schema, v: Json)
    requires Short(v)
    ensures InBounds(s, v)
    decreases s
  {
    if s.Schema? {
      if v.Obj? {
        forall k | k in s.properties && k in v.fields ensures InBounds(s.properties[k], v.fields[k]) {
          ShortInBounds(s.properties[k], v.fields[k]);
        }
      }
      if v.Arr? && s.items.Some? {
        forall i | s.prefix <= i < |v.items| ensures InBounds(s.items.value, v.items[i]) {
          ShortInBounds(s.items.value, v.items[i]);
        }
      }
    }
  }

  // ----- What the rules must do -----

  /** A redacted text is at most its limit and one marker long, and what a sensitive key keeps is short. */
  ghost predicate Frugal(r: Rules) {
    && (forall l: nat, s: string | MAX_STRING <= l + |TRUNCATION_MARKER| :: |r.text(l, s)| <= l + |TRUNCATION_MARKER|)
    && (forall s: string | r.vaulted(s) :: |s| <= MAX_STRING)
    && (forall v: Json, k: string | r.public(v, k).Some? :: Short(r.public(v, k).value))
  }

  lemma {:induction false} FrugalFrom(r: Rules)
    requires forall l: nat, s: string | MAX_STRING <= l + |TRUNCATION_MARKER| ::
               |r.text(l, s)| <= l + |TRUNCATION_MARKER|
    requires forall s: string | r.vaulted(s) :: |s| <= MAX_STRING
    requires forall v: Json, k: string | r.public(v, k).Some? :: Short(r.public(v, k).value)
    ensures Frugal(r)
  {
  }

  /** Each long limit of the schema is known at its path, with room for the marker. */
  ghost predicate Reserves(r: Rules, s: Schema, path: Path) {
    forall q, m | At(s, q, Declared(m)) ::
      path + q in r.limits && r.limits[path + q] + |TRUNCATION_MARKER| == m
  }

  /** No property of the schema has the name of a placeholder. */
  ghost predicate NoPlaceholderNames(digest: string -> string, s: Schema)
    decreases s
  {
    s.Schema? ==>
      && (forall k | k in s.properties :: !IsPlaceholder(digest, k) && NoPlaceholderNames(digest, s.properties[k]))
      && (s.items.Some? ==> NoPlaceholderNames(digest, s.items.value))
  }

  lemma {:induction false} ReservesChild(r: Rules, s: Schema, path: Path, step: string, child: Schema)
    requires s.Schema? && Reserves(r, s, path)
    requires (step in s.properties && s.properties[step] == child) || (step == ANY_ITEM && s.items == Some(child))
    ensures Reserves(r, child, path + [step])
  {
    forall q, m | At(child, q, Declared(m))
      ensures (path + [step]) + q in r.limits && r.limits[(path + [step]) + q] + |TRUNCATION_MARKER| == m
    {
      assert ([step] + q)[1..] == q;
      assert At(s, [step] + q, Declared(m));
      assert path + ([step] + q) == (path + [step]) + q;
    }
  }

  // ----- The stored tree -----

  lemma {:induction false} MarkersAreShort(n: int)
    ensures Short(Str(MARKER)) && Short(Str(CUT_OFF)) && Short(Bool(true))
    ensures Short(Obj(map[TRUNCATED := Bool(true), "remaining" := Int(n)]))
  {
  }

  lemma {:induction false} ListMarkerIsShort(v: Json)
    requires IsListMarker(v)
    ensures Short(v)
  {
    forall k | k in v.fields ensures Short(v.fields[k]) {
      assert k in {TRUNCATED, "remaining"};
    }
  }

  lemma {:induction false} TextInBounds(r: Rules, s: Schema, text: string, path: Path)
    requires Frugal(r) && Reserves(r, s, path)
    ensures InBounds(s, Str(r.text(r.Limit(path), text)))
  {
    if s.Wide() {
      assert At(s, [], Declared(s.maxLength.value)) && path + [] == path;
      assert |r.text(r.Limit(path), text)| <= r.Limit(path) + |TRUNCATION_MARKER|;
    }
  }

  lemma {:induction false} SensitiveInBounds(r: Rules, s: Schema, v: Json, key: string)
    requires Frugal(r)
    ensures InBounds(s, RedactSensitive(r, v, key)) && InBounds(s, if v.Bool? then v else Str(MARKER))
  {
    MarkersAreShort(0);
    ShortInBounds(s, Str(MARKER));
    if v.Bool? || (v.Str? && r.vaulted(v.s)) { ShortInBounds(s, v); }
    if r.public(v, key).Some? { ShortInBounds(s, r.public(v, key).value); }
  }

  lemma {:induction false} ListInBounds(r: Rules, order: Order, s: Schema, items: seq<Json>, key: string, path: Path,
                                        depth: nat)
    requires Lists(order) && s.Schema? && depth <= MAX_DEPTH && !r.policy(key) && !r.sensitive(key)
    requires s.items.Some? ==> forall i | 0 <= i < |items| && i < MAX_LIST ::
               InBounds(s.items.value, Redact(r, order, items[i], key, path + ["*"], depth + 1))
    ensures InBounds(s, Redact(r, order, Arr(items), key, path, depth))
  {
    var out := Redact(r, order, Arr(items), key, path, depth).items;
    if s.items.Some? {
      forall i | s.prefix <= i < |out| ensures InBounds(s.items.value, out[i]) {
        if i == MAX_LIST {
          if IsBoundedList(items) { ListMarkerIsShort(out[i]); } else { MarkersAreShort(|items| - MAX_LIST); }
          ShortInBounds(s.items.value, out[i]);
        } else {
          assert out[i] == Redact(r, order, items[i], key, path + ["*"], depth + 1);
        }
      }
    }
  }

  lemma {:induction false} ObjInBounds(r: Rules, order: Order, s: Schema, fields: map<string, Json>, key: string,
                                       path: Path, depth: nat)
    requires Lists(order) && s.Schema? && depth <= MAX_DEPTH && !r.policy(key) && !r.sensitive(key)
    requires var kept := KeptFields(r, order, fields, path, depth);
             forall k | k in s.properties && k in kept :: InBounds(s.properties[k], kept[k])
    ensures InBounds(s, Redact(r, order, Obj(fields), key, path, depth))
  {
    RedactObj(r, order, fields, key, path, depth);
    var out := Redact(r, order, Obj(fields), key, path, depth).fields;
    forall k | k in s.properties && k in out ensures InBounds(s.properties[k], out[k]) {
      if k !in KeptFields(r, order, fields, path, depth) || out[k] != KeptFields(r, order, fields, path, depth)[k] {
        MarkersAreShort(0);
        ShortInBounds(s.properties[k], Bool(true));
      }
    }
  }

  /** Every string of the redacted tree is within the long limit that the schema sets for it. */
  lemma {:induction false} TreeInBounds(r: Rules, order: Order, s: Schema, v: Json, key: string, path: Path, depth: nat)
    requires Lists(order) && Frugal(r) && Reserves(r, s, path) && NoPlaceholderNames(r.digest, s)
    ensures InBounds(s, Redact(r, order, v, key, path, depth))
    decreases v, 1
  {
    if r.policy(key) || r.sensitive(key) {
      SensitiveInBounds(r, s, v, key);
    } else if (v.Arr? || v.Obj?) && depth > MAX_DEPTH {
      MarkersAreShort(0);
      ShortInBounds(s, Str(CUT_OFF));
    } else if s.Schema? && v.Arr? {
      ItemsInBounds(r, order, s, v, key, path, depth);
    } else if s.Schema? && v.Obj? {
      FieldsInBounds(r, order, s, v, key, path, depth);
    } else if v.Str? {
      TextInBounds(r, s, v.s, path);
    }
  }

  lemma {:induction false} ItemsInBounds(r: Rules, order: Order, s: Schema, v: Json, key: string, path: Path,
                                         depth: nat)
    requires Lists(order) && Frugal(r) && Reserves(r, s, path) && NoPlaceholderNames(r.digest, s)
    requires s.Schema? && v.Arr? && depth <= MAX_DEPTH && !r.policy(key) && !r.sensitive(key)
    ensures InBounds(s, Redact(r, order, v, key, path, depth))
    decreases v, 0
  {
    if s.items.Some? {
      ReservesChild(r, s, path, ANY_ITEM, s.items.value);
      forall i | 0 <= i < |v.items| && i < MAX_LIST
        ensures InBounds(s.items.value, Redact(r, order, v.items[i], key, path + ["*"], depth + 1))
      {
        TreeInBounds(r, order, s.items.value, v.items[i], key, path + ["*"], depth + 1);
      }
    }
    ListInBounds(r, order, s, v.items, key, path, depth);
  }

  lemma {:induction false} FieldsInBounds(r: Rules, order: Order, s: Schema, v: Json, key: string, path: Path,
                                          depth: nat)
    requires Lists(order) && Frugal(r) && Reserves(r, s, path) && NoPlaceholderNames(r.digest, s)
    requires s.Schema? && v.Obj? && depth <= MAX_DEPTH && !r.policy(key) && !r.sensitive(key)
    ensures InBounds(s, Redact(r, order, v, key, path, depth))
    decreases v, 0
  {
    var kept := KeptFields(r, order, v.fields, path, depth);
    forall k | k in s.properties && k in kept ensures InBounds(s.properties[k], kept[k]) {
      var name := KeptFrom(r, order, v.fields, path, depth, k);
      ReservesChild(r, s, path, k, s.properties[k]);
      TreeInBounds(r, order, s.properties[k], v.fields[name], name, path + [name], depth + 1);
    }
    ObjInBounds(r, order, s, v.fields, key, path, depth);
  }

  // ----- The result of a response -----

  /** `_append_and_project`: the reserved limits of the schema, prefixed with the name of the result. */
  ghost predicate PrefixesLimits(r: Rules, limits: map<Path, int>) {
    forall q | q in limits :: [RESULT] + q in r.limits && r.limits[[RESULT] + q] == Reserved(limits)[q]
  }

  lemma {:induction false} RegisteredAt(s: Schema, limits: map<Path, int>, q: Path, m: int)
    requires NoClash(s) && SchemaRelaxation.Registered(s, [], map[], limits) && At(s, q, Declared(m))
    ensures q in limits && limits[q] == m && m > MAX_STRING
  {
    DeclaredIsWide(s, q, m);
    assert q[0..] == q;
    assert q in limits;
    OneLimitPerPath(s, q, m, limits[q]);
  }

  lemma {:induction false} ResultReserves(r: Rules, s: Schema, limits: map<Path, int>)
    requires NoClash(s) && SchemaRelaxation.Registered(s, [], map[], limits) && PrefixesLimits(r, limits)
    ensures Reserves(r, s, [RESULT])
  {
    forall q, m | At(s, q, Declared(m))
      ensures [RESULT] + q in r.limits && r.limits[[RESULT] + q] + |TRUNCATION_MARKER| == m
    {
      RegisteredAt(s, limits, q, m);
    }
  }

  /**
   Whatever the backend sends, no string of the stored result exceeds a long limit of the schema: the full
   schema accepts the stored result exactly when the relaxed one does.
   */
  lemma {:induction false} StoredResultInBounds(x: Context, raw: Json)
    requires Lists(x.order) && PlainKeys(x.rules) && Frugal(x.rules) && x.schema.Some?
    requires NoClash(x.schema.value) && NoPlaceholderNames(x.rules.digest, x.schema.value)
    requires SchemaRelaxation.Registered(x.schema.value, [], map[], x.limits) && PrefixesLimits(x.rules, x.limits)
    ensures InBounds(x.schema.value, LedgerResult(x, raw))
    ensures Valid(x.valid, x.schema.value, LedgerResult(x, raw)) <==>
            Valid(x.valid, Strip(x.schema.value, x.limits, []), LedgerResult(x, raw))
  {
    var s := x.schema.value;
    ResultReserves(x.rules, s, x.limits);
    LedgerResultAlone(x, raw);
    TreeInBounds(x.rules, x.order, s, raw, RESULT, [RESULT], 1);
    NoClashIsExact(s, x.limits);
    RelaxIsExact(x.valid, s, LedgerResult(x, raw));
  }
}
