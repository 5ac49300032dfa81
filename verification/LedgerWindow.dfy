/** Which parts of a value the ledger form keeps, and where: the first entries of a mapping, the first of a list. */
module LedgerWindow {
  import opened EventLimits
  import opened Ordering
  import opened Json
  import opened MappingNames
  import opened LedgerForm

  /** The entry is among the first hundred of its mapping, or a data entry of a mapping that was bounded before. */
  ghost predicate InWindow(order: Order, fields: map<string, Json>, name: string) {
    if IsBoundedMapping(fields) then name in fields && name != TRUNCATED
    else exists i :: 0 <= i < MAX_DICT && i < |order(fields)| && order(fields)[i] == name
  }

  lemma {:induction false} WindowIsKept(order: Order, fields: map<string, Json>, name: string)
    requires Lists(order)
    ensures name in KeptNames(order, fields) <==> InWindow(order, fields, name)
  {
    var names, all := KeptNames(order, fields), order(fields);
    KeptFacts(order, fields);
    DistinctCount(all);
    assert name in names <==> name in Elements(names);
    assert Elements(all) == fields.Keys;
    if !IsBoundedMapping(fields) && |fields| > MAX_DICT {
      assert name in Elements(all[..MAX_DICT]) <==> name in all[..MAX_DICT];
      if name in all[..MAX_DICT] {
        var i :| 0 <= i < MAX_DICT && all[..MAX_DICT][i] == name;
        assert all[i] == name;
      }
      if InWindow(order, fields, name) {
        var i :| 0 <= i < MAX_DICT && i < |all| && all[i] == name;
        assert all[..MAX_DICT][i] == name;
      }
    } else if !IsBoundedMapping(fields) {
      assert name in Elements(all) <==> name in all;
    }
  }

  /** Every entry of the window is stored, redacted on its own, under its name or a placeholder of that name. */
  lemma {:induction false} EntryIsStored(r: Rules, order: Order, fields: map<string, Json>, name: string, key: string,
                                         path: Path, depth: nat)
    returns (p: string)
    requires Lists(order) && !r.policy(key) && !r.sensitive(key) && depth <= MAX_DEPTH
    requires name in fields && InWindow(order, fields, name) && (name == TRUNCATED ==> |fields| <= MAX_DICT)
    ensures if r.secret(name) then IsPlaceholderOf(r.digest, name, p) else p == name
    ensures var out := Redact(r, order, Obj(fields), key, path, depth);
            out.Has(p) && out.fields[p] == Redact(r, order, fields[name], name, path + [name], depth + 1)
  {
    WindowIsKept(order, fields, name);
    var names := KeptNames(order, fields);
    var persisted := Persisted(r.digest, r.secret, names);
    KeptFacts(order, fields);
    PersistedInjective(r.digest, r.secret, names);
    var i := IndexOf(names, name);
    p := persisted[i];
    assert p in persisted && IndexOf(persisted, p) == i;
    RedactObj(r, order, fields, key, path, depth);
    if r.secret(name) { PlaceholderIsNotTruncated(r.digest, name, p); }
  }

  lemma {:induction false} PlaceholderIsNotTruncated(digest: string -> string, name: string, p: string)
    requires IsPlaceholderOf(digest, name, p)
    ensures p != TRUNCATED
  {
    assert p[0] == PLACEHOLDER_PREFIX[0] == '[';
  }

  /** A plain name is in the stored mapping exactly when its entry is in the window. */
  lemma {:induction false} PlainNameIsStoredExactly(r: Rules, order: Order, fields: map<string, Json>, name: string,
                                                    key: string, path: Path, depth: nat)
    requires Lists(order) && !r.policy(key) && !r.sensitive(key) && depth <= MAX_DEPTH
    requires !r.secret(name) && name != TRUNCATED && !IsPlaceholder(r.digest, name)
    ensures Redact(r, order, Obj(fields), key, path, depth).Has(name) <==> InWindow(order, fields, name)
  {
    var names := KeptNames(order, fields);
    var persisted := Persisted(r.digest, r.secret, names);
    WindowIsKept(order, fields, name);
    KeptFacts(order, fields);
    PersistedInjective(r.digest, r.secret, names);
    RedactObj(r, order, fields, key, path, depth);
    if name in names {
      assert persisted[IndexOf(names, name)] == name;
    }
    if name in persisted {
      assert persisted[IndexOf(persisted, name)] == name;
      assert names[IndexOf(persisted, name)] in names;
    }
  }

  /** Only a mapping that was too large, or was bounded before, is marked as truncated, and with it bounded in size. */
  lemma {:induction false} TruncationIsMarked(r: Rules, order: Order, fields: map<string, Json>, key: string,
                                              path: Path, depth: nat)
    requires Lists(order) && !r.policy(key) && !r.sensitive(key) && depth <= MAX_DEPTH
    requires !r.secret(TRUNCATED)
    ensures var out := Redact(r, order, Obj(fields), key, path, depth);
            && out.Obj? && (|fields| <= MAX_DICT ==> |out.fields| == |fields|)
            && (|fields| > MAX_DICT ==> out.Get(TRUNCATED) == Bool(true) && out.fields.Keys - {TRUNCATED} != {})
            && (TRUNCATED !in fields && |fields| <= MAX_DICT ==> !out.Has(TRUNCATED))
  {
    RedactObj(r, order, fields, key, path, depth);
    KeptSize(r, order, fields, path, depth);
    var kept := KeptFields(r, order, fields, path, depth);
    if |fields| > MAX_DICT {
      assert kept[TRUNCATED := Bool(true)].Keys - {TRUNCATED} == kept.Keys - {TRUNCATED};
      assert kept.Keys <= {TRUNCATED} + (kept.Keys - {TRUNCATED});
      SubsetSize(kept.Keys, {TRUNCATED} + (kept.Keys - {TRUNCATED}));
      assert |kept.Keys| == |kept|;
    } else if TRUNCATED in kept {
      var name := KeptFrom(r, order, fields, path, depth, TRUNCATED);
      if r.secret(name) { PlaceholderIsNotTruncated(r.digest, name, TRUNCATED); }
    }
  }

  /**
   A list keeps its first fifty entries, each redacted on its own and in place, and then says how many were
   dropped. A list that was bounded before keeps its marker.
   */
  lemma {:induction false} ListIsStored(r: Rules, order: Order, items: seq<Json>, key: string, path: Path, depth: nat)
    requires Lists(order) && !r.policy(key) && !r.sensitive(key) && depth <= MAX_DEPTH
    ensures var out := Redact(r, order, Arr(items), key, path, depth);
            && out.Arr? && |out.items| == (if |items| <= 50 then |items| else 51)
            && (forall i | 0 <= i < |items| && i < 50 ::
                  out.items[i] == Redact(r, order, items[i], key, path + ["*"], depth + 1))
            && (|items| > 50 && !IsBoundedList(items) ==>
                  && IsListMarker(out.items[50])
                  && out.items[50].Get("remaining") == Int(|items| - 50))
            && (IsBoundedList(items) ==> out.items[50] == items[50])
  {
    var out := Redact(r, order, Arr(items), key, path, depth);
    if |items| > 50 && !IsBoundedList(items) {
      assert out.items[50].fields.Keys == {TRUNCATED, "remaining"};
    }
  }

  /** Nothing below the depth limit is kept, and nothing but scalars and texts needs no limit. */
  lemma {:induction false} DepthIsBounded(r: Rules, order: Order, v: Json, key: string, path: Path, depth: nat)
    requires Lists(order) && !r.policy(key) && !r.sensitive(key)
    ensures var out := Redact(r, order, v, key, path, depth);
            && ((v.Obj? || v.Arr?) && depth > MAX_DEPTH ==> out == Str(CUT_OFF))
            && (v.Obj? && depth <= MAX_DEPTH ==> out.Obj?) && (v.Arr? && depth <= MAX_DEPTH ==> out.Arr?)
            && (v.Str? ==> out == Str(r.text(r.Limit(path), v.s)))
            && (!v.Str? && !v.Arr? && !v.Obj? ==> out == v)
  {
  }

  /**
   Under a sensitive key a value is stored as it is exactly when it is a boolean, public metadata, a whole
   vaulted reference or the marker already; everything else becomes the marker.
   */
  lemma {:induction false} SensitiveIsKeptExactly(r: Rules, order: Order, v: Json, key: string, path: Path, depth: nat)
    requires Lists(order) && Steady(r) && r.sensitive(key) && !r.policy(key)
    ensures var out := Redact(r, order, v, key, path, depth);
            && (out == v <==> v.Bool? || r.public(v, key).Some? || (v.Str? && r.vaulted(v.s)) || v == Str(MARKER))
            && (out == v || out == Str(MARKER))
  {
  }
}
