/** Public credential metadata: the only structured values that a sensitive key may keep in the ledger. */
module CredentialReference {
  import opened FixedPoint
  import opened Json

  const PURPOSES := {"login", "enable", "console", "oob", "api", "agent", "backup"}
  const REQUIRED := {"schema_version", "provider", "target", "purpose", "fields", "version"}

  predicate IsLowerHex(c: char) { '0' <= c <= '9' || 'a' <= c <= 'f' }

  predicate IsSha256(s: string) { |s| == 64 && forall i | 0 <= i < |s| :: IsLowerHex(s[i]) }

  predicate IsName(s: string) {
    1 <= |s| <= 64 && 'a' <= s[0] <= 'z'
    && forall i | 0 <= i < |s| :: 'a' <= s[i] <= 'z' || '0' <= s[i] <= '9' || s[i] == '_'
  }

  predicate IsLabel(s: string) {
    exists i | 0 <= i < |s| :: s[i] == '.' && IsName(s[..i]) && IsName(s[i + 1..])
  }

  predicate IsCanonicalUuid(s: string) {
    |s| == 36 && forall i | 0 <= i < 36 :: if i in {8, 13, 18, 23} then s[i] == '-' else IsLowerHex(s[i])
  }

  predicate IsId(v: Json) { v.Int? && 1 <= v.n <= MAX_SAFE_INTEGER }

  datatype Reference = Reference(
    assignment: Option<int>,
    uuid: Option<string>,
    objectType: string,
    objectId: int,
    purpose: string,
    names: seq<string>,
    pinned: Option<int>)

  function Strings(items: seq<Json>): Option<seq<string>> {
    if items == [] then Some([])
    else if !items[0].Str? then None
    else
      match Strings(items[1..])
      case None => None
      case Some(rest) => Some([items[0].s] + rest)
  }

  function Quoted(names: seq<string>): seq<Json> {
    seq(|names|, i requires 0 <= i < |names| => Str(names[i]))
  }

  predicate UniqueNames(names: seq<string>) {
    && 1 <= |names| <= 16
    && (forall i | 0 <= i < |names| :: IsName(names[i]))
    && (forall i, j | 0 <= i < j < |names| :: names[i] != names[j])
  }

  predicate IsTarget(v: Json) {
    && v.Obj? && v.fields.Keys == {"object_type", "object_id"} && IsId(v.fields["object_id"])
    && v.fields["object_type"].Str? && IsLabel(v.fields["object_type"].s)
  }

  predicate IsLive(v: Json) {
    v == Obj(map["policy" := Str("live")])
  }

  predicate IsPinned(v: Json) {
    v.Obj? && v.fields.Keys == {"policy", "number"} && v.fields["policy"] == Str("pinned") && IsId(v.fields["number"])
  }

  /** Every check of the reference contract but the two that read the identifier and the field names. */
  predicate IsFrame(v: Json) {
    && v.Obj? && REQUIRED <= v.fields.Keys
    && v.fields["schema_version"] == Int(1) && v.fields["provider"] == Str("netbox-openbao")
    && IsTarget(v.fields["target"])
    && v.fields["purpose"].Str? && v.fields["purpose"].s in PURPOSES
    && v.fields["fields"].Arr?
    && (IsLive(v.fields["version"]) || IsPinned(v.fields["version"]))
  }

  /** `CredentialReferenceV1.from_mapping`. */
  function FromMapping(v: Json): Option<Reference> {
    if !IsFrame(v) then None
    else
      var f := v.fields;
      match Strings(f["fields"].items)
      case None => None
      case Some(names) =>
        var version := f["version"].fields;
        var pinned := if "number" in version && version["number"].Int? then Some(version["number"].n) else None;
        var target := f["target"].fields;
        if !UniqueNames(names) then None
        else if f.Keys == REQUIRED + {"assignment_id"} && IsId(f["assignment_id"]) then
          Some(Reference(Some(f["assignment_id"].n), None, target["object_type"].s, target["object_id"].n,
                         f["purpose"].s, names, pinned))
        else if f.Keys == REQUIRED + {"credential_uuid"} && f["credential_uuid"].Str?
                && IsCanonicalUuid(f["credential_uuid"].s) then
          Some(Reference(None, Some(f["credential_uuid"].s), target["object_type"].s, target["object_id"].n,
                         f["purpose"].s, names, pinned))
        else None
  }

  function VersionFields(pinned: Option<int>): map<string, Json> {
    var version := map["policy" := Str(if pinned.None? then "live" else "pinned")];
    if pinned.None? then version else version["number" := Int(pinned.value)]
  }

  /** `CredentialReferenceV1.to_mapping`. */
  function ToMapping(r: Reference): Json {
    var common := map[
      "schema_version" := Int(1),
      "provider" := Str("netbox-openbao"),
      "target" := Obj(map["object_type" := Str(r.objectType), "object_id" := Int(r.objectId)]),
      "purpose" := Str(r.purpose),
      "fields" := Arr(Quoted(r.names)),
      "version" := Obj(VersionFields(r.pinned))
    ];
    Obj(if r.assignment.Some? then common["assignment_id" := Int(r.assignment.value)]
        else common["credential_uuid" := Str(if r.uuid.Some? then r.uuid.value else "")])
  }

  lemma {:induction false} StringsQuoted(items: seq<Json>)
    ensures Strings(items).Some? ==> Quoted(Strings(items).value) == items
  {
    if items != [] && items[0].Str? {
      StringsQuoted(items[1..]);
    }
  }

  lemma {:induction false} VersionRoundTrip(v: Json)
    requires IsLive(v) || IsPinned(v)
    ensures v.fields == VersionFields(if "number" in v.fields then Some(v.fields["number"].n) else None)
  {
  }

  /** Reading a mapping and writing it back gives the same mapping: nothing is added, dropped or rewritten. */
  lemma {:induction false} RoundTrip(v: Json)
    requires FromMapping(v).Some?
    ensures ToMapping(FromMapping(v).value) == v
  {
    var f, g := v.fields, ToMapping(FromMapping(v).value).fields;
    StringsQuoted(f["fields"].items);
    VersionRoundTrip(f["version"]);
    var target := f["target"].fields;
    assert target == map["object_type" := target["object_type"], "object_id" := target["object_id"]];
    assert g.Keys == f.Keys;
    forall k | k in f ensures g[k] == f[k] {
      assert k in REQUIRED || k == "assignment_id" || k == "credential_uuid";
    }
    assert f == g;
  }

  predicate IsReference(r: Reference) {
    && (r.assignment.Some? <==> r.uuid.None?)
    && (r.assignment.Some? ==> 1 <= r.assignment.value <= MAX_SAFE_INTEGER)
    && (r.uuid.Some? ==> IsCanonicalUuid(r.uuid.value))
    && IsLabel(r.objectType) && 1 <= r.objectId <= MAX_SAFE_INTEGER && r.purpose in PURPOSES && UniqueNames(r.names)
    && (r.pinned.Some? ==> 1 <= r.pinned.value <= MAX_SAFE_INTEGER)
  }

  lemma {:induction false} QuotedStrings(names: seq<string>)
    ensures Strings(Quoted(names)) == Some(names)
  {
    if names != [] {
      assert Quoted(names)[1..] == Quoted(names[1..]);
      QuotedStrings(names[1..]);
      assert [names[0]] + names[1..] == names;
    }
  }

  lemma {:induction false} VersionReadBack(pinned: Option<int>)
    requires pinned.Some? ==> 1 <= pinned.value <= MAX_SAFE_INTEGER
    ensures var f := VersionFields(pinned);
            && (IsLive(Obj(f)) || IsPinned(Obj(f)))
            && (if "number" in f && f["number"].Int? then Some(f["number"].n) else None) == pinned
  {
    if pinned.Some? {
      assert VersionFields(pinned).Keys == {"policy", "number"};
    }
  }

  lemma {:induction false} FrameReadBack(r: Reference)
    requires IsReference(r)
    ensures IsFrame(ToMapping(r))
    ensures ToMapping(r).fields.Keys
            == REQUIRED + (if r.assignment.Some? then {"assignment_id"} else {"credential_uuid"})
  {
    VersionReadBack(r.pinned);
    var f := ToMapping(r).fields;
    assert f["target"].fields.Keys == {"object_type", "object_id"};
    assert f.Keys == REQUIRED + (if r.assignment.Some? then {"assignment_id"} else {"credential_uuid"});
  }

  lemma {:induction false} FieldsReadBack(r: Reference)
    requires IsReference(r)
    ensures var f := ToMapping(r).fields;
            && f["target"] == Obj(map["object_type" := Str(r.objectType), "object_id" := Int(r.objectId)])
            && f["purpose"] == Str(r.purpose) && f["fields"] == Arr(Quoted(r.names))
            && f["version"] == Obj(VersionFields(r.pinned))
            && (r.assignment.Some? ==> f["assignment_id"] == Int(r.assignment.value) && "credential_uuid" !in f)
            && (r.assignment.None? ==> f["credential_uuid"] == Str(r.uuid.value) && "assignment_id" !in f)
  {
  }

  /** Every valid reference is read back from its mapping. */
  lemma {:induction false} ReadBack(r: Reference)
    requires IsReference(r)
    ensures FromMapping(ToMapping(r)) == Some(r)
  {
    FrameReadBack(r);
    QuotedStrings(r.names);
    VersionReadBack(r.pinned);
    FieldsReadBack(r);
  }

  /** `validate_named_references`. */
  function NamedReferences(v: Json): Option<Json> {
    if v.Obj? && |v.fields| <= 16 && forall k | k in v.fields :: IsName(k) && FromMapping(v.fields[k]).Some?
    then Some(Obj(map k | k in v.fields :: ToMapping(FromMapping(v.fields[k]).value)))
    else None
  }

  /** `public_credential_metadata`. */
  function PublicMetadata(v: Json, key: string): Option<Json> {
    if key == "credential_references" then NamedReferences(v)
    else if key == "credential_authority_sha256" && v.Str? && IsSha256(v.s) then Some(v)
    else if && key == "credential_policy_ref" && v.Str? && |v.s| > 21
            && v.s[..21] == "credential-authority:" && IsSha256(v.s[21..])
    then Some(v)
    else None
  }

  const PUBLIC_KEYS := {"credential_references", "credential_authority_sha256", "credential_policy_ref"}

  lemma {:induction false} NamedReferencesIsValue(v: Json)
    requires NamedReferences(v).Some?
    ensures NamedReferences(v).value == v
  {
    forall k | k in v.fields ensures ToMapping(FromMapping(v.fields[k]).value) == v.fields[k] {
      RoundTrip(v.fields[k]);
    }
    assert NamedReferences(v).value.fields == v.fields;
  }

  /** The metadata that redaction lets through is exactly the value it was given. */
  lemma {:induction false} PublicMetadataIsValue(v: Json, key: string)
    ensures PublicMetadata(v, key).Some? ==> PublicMetadata(v, key).value == v && key in PUBLIC_KEYS
  {
    if key == "credential_references" && NamedReferences(v).Some? {
      NamedReferencesIsValue(v);
    }
  }

  // ----- Exactly what is accepted -----

  lemma {:induction false} ReadIsReference(v: Json)
    requires FromMapping(v).Some?
    ensures IsReference(FromMapping(v).value)
  {
  }

  /** A mapping is accepted exactly when it is that of a valid reference. */
  lemma {:induction false} AcceptedExactly(v: Json)
    ensures FromMapping(v).Some? <==> exists r: Reference :: IsReference(r) && v == ToMapping(r)
  {
    if FromMapping(v).Some? {
      ReadIsReference(v);
      RoundTrip(v);
    }
    if exists r: Reference :: IsReference(r) && v == ToMapping(r) {
      var r: Reference :| IsReference(r) && v == ToMapping(r);
      ReadBack(r);
    }
  }

  lemma {:induction false} PolicyRefExactly(s: string)
    ensures |s| > 21 && s[..21] == "credential-authority:" && IsSha256(s[21..]) <==>
            exists d: string :: IsSha256(d) && s == "credential-authority:" + d
  {
    var prefix := "credential-authority:";
    assert |prefix| == 21;
    if |s| > 21 && s[..21] == prefix && IsSha256(s[21..]) { assert s == prefix + s[21..]; }
    if exists d: string :: IsSha256(d) && s == prefix + d {
      var d: string :| IsSha256(d) && s == prefix + d;
      assert s[..21] == prefix && s[21..] == d;
    }
  }

  /** Metadata is public under three names only: valid named references, a digest, or a reference to a policy. */
  lemma {:induction false} PublicExactly(v: Json, key: string)
    ensures PublicMetadata(v, key).Some? <==>
            || (&& key == "credential_references" && v.Obj? && |v.fields| <= 16
                && forall k | k in v.fields ::
                     IsName(k) && exists r: Reference :: IsReference(r) && v.fields[k] == ToMapping(r))
            || (key == "credential_authority_sha256" && v.Str? && IsSha256(v.s))
            || (&& key == "credential_policy_ref" && v.Str?
                && exists d: string :: IsSha256(d) && v.s == "credential-authority:" + d)
  {
    if v.Obj? {
      forall k | k in v.fields
        ensures FromMapping(v.fields[k]).Some? <==> exists r: Reference :: IsReference(r) && v.fields[k] == ToMapping(r)
      {
        AcceptedExactly(v.fields[k]);
      }
    }
    if v.Str? { PolicyRefExactly(v.s); }
  }
}
