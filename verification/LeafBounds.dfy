/** The source's own leaf redactor and credential metadata meet what the bounds of stored results need. */
module LeafBounds {
  import opened EventLimits
  import opened Json
  import opened CredentialReference
  import opened Redaction
  import opened EventText
  import opened LedgerForm
  import opened LedgerBounds
  import NormalizedParams

  lemma {:induction false} LabelIsShort(s: string)
    requires IsLabel(s)
    ensures |s| <= 129
  {
    var i :| 0 <= i < |s| && s[i] == '.' && IsName(s[..i]) && IsName(s[i + 1..]);
  }

  lemma {:induction false} StringsAreNames(items: seq<Json>, i: nat)
    requires Strings(items).Some? && UniqueNames(Strings(items).value) && i < |items|
    ensures items[i].Str? && |items[i].s| <= 64
  {
    StringsQuoted(items);
    assert Quoted(Strings(items).value)[i] == items[i];
  }

  lemma {:induction false} PartIsShort(v: Json, k: string)
    requires FromMapping(v).Some? && k in v.fields && k in REQUIRED
    ensures Short(v.fields[k])
  {
    var f := v.fields;
    if k == "fields" {
      forall i | 0 <= i < |f[k].items| ensures Short(f[k].items[i]) { StringsAreNames(f[k].items, i); }
    } else if k == "target" {
      LabelIsShort(f[k].fields["object_type"].s);
      forall n | n in f[k].fields ensures Short(f[k].fields[n]) { assert n in {"object_type", "object_id"}; }
    } else if k == "version" {
      VersionIsShort(f[k]);
    } else if k == "purpose" {
      PurposesAreShort(f[k].s);
    }
  }

  lemma {:induction false} PurposesAreShort(s: string)
    requires s in PURPOSES
    ensures |s| <= 7
  {
  }

  lemma {:induction false} VersionIsShort(v: Json)
    requires IsLive(v) || IsPinned(v)
    ensures Short(v)
  {
    forall n | n in v.fields ensures Short(v.fields[n]) { assert n in {"policy", "number"}; }
  }

  lemma {:induction false} ReferenceIsShort(v: Json)
    requires FromMapping(v).Some?
    ensures Short(v)
  {
    forall k | k in v.fields ensures Short(v.fields[k]) {
      if k in REQUIRED {
        PartIsShort(v, k);
      } else {
        assert k == "assignment_id" || k == "credential_uuid";
      }
    }
  }

  lemma {:induction false} MetadataIsShort(v: Json, key: string)
    requires PublicMetadata(v, key).Some?
    ensures Short(PublicMetadata(v, key).value)
  {
    PublicMetadataIsValue(v, key);
    if key == "credential_references" {
      forall k | k in v.fields ensures Short(v.fields[k]) { ReferenceIsShort(v.fields[k]); }
    }
  }

  lemma {:induction false} LeafTextIsFrugal(pat: Patterns, l: nat, s: string)
    requires MAX_STRING <= l + |TRUNCATION_MARKER|
    ensures |NormalizedParams.LeafText(pat)(l, s)| <= l + |TRUNCATION_MARKER|
  {
    TextFits(pat, l, s);
  }

  /** Rules with the source's redactor, vaulted references and public metadata are frugal. */
  lemma {:induction false} LedgerIsFrugal(pat: Patterns, r: Rules)
    requires r.text == NormalizedParams.LeafText(pat) && r.vaulted == IsVaulted && r.public == PublicMetadata
    ensures Frugal(r)
  {
    forall l: nat, s: string | MAX_STRING <= l + |TRUNCATION_MARKER|
      ensures |r.text(l, s)| <= l + |TRUNCATION_MARKER|
    {
      LeafTextIsFrugal(pat, l, s);
    }
    forall v: Json, k: string | r.public(v, k).Some? ensures Short(r.public(v, k).value) { MetadataIsShort(v, k); }
    FrugalFrom(r);
  }
}
