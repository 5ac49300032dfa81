/** The ledger form of normalized parameters, over which the approval hash is computed. */
module NormalizedParams {
  import opened EventLimits
  import opened Json
  import opened MappingNames
  import opened CredentialReference
  import opened SensitiveKeys
  import opened Redaction
  import opened EventText
  import opened LedgerForm

  const PARAMS := "normalized_params"
  const LARGE_CONTENT: nat := 1024 * 1024
  const LIMITS := map[[PARAMS, "config_content"] := LARGE_CONTENT, [PARAMS, "content"] := LARGE_CONTENT]
  const LIMIT_NAMES := {PARAMS, "config_content", "content"}

  /** The rules of the ledger, for a leaf redactor, a name check and a keyed digest. */
  function LedgerRules(text: (nat, string) -> string, secret: string -> bool, digest: string -> string): Rules {
    Rules(text, secret, digest, IsSensitive, IsPolicy, PublicMetadata, IsVaulted, LIMITS)
  }

  /** The two limits that a parameter can have. */
  predicate IsLimit(l: nat) { l == MAX_STRING || l == LARGE_CONTENT }

  /** The leaf redactor is idempotent, and it keeps the marker literals and whole vaulted references. */
  ghost predicate TextSteady(text: (nat, string) -> string) {
    && (forall l: nat, s: string | IsLimit(l) :: text(l, text(l, s)) == text(l, s))
    && (forall l: nat | IsLimit(l) :: text(l, MARKER) == MARKER && text(l, CUT_OFF) == CUT_OFF)
    && (forall l: nat, s: string | IsLimit(l) && IsVaulted(s) :: text(l, s) == s)
  }

  /** The contract's own names and the placeholders are not secret-bearing, and the digest is hexadecimal. */
  ghost predicate NamesSteady(secret: string -> bool, digest: string -> string) {
    && !secret(TRUNCATED)
    && (forall name | name in PUBLIC_KEYS :: !secret(name))
    && (forall name | name in LIMIT_NAMES :: !secret(name))
    && (forall p: string | IsPlaceholder(digest, p) :: !secret(p))
    && (forall n: string :: forall i | 0 <= i < |digest(n)| :: IsLowerHex(digest(n)[i]))
  }

  lemma {:induction false} LimitNamesAreNoPlaceholders(digest: string -> string, name: string)
    requires name in LIMIT_NAMES
    ensures !IsPlaceholder(digest, name)
  {
    assert name != "" && name[0] != '[';
    forall n: string, k: nat ensures name != Candidate(Placeholder(digest, n), k) {
      CandidateStart(digest, n, k);
    }
  }

  lemma {:induction false} LimitPathNames(q: Path, i: nat)
    requires q in LIMITS && i < |q|
    ensures q[i] in LIMIT_NAMES
  {
  }

  /** The key checks, the metadata contract and the limits meet what stability needs. */
  lemma {:induction false} LedgerRulesSteady(text: (nat, string) -> string, secret: string -> bool,
                                             digest: string -> string)
    requires TextSteady(text) && NamesSteady(secret, digest)
    ensures Steady(LedgerRules(text, secret, digest))
  {
    forall v: Json, k: string | PublicMetadata(v, k).Some? ensures PublicMetadata(v, k).value == v && !secret(k) {
      PublicMetadataIsValue(v, k);
    }
    forall p: string | IsPlaceholder(digest, p) ensures !IsSensitive(p) && !IsPolicy(p) {
      PlaceholderInert(digest, p);
    }
    forall q | q in LIMITS ensures forall i | 0 <= i < |q| :: !secret(q[i]) && !IsPlaceholder(digest, q[i]) {
      forall i | 0 <= i < |q| ensures !secret(q[i]) && !IsPlaceholder(digest, q[i]) {
        LimitPathNames(q, i);
        LimitNamesAreNoPlaceholders(digest, q[i]);
      }
    }
    var r := LedgerRules(text, secret, digest);
    forall l: nat | r.Yields(l) ensures IsLimit(l) { LimitsAreTwo(l); }
    SteadyFrom(r);
  }

  lemma {:induction false} LimitsAreTwo(l: nat)
    ensures l in LIMITS.Values ==> l == LARGE_CONTENT
  {
  }

  lemma {:induction false} SteadyFrom(r: Rules)
    requires forall l: nat, s: string | r.Yields(l) :: r.text(l, r.text(l, s)) == r.text(l, s)
    requires forall l: nat | r.Yields(l) :: r.text(l, MARKER) == MARKER && r.text(l, CUT_OFF) == CUT_OFF
    requires forall l: nat, s: string | r.Yields(l) && r.vaulted(s) :: r.text(l, s) == s
    requires !r.secret(TRUNCATED)
    requires forall v: Json, k: string | r.public(v, k).Some? :: r.public(v, k).value == v && !r.secret(k)
    requires forall p: string | IsPlaceholder(r.digest, p) :: !r.secret(p) && !r.sensitive(p) && !r.policy(p)
    requires forall q | q in r.limits :: forall i | 0 <= i < |q| :: !r.secret(q[i]) && !IsPlaceholder(r.digest, q[i])
    ensures Steady(r)
  {
  }

  /** `ledger_normalized_params`: redact a wrapper with one entry, then take the entry. */
  ghost function LedgerNormalized(r: Rules, order: Order, params: map<string, Json>): map<string, Json>
    requires Lists(order)
  {
    var stored := Redact(r, order, Obj(map[PARAMS := Obj(params)]), "", [], 0).Get(PARAMS);
    if stored.Obj? then stored.fields else map[]
  }

  lemma {:induction false} TopKeysArePlain()
    ensures !IsSensitive(PARAMS) && !IsPolicy(PARAMS) && !IsSensitive("") && !IsPolicy("")
  {
    ParamsIsPlain();
    assert Lower("") == "";
    PlainKey("");
  }

  lemma {:induction false} ParamsIsPlain()
    ensures !IsSensitive(PARAMS) && !IsPolicy(PARAMS)
  {
    assert Lower(PARAMS) == PARAMS;
    ParamsLetters();
    PlainKey(PARAMS);
  }

  lemma {:induction false} ParamsLetters()
    ensures 'u' !in PARAMS && 'k' !in PARAMS && 't' !in PARAMS && 'w' !in PARAMS && 'v' !in PARAMS
  {
  }

  /** Redacting a mapping with one plain entry gives a mapping with that entry, redacted. */
  lemma {:induction false} SingleEntry(r: Rules, order: Order, name: string, v: Json)
    requires Lists(order) && !r.secret(name) && !r.sensitive("") && !r.policy("")
    ensures Redact(r, order, Obj(map[name := v]), "", [], 0) == Obj(map[name := Redact(r, order, v, name, [name], 1)])
  {
    var fields := map[name := v];
    assert |fields| == 1;
    RedactObj(r, order, fields, "", [], 0);
    SingleKept(r, order, name, v, [], 0);
    assert [] + [name] == [name];
  }

  lemma {:induction false} NormalizedIsRedacted(r: Rules, order: Order, params: map<string, Json>)
    requires Lists(order) && !r.secret(PARAMS)
    requires !r.sensitive(PARAMS) && !r.policy(PARAMS) && !r.sensitive("") && !r.policy("")
    ensures Obj(LedgerNormalized(r, order, params)) == Redact(r, order, Obj(params), PARAMS, [PARAMS], 1)
  {
    SingleEntry(r, order, PARAMS, Obj(params));
    RedactObj(r, order, params, PARAMS, [PARAMS], 1);
  }

  lemma {:induction false} NormalizedStable(r: Rules, first: Order, second: Order, params: map<string, Json>)
    requires Lists(first) && Lists(second) && Steady(r) && !r.secret(PARAMS)
    requires !r.sensitive(PARAMS) && !r.policy(PARAMS) && !r.sensitive("") && !r.policy("")
    ensures var stored := LedgerNormalized(r, first, params); LedgerNormalized(r, second, stored) == stored
  {
    NormalizedIsRedacted(r, first, params);
    NormalizedIsRedacted(r, second, LedgerNormalized(r, first, params));
    RedactIsStable(r, first, second, Obj(params), PARAMS, [PARAMS], 1);
  }

  /** The stored parameters are stable: the request-time hash and the lease-time check see one form. */
  lemma {:induction false} NormalizedParamsStable(text: (nat, string) -> string, secret: string -> bool,
                                                  digest: string -> string, first: Order, second: Order,
                                                  params: map<string, Json>)
    requires TextSteady(text) && NamesSteady(secret, digest) && Lists(first) && Lists(second)
    ensures var r := LedgerRules(text, secret, digest);
            var stored := LedgerNormalized(r, first, params);
            LedgerNormalized(r, second, stored) == stored
  {
    LedgerRulesSteady(text, secret, digest);
    TopKeysArePlain();
    assert PARAMS in LIMIT_NAMES;
    NormalizedStable(LedgerRules(text, secret, digest), first, second, params);
  }

  // ----- The source's own leaf redactor -----

  /** `_redact_event_text` as the leaf redactor. */
  ghost function LeafText(pat: Patterns): (nat, string) -> string {
    (l: nat, s: string) => RedactedText(pat, l, s)
  }

  /** `_mapping_name_is_secret_bearing`: redaction without a bound changes the name. */
  ghost function LeafSecret(pat: Patterns): string -> bool {
    (name: string) => RedactedResult(pat, Unbounded(), name) != name
  }

  /** The literals and names that the ledger writes itself. */
  ghost predicate IsOwn(digest: string -> string, t: string) {
    t in {MARKER, CUT_OFF, TRUNCATED} || t in PUBLIC_KEYS || t in LIMIT_NAMES || IsPlaceholder(digest, t)
  }

  /** Redacting a redacted text again changes nothing, under both limits. */
  ghost predicate LeafIdempotent(pat: Patterns) {
    forall l: nat, s: string | IsLimit(l) :: IsFixedText(pat, l, s)
  }

  ghost predicate IsFixedText(pat: Patterns, l: nat, s: string) {
    RedactedText(pat, l, RedactedText(pat, l, s)) == RedactedText(pat, l, s)
  }

  /** The patterns find no structural span in the redacted text. */
  ghost predicate IsQuietText(pat: Patterns, l: nat, s: string) { Structural(pat, RedactedText(pat, l, s)) == [] }

  lemma {:induction false} OwnNameIsPlain(pat: Patterns, name: string)
    requires Untouched(pat, name)
    ensures !LeafSecret(pat)(name)
  {
    UntouchedIsResult(pat, Unbounded(), name);
  }

  lemma {:induction false} ShortOwnTextKept(pat: Patterns, l: nat, s: string)
    requires Untouched(pat, s) && |s| <= l
    ensures LeafText(pat)(l, s) == s
  {
    UntouchedIsResult(pat, TextBound(l), s);
  }

  lemma {:induction false} LeafTextSteady(pat: Patterns)
    requires LeafIdempotent(pat) && Untouched(pat, MARKER) && Untouched(pat, CUT_OFF)
    ensures TextSteady(LeafText(pat))
  {
    var text := LeafText(pat);
    forall l: nat, s: string | IsLimit(l) ensures text(l, text(l, s)) == text(l, s) { LeafFixed(pat, l, s); }
    forall l: nat | IsLimit(l) ensures text(l, MARKER) == MARKER && text(l, CUT_OFF) == CUT_OFF {
      ShortOwnTextKept(pat, l, MARKER);
      ShortOwnTextKept(pat, l, CUT_OFF);
    }
    forall l: nat, s: string | IsLimit(l) && IsVaulted(s) ensures text(l, s) == s { VaultedKept(pat, l, s); }
  }

  lemma {:induction false} LeafFixed(pat: Patterns, l: nat, s: string)
    requires LeafIdempotent(pat) && IsLimit(l)
    ensures LeafText(pat)(l, LeafText(pat)(l, s)) == LeafText(pat)(l, s)
  {
    assert IsFixedText(pat, l, s);
  }

  lemma {:induction false} VaultedKept(pat: Patterns, l: nat, s: string)
    requires IsVaulted(s)
    ensures LeafText(pat)(l, s) == s
  {
  }

  lemma {:induction false} LeafNamesSteady(pat: Patterns, digest: string -> string)
    requires forall t: string | IsOwn(digest, t) :: Untouched(pat, t)
    requires forall n: string :: forall i | 0 <= i < |digest(n)| :: IsLowerHex(digest(n)[i])
    ensures NamesSteady(LeafSecret(pat), digest)
  {
    forall t: string | IsOwn(digest, t) ensures !LeafSecret(pat)(t) { OwnNameIsPlain(pat, t); }
    assert IsOwn(digest, TRUNCATED);
    assert forall name | name in PUBLIC_KEYS :: IsOwn(digest, name);
    assert forall name | name in LIMIT_NAMES :: IsOwn(digest, name);
    assert forall p: string | IsPlaceholder(digest, p) :: IsOwn(digest, p);
  }

  /**
   The stored parameters are stable for the source's redactor and name check over any patterns that
   leave the ledger's own literals and names alone and redact idempotently.
   */
  lemma {:induction false} StoredParamsAreStable(pat: Patterns, digest: string -> string, first: Order, second: Order,
                                                 params: map<string, Json>)
    requires LeafIdempotent(pat) && forall t: string | IsOwn(digest, t) :: Untouched(pat, t)
    requires forall n: string :: forall i | 0 <= i < |digest(n)| :: IsLowerHex(digest(n)[i])
    requires Lists(first) && Lists(second)
    ensures var r := LedgerRules(LeafText(pat), LeafSecret(pat), digest);
            var stored := LedgerNormalized(r, first, params);
            LedgerNormalized(r, second, stored) == stored
  {
    assert IsOwn(digest, MARKER) && IsOwn(digest, CUT_OFF);
    LeafTextSteady(pat);
    LeafNamesSteady(pat, digest);
    NormalizedParamsStable(LeafText(pat), LeafSecret(pat), digest, first, second, params);
  }

  /** Results in which the patterns find no structural span make the leaf redactor idempotent. */
  lemma {:induction false} QuietLeafIsIdempotent(pat: Patterns)
    requires Untouched(pat, MARKER) && LeafIsQuiet(pat)
    ensures LeafIdempotent(pat)
  {
    forall l: nat, s: string | IsLimit(l) ensures IsFixedText(pat, l, s) { QuietLeafIsFixed(pat, l, s); }
  }

  ghost predicate LeafIsQuiet(pat: Patterns) { forall l: nat, s: string | IsLimit(l) :: IsQuietText(pat, l, s) }

  lemma {:induction false} QuietLeafIsFixed(pat: Patterns, l: nat, s: string)
    requires Untouched(pat, MARKER) && LeafIsQuiet(pat) && IsLimit(l)
    ensures IsFixedText(pat, l, s)
  {
    assert IsQuietText(pat, l, s);
    QuietTextIsFixed(pat, l, s);
  }

  lemma {:induction false} QuietTextIsFixed(pat: Patterns, l: nat, s: string)
    requires Untouched(pat, MARKER) && |MARKER| <= l && IsQuietText(pat, l, s)
    ensures IsFixedText(pat, l, s)
  {
    QuietResultIsFixed(pat, TextBound(l), s);
  }
}
