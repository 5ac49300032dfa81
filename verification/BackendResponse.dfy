/** The terminal decision for a backend response, and the events that it appends to the ledger. */
module BackendResponse {
  import opened FixedPoint
  import opened Json
  import opened LedgerForm
  import opened SchemaRelaxation

  const MISMATCH_CODE := "RPC_RESULT_SCHEMA_MISMATCH"
  const FAILED_CODE := "RPC_EXECUTION_FAILED"
  const ENQUEUE_FAILED_CODE := "RPC_ENQUEUE_FAILED"
  const RESULT := "result"

  /** `_ResponseContract`. */
  datatype Contract = Contract(staging: bool, dns: bool, gitea: bool, isProtected: bool, envelope: bool) {
    predicate Dedicated() { gitea || staging || dns }
  }

  const STAGING_ROTATE := "service.netbox.staging.rotate_backend_token"
  const STAGING_DEPLOY := "service.netbox.staging.deploy_dns_pair"
  const GITEA_UPGRADE := "service.gitea.production.upgrade_1_27_1"

  /** `_response_contract`, over the protected and the installer procedure names. */
  function ContractOf(name: string, protectedNames: set<string>, installers: set<string>): Contract {
    Contract(name == STAGING_ROTATE, name == STAGING_DEPLOY, name == GITEA_UPGRADE,
             name in protectedNames, name in protectedNames || name in installers)
  }

  /** What a response is judged against, and the foreign functions the judgement uses. */
  datatype Context = Context(
    contract: Contract,
    schema: Option<Schema>,
    limits: map<Path, int>,
    rules: Rules,
    order: Order,
    valid: (nat, Json) -> bool,
    show: Json -> string,
    name: string -> string,
    diagnose: Json -> (string, string),
    explain: (Reason, Json) -> string,
    commit: Json)

  /** The reasons for a mismatch, each with its own fixed message. */
  datatype Reason =
    | OkNotBoolean | ResultMissing | ResultNotObject | OkDisagrees
    | EventsForbidden | UnexpectedProperty | CommitDiffers | SchemaFailed

  /** The terminal event of a response, as it is handed to the ledger. */
  datatype Terminal = Succeeded(result: Json) | Failed(code: string, text: string, result: Json)

  predicate Truthy(v: Json) {
    match v
    case Null => false
    case Bool(b) => b
    case Int(n) => n != 0
    case Float(r) => r != 0.0
    case Str(s) => s != ""
    case Arr(items) => items != []
    case Obj(fields) => fields != map[]
  }

  /** `_is_catalog_error_code`. */
  predicate IsCatalogCode(code: string) {
    && 1 <= |code| <= 100 && 'A' <= code[0] <= 'Z'
    && forall i | 0 <= i < |code| :: 'A' <= code[i] <= 'Z' || '0' <= code[i] <= '9' || code[i] == '_'
  }

  /** `_persistable_failure_event`, for the fallback code of the event's type. */
  function Persistable(code: string, fallback: string): (r: string)
    requires IsCatalogCode(fallback)
    ensures IsCatalogCode(r)
    ensures IsCatalogCode(code) ==> r == code
    ensures !IsCatalogCode(code) ==> r == fallback
  {
    if IsCatalogCode(code) then code else fallback
  }

  lemma {:induction false} FallbacksAreCatalog()
    ensures IsCatalogCode(FAILED_CODE) && IsCatalogCode(ENQUEUE_FAILED_CODE)
  {
  }

  lemma {:induction false} MismatchCodeIsCatalog()
    ensures IsCatalogCode(MISMATCH_CODE)
  {
  }

  function Persist(v: Json): Json { if v.Obj? then v else Obj(map[]) }

  /** `_skips_result_validation`. */
  predicate Skips(c: Contract, response: Json) {
    && !c.Dedicated() && response.Get("ok") == Bool(false)
    && (response.Has(RESULT) ==> response.Get(RESULT) == Obj(map[]))
    && response.Get("error_code").Str? && IsCatalogCode(response.Get("error_code").s)
  }

  // ----- Mismatches -----

  /** `_envelope_ok_state_mismatch`. */
  function OkMismatch(response: Json): Option<Reason> {
    var raw := response.Get(RESULT);
    if !response.Get("ok").Bool? then Some(OkNotBoolean)
    else if !response.Has(RESULT) then Some(ResultMissing)
    else if !raw.Obj? then Some(ResultNotObject)
    else if !raw.Get("ok").Bool? || raw.Get("ok") != response.Get("ok") then
      Some(OkDisagrees)
    else None
  }

  /** `_protected_backend_response_mismatch`. */
  function ProtectedMismatch(response: Json): Option<Reason> {
    var m := OkMismatch(response);
    if m.Some? then m
    else if response.Get("events") !in {Null, Arr([])} then
      Some(EventsForbidden)
    else None
  }

  /** `_envelope_response_mismatch`. */
  function EnvelopeMismatch(x: Context, response: Json): Option<Reason> {
    var c, raw := x.contract, response.Get(RESULT);
    if c.gitea then
      if response.Obj? && response.fields.Keys == {"ok", RESULT} then ProtectedMismatch(response)
      else Some(UnexpectedProperty)
    else if c.staging then ProtectedMismatch(response)
    else if c.dns then
      var m := ProtectedMismatch(response);
      if m.None? && raw.Obj? && raw.Get("commit_sha") != x.commit
      then Some(CommitDiffers) else m
    else if c.envelope then OkMismatch(response)
    else None
  }

  /** `_backend_result_schema_mismatch`. */
  function SchemaMismatch(x: Context, schema: Schema, v: Json): Option<Reason> {
    if SchemaRelaxation.Valid(x.valid, schema, v) then None else Some(SchemaFailed)
  }

  function LedgerResult(x: Context, result: Json): Json
    requires Lists(x.order)
  {
    Redact(x.rules, x.order, Obj(map[RESULT := result]), "", [], 0).Get(RESULT)
  }

  /** `_response_schema_mismatch`. */
  function ResponseMismatch(x: Context, response: Json): Option<Reason>
    requires Lists(x.order)
  {
    var raw := response.Get(RESULT);
    var shouldValidate := Truthy(response.Get("ok")) || response.Has(RESULT) || x.contract.envelope;
    var m := EnvelopeMismatch(x, response);
    if m.Some? || !shouldValidate || x.schema.None? then m
    else
      var first := SchemaMismatch(x, Strip(x.schema.value, x.limits, []), raw);
      if first.Some? then first else SchemaMismatch(x, x.schema.value, LedgerResult(x, Persist(raw)))
  }

  function Mismatch(x: Context, response: Json): Option<Reason>
    requires Lists(x.order)
  {
    if Skips(x.contract, response) then None else ResponseMismatch(x, response)
  }

  // ----- Events -----

  /** `_backend_failure_fields`. */
  function FailureFields(x: Context, response: Json): (string, string) {
    if x.contract.gitea && response.Get(RESULT).Obj? then x.diagnose(response.Get(RESULT))
    else
      var code, text := response.Get("error_code"), response.Get("error_message");
      (if Truthy(code) then x.show(code) else "", if Truthy(text) then x.show(text) else "")
  }

  /** `_record_backend_terminal_event`: which event it appends. */
  function TerminalEvent(x: Context, response: Json): Terminal
    requires Lists(x.order)
  {
    var raw, m := response.Get(RESULT), Mismatch(x, response);
    var (code, text) := FailureFields(x, response);
    if Truthy(response.Get("ok")) && m.None? then Succeeded(Persist(raw))
    else if m.Some? then Failed(MISMATCH_CODE, x.explain(m.value, response), Obj(map[]))
    else
      Failed(if code == "" then FAILED_CODE else code,
             if Skips(x.contract, response) then "Backend reported " + code + "." else text, Persist(raw))
  }

  // ----- Success -----

  /** The closed envelope that the procedure's contract demands, said outright. */
  predicate EnvelopeHolds(x: Context, response: Json) {
    var c, ok, raw := x.contract, response.Get("ok"), response.Get(RESULT);
    && (c.envelope || c.Dedicated() ==> ok.Bool? && raw.Obj? && raw.Get("ok") == ok)
    && (c.Dedicated() ==> response.Get("events") == Null || response.Get("events") == Arr([]))
    && (c.gitea ==> response.Obj? && response.fields.Keys == {"ok", RESULT})
    && (!c.gitea && !c.staging && c.dns ==> raw.Get("commit_sha") == x.commit)
  }

  lemma {:induction false} EnvelopeHoldsExactly(x: Context, response: Json)
    ensures EnvelopeMismatch(x, response).None? <==> EnvelopeHolds(x, response)
  {
  }

  /** What each reason for a mismatch says about the response. */
  ghost predicate Applies(x: Context, response: Json, reason: Reason)
    requires Lists(x.order)
  {
    var c, ok, raw := x.contract, response.Get("ok"), response.Get(RESULT);
    match reason
    case OkNotBoolean => !ok.Bool?
    case ResultMissing => ok.Bool? && !response.Has(RESULT)
    case ResultNotObject => response.Has(RESULT) && !raw.Obj?
    case OkDisagrees => ok.Bool? && raw.Obj? && raw.Get("ok") != ok
    case EventsForbidden => c.Dedicated() && response.Get("events") != Null && response.Get("events") != Arr([])
    case UnexpectedProperty => c.gitea && !(response.Obj? && response.fields.Keys == {"ok", RESULT})
    case CommitDiffers => c.dns && raw.Get("commit_sha") != x.commit
    case SchemaFailed =>
      && EnvelopeHolds(x, response) && x.schema.Some?
      && (|| !SchemaRelaxation.Valid(x.valid, Strip(x.schema.value, x.limits, []), raw)
          || !SchemaRelaxation.Valid(x.valid, x.schema.value, LedgerResult(x, Persist(raw))))
  }

  /** The reason that a mismatch is recorded with applies to the response. */
  lemma {:induction false} ReasonApplies(x: Context, response: Json)
    requires Lists(x.order) && Mismatch(x, response).Some?
    ensures Applies(x, response, Mismatch(x, response).value)
  {
    EnvelopeHoldsExactly(x, response);
  }

  /** A response with a result is accepted exactly when its envelope and both schema passes hold. */
  lemma {:induction false} AcceptedExactly(x: Context, response: Json)
    requires Lists(x.order) && x.schema.Some? && response.Has(RESULT) && !Skips(x.contract, response)
    ensures Mismatch(x, response).None? <==>
            && EnvelopeHolds(x, response)
            && SchemaRelaxation.Valid(x.valid, Strip(x.schema.value, x.limits, []), response.Get(RESULT))
            && SchemaRelaxation.Valid(x.valid, x.schema.value, LedgerResult(x, Persist(response.Get(RESULT))))
  {
    EnvelopeHoldsExactly(x, response);
  }

  /**
   Success is recorded exactly when the response claims it, the envelope holds, the raw result passes
   the relaxed schema, and the redacted result passes the full schema.
   */
  lemma {:induction false} SuccessIsEarned(x: Context, response: Json)
    requires Lists(x.order)
    ensures TerminalEvent(x, response).Succeeded? <==>
            && Truthy(response.Get("ok")) && EnvelopeHolds(x, response)
            && (x.schema.Some? ==>
                  && SchemaRelaxation.Valid(x.valid, Strip(x.schema.value, x.limits, []), response.Get(RESULT))
                  && SchemaRelaxation.Valid(x.valid, x.schema.value, LedgerResult(x, Persist(response.Get(RESULT)))))
    ensures TerminalEvent(x, response).Succeeded? ==> TerminalEvent(x, response).result == Persist(response.Get(RESULT))
    ensures TerminalEvent(x, response).Succeeded? && x.contract.envelope ==>
              response.Get("ok") == Bool(true) && response.Get(RESULT).Get("ok") == Bool(true)
  {
    EnvelopeHoldsExactly(x, response);
  }

  // ----- Results that redaction makes unstorable -----

  /** A schema under which `key` is required and never a string. */
  ghost predicate DemandsNonString(x: Context, key: string) {
    && x.schema.Some? && x.schema.value.Schema? && key in x.schema.value.properties
    && (forall v: Json | SchemaRelaxation.Valid(x.valid, Strip(x.schema.value, x.limits, []), v) ::
          v.Obj? && key in v.fields)
    && (forall s: string :: !SchemaRelaxation.Valid(x.valid, x.schema.value.properties[key], Str(s)))
  }

  /**
   When a result schema demands a non-string under a sensitive key, no response succeeds unless it
   puts a boolean or public metadata there: redaction stores the marker string instead.
   */
  lemma {:induction false} SensitiveFieldBlocksSuccess(x: Context, response: Json, key: string)
    requires Lists(x.order) && DemandsNonString(x, key)
    requires x.rules.sensitive(key) && !x.rules.policy(key) && !x.rules.policy("") && !x.rules.sensitive("")
    requires !x.rules.policy(RESULT) && !x.rules.sensitive(RESULT)
    requires !x.rules.secret(RESULT) && forall k | k in Persist(response.Get(RESULT)).fields :: !x.rules.secret(k)
    requires |Persist(response.Get(RESULT)).fields| <= MAX_DICT
    requires var v := response.Get(RESULT).Get(key); !v.Bool? && x.rules.public(v, key).None?
    ensures !TerminalEvent(x, response).Succeeded?
  {
    var raw := response.Get(RESULT);
    if TerminalEvent(x, response).Succeeded? {
      SuccessIsEarned(x, response);
      assert raw.Obj? && key in raw.fields;
      LedgerFieldIsString(x, raw.fields, key);
    }
  }

  lemma {:induction false} LedgerFieldIsString(x: Context, fields: map<string, Json>, key: string)
    requires Lists(x.order) && key in fields && |fields| <= MAX_DICT
    requires x.rules.sensitive(key) && !x.rules.policy(key) && !x.rules.policy("") && !x.rules.sensitive("")
    requires !x.rules.policy(RESULT) && !x.rules.sensitive(RESULT)
    requires !x.rules.secret(RESULT) && forall k | k in fields :: !x.rules.secret(k)
    requires !fields[key].Bool? && x.rules.public(fields[key], key).None?
    ensures LedgerResult(x, Obj(fields)).Has(key) && LedgerResult(x, Obj(fields)).fields[key].Str?
  {
    NestedSensitiveIsString(x.rules, x.order, RESULT, fields, key, "", [], 0);
  }
}
