/** Protected backend exchanges: every way they end gives one legal result, and success has one way only. */
module Transport {
  import opened FixedPoint
  import opened Json
  import opened Ordering
  import opened ClosedResult

  const INDETERMINATE := "indeterminate"
  const SCOPES := {
    "netbox-proxbox", "nmulticloud-org", "nmulticloud-org-root", "proxbox-api", "release-netbox-proxbox-build",
    "release-netbox-proxbox-validation", "release-proxbox-api-build", "release-proxbox-api-validation"}
  const FIRST_SCOPE := "netbox-proxbox"
  const LANE := "root-python312"
  const LANE_SCOPE := "nmulticloud-org-root"
  const RESET_STATES := {
    "not_started", "rotated", "already_inactive", "reconciled_expected_active", "reconciled_expected_inactive",
    "reconciled_no_active", "failed", INDETERMINATE}

  /** `_BackendTransportPolicy`: the kind and the values a response is bound to; `lane` is the frozen lane contract. */
  datatype Policy =
    | Upgrade
    | Dns(commit: string)
    | Runner(operation: string, scope: string, digest: Json, fence: Json, generation: Json)
    | OrgRunner(operation: string, laneName: string, scope: string, digest: Json, fence: Json, generation: Json,
                lane: map<string, Json>)
  {
    /** The lane contract uses none of the result's own names. */
    ghost predicate WellFormed() { OrgRunner? ==> lane.Keys !! Elements(ORG_NAMES) }
  }

  // ----- Result schemas -----

  const YES := Is(Bool(true))
  const NO := Is(Bool(false))
  const NULL := Is(Null)
  const MAYBE := Truth(true)
  function Text(s: string): Check { Is(Str(s)) }

  const UPGRADE_NAMES := ["ok", "procedure", "target", "changed", "healthy", "stage"]
  const UPGRADE_PROCEDURE := Str("service.gitea.production.upgrade_1_27_1")
  const UPGRADE_TARGET := Str("Gitea")

  function UpgradeSchema(): Schema {
    Schema(UPGRADE_NAMES,
           [Truth(false), Is(UPGRADE_PROCEDURE), Is(UPGRADE_TARGET), MAYBE, MAYBE,
            Word({"execute", "rolled_back", "complete", INDETERMINATE})],
           [[YES, Anything, Anything, YES, YES, Text("complete")],
            [YES, Anything, Anything, NO, YES, Text("complete")],
            [NO, Anything, Anything, NO, NO, Text("execute")],
            [NO, Anything, Anything, NO, YES, Text("rolled_back")],
            [NO, Anything, Anything, YES, NO, Text("complete")],
            [NO, Anything, Anything, NULL, NULL, Text(INDETERMINATE)]],
           map[])
  }

  const DNS_NAMES := ["ok", "procedure", "target", "commit_sha", "deployed", "stage"]
  const DNS_PROCEDURE := Str("service.netbox.staging.deploy_dns_pair")
  const DNS_TARGET := Str("nms-front-door")

  function DnsSchema(): Schema {
    Schema(DNS_NAMES,
           [Truth(false), Is(DNS_PROCEDURE), Is(DNS_TARGET), Hex(40, false, false), MAYBE,
            Word({"execute", "complete", INDETERMINATE})],
           [[YES, Anything, Anything, Anything, YES, Text("complete")],
            [NO, Anything, Anything, Anything, NO, Text("execute")],
            [NO, Anything, Anything, Anything, NULL, Text(INDETERMINATE)]],
           map[])
  }

  const RUNNER_NAMES := [
    "ok", "procedure", "target", "operation", "scope", "fence_execution_id", "fence_generation", "registered",
    "reconciled", "token_invalidated", "token_reset_required", "token_sha256", "reset_state", "prior_token_id",
    "prior_active_sha256", "replacement_token_id", "stage"]
  const RUNNER_PROCEDURE := Str("service.gitea.runner.register")
  const RUNNER_TARGET := Str("nmultifibra-ci-untrusted-01")
  const RUNNER_STAGES := {"generate_token", "register", "reset", "reconcile", "complete", INDETERMINATE}
  const RUNNER_OPERATIONS := {"reconcile", "register"}

  /** A property that no alternative of the `oneOf` mentions, or that it types as `checks` already does. */
  const ID := Count(MAX_SAFE_INTEGER, false)
  const MAYBE_ID := Count(MAX_SAFE_INTEGER, true)

  function RunnerState(ok: Check, operation: string, registered: Check, reconciled: Check, invalidated: Check,
                       required: Check, digest: Check, reset: Check, prior: Check, active: Check, replacement: Check,
                       stage: Check): seq<Check> {
    [ok, Anything, Anything, Text(operation), Anything, Anything, Anything, registered, reconciled, invalidated,
     required, digest, reset, prior, active, replacement, stage]
  }

  function RunnerSchema(): Schema {
    var sha, maybeSha := Hex(64, false, true), Hex(64, true, true);
    var done, open := Word({"rotated", "already_inactive"}), Word({"failed", INDETERMINATE});
    Schema(RUNNER_NAMES,
           [Truth(false), Is(RUNNER_PROCEDURE), Is(RUNNER_TARGET), Word(RUNNER_OPERATIONS), Word(SCOPES), MAYBE_ID, ID,
            MAYBE, MAYBE, Truth(false), Truth(false), maybeSha, Word(RESET_STATES), MAYBE_ID, maybeSha, MAYBE_ID,
            Word(RUNNER_STAGES)],
           [RunnerState(YES, "register", YES, NULL, YES, NO, sha, done, ID, NULL, ID, Text("complete")),
            RunnerState(NO, "register", NO, NULL, NO, NO, NULL, Text("not_started"), NULL, NULL, NULL,
                        Text("generate_token")),
            RunnerState(NO, "register", MAYBE, NULL, YES, NO, sha, done, ID, NULL, ID,
                        Word({"register", INDETERMINATE})),
            RunnerState(NO, "register", MAYBE, NULL, NO, YES, maybeSha, open, MAYBE_ID, NULL, MAYBE_ID,
                        Word({"register", "reset", INDETERMINATE})),
            RunnerState(YES, "reconcile", NULL, YES, YES, NO, sha,
                        Word({"reconciled_expected_active", "reconciled_expected_inactive", "reconciled_no_active"}),
                        MAYBE_ID, maybeSha, ID, Text("complete")),
            RunnerState(NO, "reconcile", NULL, MAYBE, NO, YES, sha, open, MAYBE_ID, maybeSha, MAYBE_ID,
                        Word({"reconcile", INDETERMINATE}))],
           map[])
  }

  const ORG_NAMES := [
    "ok", "procedure", "target", "operation", "scope", "lane", "fence_execution_id", "fence_generation", "provisioned",
    "registered", "reconciled", "stage", "organization", "gitea_instance_url", "token_invalidated",
    "token_reset_required", "token_sha256", "reset_state", "prior_token_id", "prior_active_sha256",
    "replacement_token_id"]
  const ORG_PROCEDURE := Str("service.gitea.actions_runner.provision_org_ci_runner")
  const ORG_TARGET := Str("Gitea-Runner")
  const ORGANIZATION := Str("N-MultiCloud")
  const INSTANCE_URL := Str("http://10.0.30.96:3000")
  const ORG_STAGES := {
    "preconditions", "docker", "image", "config", "register", "start", "verify", "reset", "reconcile", "complete",
    INDETERMINATE}
  const ORG_OPERATIONS := {"provision", "reconcile"}

  function OrgState(ok: Check, operation: string, provisioned: Check, registered: Check, reconciled: Check,
                    stage: Check, invalidated: Check, required: Check, digest: Check, reset: Check, prior: Check,
                    active: Check, replacement: Check): seq<Check> {
    [ok, Anything, Anything, Text(operation), Anything, Anything, Anything, Anything, provisioned, registered,
     reconciled, stage, Anything, Anything, invalidated, required, digest, reset, prior, active, replacement]
  }

  function OrgSchema(lane: map<string, Json>): Schema {
    var sha, maybeSha := Hex(64, false, false), Hex(64, true, false);
    var done, open := Word({"rotated", "already_inactive"}), Word({"failed", INDETERMINATE});
    Schema(ORG_NAMES,
           [Truth(false), Is(ORG_PROCEDURE), Is(ORG_TARGET), Word(ORG_OPERATIONS), Text(LANE_SCOPE), Text(LANE),
            MAYBE_ID, ID, MAYBE, MAYBE, MAYBE, Word(ORG_STAGES),
            Is(ORGANIZATION), Is(INSTANCE_URL), Truth(false), Truth(false), maybeSha, Word(RESET_STATES),
            MAYBE_ID, maybeSha, MAYBE_ID],
           [OrgState(YES, "provision", YES, YES, NULL, Text("complete"), YES, NO, sha, done, ID, Anything, ID),
            OrgState(NO, "provision", NO, NO, NULL, Word({"preconditions", "docker", "image", "config"}), NO, NO, NULL,
                     Text("not_started"), NULL, NULL, NULL),
            OrgState(NO, "provision", MAYBE, MAYBE, NULL, Word({"register", "start", "verify", INDETERMINATE}), YES,
                     NO, sha, done, ID, Anything, ID),
            OrgState(NO, "provision", MAYBE, MAYBE, NULL,
                     Word({"register", "start", "verify", "reset", INDETERMINATE}), NO, YES,
                     Anything, open, Anything, Anything, Anything),
            OrgState(YES, "reconcile", NULL, NULL, YES, Text("complete"), YES, NO, sha,
                     Word({"reconciled_expected_active", "reconciled_expected_inactive", "reconciled_no_active"}),
                     Anything, Anything, ID),
            OrgState(NO, "reconcile", NULL, NULL, MAYBE, Word({"reconcile", INDETERMINATE}), NO, YES, sha, open,
                     Anything, Anything, MAYBE_ID)],
           lane)
  }

  function SchemaOf(p: Policy): Schema {
    match p
    case Upgrade => UpgradeSchema()
    case Dns(_) => DnsSchema()
    case Runner(_, _, _, _, _) => RunnerSchema()
    case OrgRunner(_, _, _, _, _, _, lane) => OrgSchema(lane)
  }

  // ----- Failures -----

  function Zeros(n: nat): string { seq(n, _ => '0') }

  function SafeCommit(commit: string): string { if |commit| == 40 && IsHex(commit) then commit else Zeros(40) }

  function SafeDigest(digest: Json): string {
    if digest.Str? && |digest.s| == 64 && IsHex(digest.s) then digest.s else Zeros(64)
  }

  predicate SafeCount(v: Json) { v.Int? && 0 < v.n <= MAX_SAFE_INTEGER }

  function SafeFence(v: Json): Json { if SafeCount(v) then v else Null }

  function SafeGeneration(v: Json): Json { if SafeCount(v) then v else Int(1) }

  function SafeOperation(p: Policy): string
    requires p.Runner? || p.OrgRunner?
  {
    if p.Runner? then if p.operation in RUNNER_OPERATIONS then p.operation else "register"
    else if p.operation in ORG_OPERATIONS then p.operation else "provision"
  }

  function SafeScope(scope: string): string { if scope in SCOPES then scope else FIRST_SCOPE }

  function RunnerRow(operation: string, scope: string, fence: Json, generation: Json, registered: Json,
                     reconciled: Json, required: bool, digest: Json, reset: string, stage: string): Row {
    [Bool(false), RUNNER_PROCEDURE, RUNNER_TARGET, Str(operation), Str(scope), fence, generation, registered,
     reconciled, Bool(false), Bool(required), digest, Str(reset), Null, Null, Null, Str(stage)]
  }

  /** The values of `_gitea_runner_transport_failure_response`. */
  function RunnerFailure(p: Policy, stage: string): Row
    requires p.Runner?
  {
    var operation, scope := SafeOperation(p), SafeScope(p.scope);
    var fence, generation := SafeFence(p.fence), SafeGeneration(p.generation);
    if operation == "reconcile" then
      RunnerRow(operation, scope, fence, generation, Null, Bool(false), true, Str(SafeDigest(p.digest)), INDETERMINATE,
                if stage == "generate_token" then "reconcile" else stage)
    else if stage == INDETERMINATE then
      RunnerRow(operation, scope, fence, generation, Null, Null, true, Null, INDETERMINATE, stage)
    else
      RunnerRow(operation, scope, fence, generation, Bool(false), Null, false, Null, "not_started", stage)
  }

  function OrgRow(operation: string, fence: Json, generation: Json, provisioned: Json, reconciled: Json, stage: string,
                  required: bool, digest: Json, reset: string): Row {
    [Bool(false), ORG_PROCEDURE, ORG_TARGET, Str(operation), Str(LANE_SCOPE), Str(LANE), fence, generation,
     provisioned, provisioned, reconciled, Str(stage), ORGANIZATION, INSTANCE_URL, Bool(false), Bool(required), digest,
     Str(reset), Null, Null, Null]
  }

  /** The values of `_gitea_org_ci_runner_transport_failure_response`; the only lane has one scope. */
  function OrgFailure(p: Policy, stage: string): Row
    requires p.OrgRunner?
  {
    var operation, fence, generation := SafeOperation(p), SafeFence(p.fence), SafeGeneration(p.generation);
    if operation == "reconcile" then
      OrgRow(operation, fence, generation, Null, Bool(false), if stage == INDETERMINATE then stage else "reconcile",
             true, Str(SafeDigest(p.digest)), INDETERMINATE)
    else if stage == INDETERMINATE then
      OrgRow(operation, fence, generation, Null, Null, stage, true, Null, INDETERMINATE)
    else
      OrgRow(operation, fence, generation, Bool(false), Null, stage, false, Null, "not_started")
  }

  function FailureRow(p: Policy, stage: string): Row {
    var known := if stage == INDETERMINATE then Null else Bool(false);
    match p
    case Upgrade => [Bool(false), UPGRADE_PROCEDURE, UPGRADE_TARGET, known, known, Str(stage)]
    case Dns(commit) => [Bool(false), DNS_PROCEDURE, DNS_TARGET, Str(SafeCommit(commit)), known, Str(stage)]
    case Runner(_, _, _, _, _) => RunnerFailure(p, stage)
    case OrgRunner(_, _, _, _, _, _, _) => OrgFailure(p, stage)
  }

  /** `_CONNECT_FAILURE_STAGES`. */
  function ConnectStage(p: Policy): string {
    match p
    case Upgrade => "execute"
    case Dns(_) => "execute"
    case Runner(_, _, _, _, _) => "generate_token"
    case OrgRunner(_, _, _, _, _, _, _) => "preconditions"
  }

  /** `_closed_backend_transport_failure`. */
  function Failure(p: Policy, stage: string): Closed {
    Closed(false, Build(SchemaOf(p), FailureRow(p, stage)))
  }

  // ----- The exchange -----

  /** How an exchange ends: out of time, no answer, an unreadable answer, or a decoded body. */
  datatype Exchange =
    | OutOfTime
    | Unreachable(connectTimeout: bool)
    | Unreadable(status: int)
    | Answered(status: int, data: Json)

  predicate IsNumber(v: Json) { v.Bool? || v.Int? || v.Float? }

  function Number(v: Json): real
    requires IsNumber(v)
  {
    match v
    case Bool(b) => if b then 1.0 else 0.0
    case Int(n) => n as real
    case Float(r) => r
  }

  /** Python equality of scalars: numbers and booleans compare by value. */
  predicate SameScalar(a: Json, b: Json) {
    if IsNumber(a) && IsNumber(b) then Number(a) == Number(b) else a == b
  }

  /** The result answers the request that was made. */
  predicate Bound(p: Policy, result: Json) {
    match p
    case Upgrade => true
    case Dns(commit) => result.Get("commit_sha") == Str(commit)
    case Runner(operation, scope, _, fence, generation) =>
      && result.Get("operation") == Str(operation) && result.Get("scope") == Str(scope)
      && SameScalar(result.Get("fence_execution_id"), fence) && SameScalar(result.Get("fence_generation"), generation)
    case OrgRunner(operation, laneName, scope, _, fence, generation, _) =>
      && result.Get("operation") == Str(operation) && result.Get("lane") == Str(laneName)
          && result.Get("scope") == Str(scope)
      && SameScalar(result.Get("fence_execution_id"), fence) && SameScalar(result.Get("fence_generation"), generation)
  }

  const ENVELOPE := {"ok", "result", "events", "error_code", "error_message"}

  /** The `_normalize_*_closed_response` family; `bound` says that the result answers the request. */
  ghost function Accepted(s: Schema, data: Json, bound: bool): Option<Closed> {
    if !data.Obj? || data.fields.Keys != ENVELOPE then None
    else
      var ok, result := data.Get("ok"), data.Get("result");
      var code, message := data.Get("error_code"), data.Get("error_message");
      if !ok.Bool? || !result.Obj? || result.Get("ok") != ok || !bound then None
      else if data.Get("events") != Arr([]) || !code.Str? || !message.Str? then None
      else if ok.b && (code.s != "" || message.s != "") then None
      else if !Valid(s, result) then None
      else Some(Closed(ok.b, result))
  }

  ghost function Normalized(p: Policy, data: Json): Option<Closed> {
    Accepted(SchemaOf(p), data, Bound(p, data.Get("result")))
  }

  /** `_call_backend_with_plan`: which of its three sources the outcome is taken from. */
  function Concluded(e: Exchange, connect: Closed, lost: Closed, accepted: Option<Closed>): Closed {
    match e
    case OutOfTime => lost
    case Unreachable(connectTimeout) => if connectTimeout then connect else lost
    case Unreadable(_) => lost
    case Answered(status, _) =>
      if 300 <= status < 400 then lost
      else if accepted.None? || !(200 <= status < 300 || !accepted.value.ok) then lost
      else accepted.value
  }

  /** `_call_backend` for the protected kinds. */
  ghost function Outcome(p: Policy, e: Exchange): Closed {
    Concluded(e, Failure(p, ConnectStage(p)), Failure(p, INDETERMINATE),
              if e.Answered? then Normalized(p, e.data) else None)
  }
}
