/** What the protected exchanges guarantee. */
module TransportOutcome {
  import opened FixedPoint
  import opened Json
  import opened Ordering
  import opened ClosedResult
  import opened Transport

  // ----- The schemas -----

  lemma {:induction false} RunnerSeparate(i: nat, j: nat)
    requires i < j < 6
    ensures var states := RunnerSchema().states; |states| == 6 && Separate(states[i], states[j])
  {
    var a, b := RunnerSchema().states[i], RunnerSchema().states[j];
    assert Clash(a[0], b[0]) || Clash(a[3], b[3]) || Clash(a[9], b[9]) || Clash(a[10], b[10]);
  }

  lemma {:induction false} OrgSeparate(lane: map<string, Json>, i: nat, j: nat)
    requires i < j < 6
    ensures var states := OrgSchema(lane).states; |states| == 6 && Separate(states[i], states[j])
  {
    var a, b := OrgSchema(lane).states[i], OrgSchema(lane).states[j];
    assert Clash(a[0], b[0]) || Clash(a[3], b[3]) || Clash(a[14], b[14]) || Clash(a[15], b[15]);
  }

  lemma {:induction false} UpgradeSeparate(i: nat, j: nat)
    requires i < j < 6
    ensures var states := UpgradeSchema().states; |states| == 6 && Separate(states[i], states[j])
  {
    var a, b := UpgradeSchema().states[i], UpgradeSchema().states[j];
    assert Clash(a[0], b[0]) || Clash(a[3], b[3]) || Clash(a[4], b[4]);
  }

  lemma {:induction false} DnsSeparate(i: nat, j: nat)
    requires i < j < 3
    ensures var states := DnsSchema().states; |states| == 3 && Separate(states[i], states[j])
  {
    var a, b := DnsSchema().states[i], DnsSchema().states[j];
    assert Clash(a[4], b[4]);
  }

  /** The alternatives of every result schema exclude each other: no object is in two of them. */
  lemma {:induction false} StatesAreExclusive(p: Policy)
    ensures Exclusive(SchemaOf(p).states)
  {
    var states := SchemaOf(p).states;
    forall i, j | 0 <= i < j < |states| ensures Separate(states[i], states[j]) {
      match p
      case Upgrade => UpgradeSeparate(i, j);
      case Dns(_) => DnsSeparate(i, j);
      case Runner(_, _, _, _, _) => RunnerSeparate(i, j);
      case OrgRunner(_, _, _, _, _, _, lane) => OrgSeparate(lane, i, j);
    }
  }

  lemma {:induction false} RunnerNames()
    ensures Distinct(RUNNER_NAMES)
  {
  }

  lemma {:induction false} OrgNamesHead()
    ensures forall i, j | 0 <= i < j < 11 :: ORG_NAMES[i] != ORG_NAMES[j]
  {
  }

  lemma {:induction false} OrgNamesTail()
    ensures forall i, j | 11 <= i < j < 21 :: ORG_NAMES[i] != ORG_NAMES[j]
  {
  }

  lemma {:induction false} OrgNamesAcross()
    ensures forall i, j | 0 <= i < 11 <= j < 21 :: ORG_NAMES[i] != ORG_NAMES[j]
  {
  }

  lemma {:induction false} OrgNames()
    ensures Distinct(ORG_NAMES)
  {
    OrgNamesHead();
    OrgNamesTail();
    OrgNamesAcross();
  }

  lemma {:induction false} UpgradeWellFormed(p: Policy)
    requires p.Upgrade?
    ensures SchemaOf(p).WellFormed()
  {
  }

  lemma {:induction false} DnsWellFormed(p: Policy)
    requires p.Dns?
    ensures SchemaOf(p).WellFormed()
  {
  }

  lemma {:induction false} RunnerWellFormed(p: Policy)
    requires p.Runner?
    ensures SchemaOf(p).WellFormed()
  {
    RunnerNames();
  }

  lemma {:induction false} OrgWellFormed(p: Policy)
    requires p.OrgRunner? && p.WellFormed()
    ensures SchemaOf(p).WellFormed()
  {
    OrgNames();
  }

  lemma {:induction false} SchemasWellFormed(p: Policy)
    requires p.WellFormed()
    ensures SchemaOf(p).WellFormed()
  {
    match p
    case Upgrade => UpgradeWellFormed(p);
    case Dns(_) => DnsWellFormed(p);
    case Runner(_, _, _, _, _) => RunnerWellFormed(p);
    case OrgRunner(_, _, _, _, _, _, _) => OrgWellFormed(p);
  }

  // ----- Failures -----

  lemma {:induction false} ZerosAreHex(n: nat)
    ensures |Zeros(n)| == n && IsHex(Zeros(n))
  {
  }

  /** `row` meets every property of the schema and one of its states. */
  ghost predicate Fits(s: Schema, row: Row) {
    && MeetsAll(s.checks, row) && exists i :: 0 <= i < |s.states| && IsState(s.states, i, row)
  }

  lemma {:induction false} RunnerChecks(operation: string, scope: string, fence: Json, generation: Json,
                                        registered: Json, reconciled: Json, required: bool, digest: Json, reset: string,
                                        stage: string)
    requires operation in RUNNER_OPERATIONS && scope in SCOPES && Meets(MAYBE_ID, fence) && Meets(ID, generation)
    requires Meets(MAYBE, registered) && Meets(MAYBE, reconciled) && Meets(Hex(64, true, true), digest)
    requires reset in RESET_STATES && stage in RUNNER_STAGES
    ensures MeetsAll(RunnerSchema().checks,
                     RunnerRow(operation, scope, fence, generation, registered, reconciled, required, digest, reset,
                               stage))
  {
    var c := RunnerSchema().checks;
    var r := RunnerRow(operation, scope, fence, generation, registered, reconciled, required, digest, reset, stage);
    assert forall i | 0 <= i < 9 :: Meets(c[i], r[i]);
  }

  lemma {:induction false} RunnerLost(operation: string, scope: string, fence: Json, generation: Json)
    requires operation == "register"
    ensures IsState(RunnerSchema().states, 3,
                    RunnerRow(operation, scope, fence, generation, Null, Null, true, Null, INDETERMINATE,
                              INDETERMINATE))
  {
  }

  lemma {:induction false} RunnerNotStarted(operation: string, scope: string, fence: Json, generation: Json,
                                            stage: string)
    requires operation == "register" && stage == "generate_token"
    ensures IsState(RunnerSchema().states, 1,
                    RunnerRow(operation, scope, fence, generation, Bool(false), Null, false, Null, "not_started",
                              stage))
  {
  }

  lemma {:induction false} RunnerUnreconciled(operation: string, scope: string, fence: Json, generation: Json,
                                              digest: string, stage: string)
    requires operation == "reconcile" && |digest| == 64 && IsHex(digest) && stage in {"reconcile", INDETERMINATE}
    ensures IsState(RunnerSchema().states, 5,
                    RunnerRow(operation, scope, fence, generation, Null, Bool(false), true, Str(digest), INDETERMINATE,
                              stage))
  {
  }

  lemma {:induction false} RunnerFailureFits(p: Policy, stage: string)
    requires p.Runner? && stage in {"generate_token", INDETERMINATE}
    ensures Fits(RunnerSchema(), RunnerFailure(p, stage))
  {
    var operation, scope := SafeOperation(p), SafeScope(p.scope);
    var fence, generation := SafeFence(p.fence), SafeGeneration(p.generation);
    if operation == "reconcile" {
      var digest, at := SafeDigest(p.digest), if stage == "generate_token" then "reconcile" else stage;
      ZerosAreHex(64);
      RunnerChecks(operation, scope, fence, generation, Null, Bool(false), true, Str(digest), INDETERMINATE, at);
      RunnerUnreconciled(operation, scope, fence, generation, digest, at);
    } else if stage == INDETERMINATE {
      RunnerChecks(operation, scope, fence, generation, Null, Null, true, Null, INDETERMINATE, stage);
      RunnerLost(operation, scope, fence, generation);
    } else {
      RunnerChecks(operation, scope, fence, generation, Bool(false), Null, false, Null, "not_started", stage);
      RunnerNotStarted(operation, scope, fence, generation, stage);
    }
  }

  lemma {:induction false} OrgHead(lane: map<string, Json>, operation: string, fence: Json, generation: Json,
                                   provisioned: Json, reconciled: Json, stage: string, required: bool, digest: Json,
                                   reset: string)
    requires operation in ORG_OPERATIONS && Meets(MAYBE_ID, fence) && Meets(ID, generation)
    requires Meets(MAYBE, provisioned) && Meets(MAYBE, reconciled) && stage in ORG_STAGES
    ensures forall i | 0 <= i < 12 :: Meets(OrgSchema(lane).checks[i],
                                            OrgRow(operation, fence, generation, provisioned, reconciled, stage,
                                                   required, digest, reset)[i])
  {
  }

  lemma {:induction false} OrgTail(lane: map<string, Json>, operation: string, fence: Json, generation: Json,
                                   provisioned: Json, reconciled: Json, stage: string, required: bool, digest: Json,
                                   reset: string)
    requires Meets(Hex(64, true, false), digest) && reset in RESET_STATES
    ensures forall i | 12 <= i < 21 :: Meets(OrgSchema(lane).checks[i],
                                             OrgRow(operation, fence, generation, provisioned, reconciled, stage,
                                                    required, digest, reset)[i])
  {
  }

  lemma {:induction false} OrgChecks(lane: map<string, Json>, operation: string, fence: Json, generation: Json,
                                     provisioned: Json, reconciled: Json, stage: string, required: bool, digest: Json,
                                     reset: string)
    requires operation in ORG_OPERATIONS && Meets(MAYBE_ID, fence) && Meets(ID, generation)
    requires Meets(MAYBE, provisioned) && Meets(MAYBE, reconciled) && stage in ORG_STAGES
    requires Meets(Hex(64, true, false), digest) && reset in RESET_STATES
    ensures MeetsAll(OrgSchema(lane).checks,
                     OrgRow(operation, fence, generation, provisioned, reconciled, stage, required, digest, reset))
  {
    OrgHead(lane, operation, fence, generation, provisioned, reconciled, stage, required, digest, reset);
    OrgTail(lane, operation, fence, generation, provisioned, reconciled, stage, required, digest, reset);
  }

  lemma {:induction false} OrgLost(lane: map<string, Json>, operation: string, fence: Json, generation: Json)
    requires operation == "provision"
    ensures IsState(OrgSchema(lane).states, 3,
                    OrgRow(operation, fence, generation, Null, Null, INDETERMINATE, true, Null, INDETERMINATE))
  {
  }

  lemma {:induction false} OrgNotStarted(lane: map<string, Json>, operation: string, fence: Json, generation: Json,
                                         stage: string)
    requires operation == "provision" && stage == "preconditions"
    ensures IsState(OrgSchema(lane).states, 1,
                    OrgRow(operation, fence, generation, Bool(false), Null, stage, false, Null, "not_started"))
  {
  }

  lemma {:induction false} OrgUnreconciled(lane: map<string, Json>, operation: string, fence: Json, generation: Json,
                                           stage: string, digest: string)
    requires operation == "reconcile" && |digest| == 64 && IsHex(digest) && stage in {"reconcile", INDETERMINATE}
    ensures IsState(OrgSchema(lane).states, 5,
                    OrgRow(operation, fence, generation, Null, Bool(false), stage, true, Str(digest), INDETERMINATE))
  {
  }

  lemma {:induction false} OrgFailureFits(p: Policy, stage: string)
    requires p.OrgRunner? && stage in {"preconditions", INDETERMINATE}
    ensures Fits(OrgSchema(p.lane), OrgFailure(p, stage))
  {
    var operation, fence, generation := SafeOperation(p), SafeFence(p.fence), SafeGeneration(p.generation);
    if operation == "reconcile" {
      var digest, at := SafeDigest(p.digest), if stage == INDETERMINATE then stage else "reconcile";
      ZerosAreHex(64);
      OrgChecks(p.lane, operation, fence, generation, Null, Bool(false), at, true, Str(digest), INDETERMINATE);
      OrgUnreconciled(p.lane, operation, fence, generation, at, digest);
    } else if stage == INDETERMINATE {
      OrgChecks(p.lane, operation, fence, generation, Null, Null, stage, true, Null, INDETERMINATE);
      OrgLost(p.lane, operation, fence, generation);
    } else {
      OrgChecks(p.lane, operation, fence, generation, Bool(false), Null, stage, false, Null, "not_started");
      OrgNotStarted(p.lane, operation, fence, generation, stage);
    }
  }

  lemma {:induction false} UpgradeFailureFits(stage: string)
    requires stage in {"execute", INDETERMINATE}
    ensures Fits(UpgradeSchema(), FailureRow(Upgrade, stage))
  {
    assert IsState(UpgradeSchema().states, if stage == INDETERMINATE then 5 else 2, FailureRow(Upgrade, stage));
  }

  lemma {:induction false} DnsFailureFits(commit: string, stage: string)
    requires stage in {"execute", INDETERMINATE}
    ensures Fits(DnsSchema(), FailureRow(Dns(commit), stage))
  {
    ZerosAreHex(40);
    assert IsState(DnsSchema().states, if stage == INDETERMINATE then 2 else 1, FailureRow(Dns(commit), stage));
  }

  lemma {:induction false} FailureFits(p: Policy, stage: string)
    requires stage in {ConnectStage(p), INDETERMINATE}
    ensures Fits(SchemaOf(p), FailureRow(p, stage))
  {
    match p
    case Upgrade => UpgradeFailureFits(stage);
    case Dns(commit) => DnsFailureFits(commit, stage);
    case Runner(_, _, _, _, _) => RunnerFailureFits(p, stage);
    case OrgRunner(_, _, _, _, _, _, _) => OrgFailureFits(p, stage);
  }

  lemma {:induction false} BuiltFits(s: Schema, row: Row)
    requires s.WellFormed() && Exclusive(s.states) && Fits(s, row)
    ensures Valid(s, Build(s, row)) && RowOf(s.names, Build(s, row)) == row
  {
    var i :| 0 <= i < |s.states| && IsState(s.states, i, row);
    OnlyState(s.states, i, row);
    BuiltIsValid(s, row);
  }

  lemma {:induction false} FirstIsOk(p: Policy, stage: string)
    ensures SchemaOf(p).names != [] && SchemaOf(p).names[0] == "ok"
    ensures FailureRow(p, stage) != [] && FailureRow(p, stage)[0] == Bool(false)
  {
  }

  /** A failed row that its schema admits. */
  ghost predicate Admitted(s: Schema, row: Row) {
    && s.WellFormed() && Exclusive(s.states) && Fits(s, row)
    && s.names != [] && s.names[0] == "ok" && row != [] && row[0] == Bool(false)
  }

  lemma {:induction false} FailureIsAdmitted(p: Policy, stage: string)
    requires p.WellFormed() && stage in {ConnectStage(p), INDETERMINATE}
    ensures Admitted(SchemaOf(p), FailureRow(p, stage))
  {
    SchemasWellFormed(p);
    StatesAreExclusive(p);
    FailureFits(p, stage);
    FirstIsOk(p, stage);
  }

  lemma {:induction false} AdmittedIsClosed(s: Schema, row: Row)
    requires Admitted(s, row)
    ensures IsClosed(s, Closed(false, Build(s, row)))
  {
    BuiltFits(s, row);
    assert RowOf(s.names, Build(s, row))[0] == row[0];
  }

  /** For arbitrary request values, a transport failure is a schema-valid result in exactly one failed state. */
  lemma {:induction false} FailureIsClosed(p: Policy, stage: string)
    requires p.WellFormed() && stage in {ConnectStage(p), INDETERMINATE}
    ensures !Failure(p, stage).ok && IsClosed(SchemaOf(p), Failure(p, stage))
  {
    FailureIsAdmitted(p, stage);
    AdmittedIsClosed(SchemaOf(p), FailureRow(p, stage));
  }

  // ----- Outcomes -----

  lemma {:induction false} ConcludedIsClosed(s: Schema, e: Exchange, connect: Closed, lost: Closed, data: Json,
                                             bound: bool)
    requires IsClosed(s, connect) && IsClosed(s, lost)
    ensures IsClosed(s, Concluded(e, connect, lost, Accepted(s, data, bound)))
    ensures IsClosed(s, Concluded(e, connect, lost, None))
  {
  }

  /** Every exchange ends in a schema-valid result whose own flag is the outcome's. */
  lemma {:induction false} OutcomeIsClosed(p: Policy, e: Exchange)
    requires p.WellFormed()
    ensures IsClosed(SchemaOf(p), Outcome(p, e))
  {
    FailureIsClosed(p, ConnectStage(p));
    FailureIsClosed(p, INDETERMINATE);
    var data := if e.Answered? then e.data else Null;
    ConcludedIsClosed(SchemaOf(p), e, Failure(p, ConnectStage(p)), Failure(p, INDETERMINATE), data,
                      Bound(p, data.Get("result")));
  }

  /** The exact envelope of a success that answers the request. */
  ghost predicate Success(s: Schema, data: Json, bound: bool) {
    && data.Obj? && data.fields.Keys == ENVELOPE
    && data.Get("ok") == Bool(true) && data.Get("events") == Arr([])
    && data.Get("error_code") == Str("") && data.Get("error_message") == Str("")
    && data.Get("result").Get("ok") == Bool(true)
    && bound && Valid(s, data.Get("result"))
  }

  lemma {:induction false} AcceptedExactly(s: Schema, data: Json, bound: bool)
    ensures var n := Accepted(s, data, bound);
            && (n.Some? && n.value.ok <==> Success(s, data, bound))
            && (n.Some? ==> n.value.result == data.Get("result"))
  {
  }

  lemma {:induction false} ConcludedExactly(s: Schema, e: Exchange, connect: Closed, lost: Closed, bound: bool)
    requires !connect.ok && !lost.ok && e.Answered?
    ensures var o := Concluded(e, connect, lost, Accepted(s, e.data, bound));
            && (o.ok <==> 200 <= e.status < 300 && Success(s, e.data, bound))
            && (o.ok ==> o.result == e.data.Get("result"))
  {
    AcceptedExactly(s, e.data, bound);
  }

  /** Success has one cause: a 2xx answer with that envelope, whose result is passed on as it came. */
  lemma {:induction false} SuccessExactly(p: Policy, e: Exchange)
    ensures Outcome(p, e).ok <==>
            e.Answered? && 200 <= e.status < 300 && Success(SchemaOf(p), e.data, Bound(p, e.data.Get("result")))
    ensures Outcome(p, e).ok ==> Outcome(p, e).result == e.data.Get("result")
  {
    if e.Answered? {
      ConcludedExactly(SchemaOf(p), e, Failure(p, ConnectStage(p)), Failure(p, INDETERMINATE),
                       Bound(p, e.data.Get("result")));
    }
  }

  // ----- Failures that answer the request -----

  /** Each value that names the request is one that the result schema can carry. */
  predicate Carried(p: Policy) {
    match p
    case Upgrade => true
    case Dns(commit) => |commit| == 40 && IsHex(commit)
    case Runner(operation, scope, _, fence, generation) =>
      && operation in RUNNER_OPERATIONS && scope in SCOPES
      && (SafeCount(fence) || fence == Null) && (SafeCount(generation) || SameScalar(Int(1), generation))
    case OrgRunner(operation, laneName, scope, _, fence, generation, _) =>
      && operation in ORG_OPERATIONS && laneName == LANE && scope == LANE_SCOPE
      && (SafeCount(fence) || fence == Null) && (SafeCount(generation) || SameScalar(Int(1), generation))
  }

  /** The names of the schema are distinct and no constant property has one of them. */
  ghost predicate Apart(s: Schema) { Distinct(s.names) && s.fixed.Keys !! Elements(s.names) }

  lemma {:induction false} FieldOfBuilt(s: Schema, row: Row, i: nat, name: string, value: Json)
    requires Apart(s) && |row| == |s.names| && i < |row| && s.names[i] == name && row[i] == value
    ensures Build(s, row).Get(name) == value
  {
    ZipAt(s.names, row, i);
    assert s.names[i] in Elements(s.names);
  }

  ghost predicate Answers(p: Policy, s: Schema, row: Row) {
    |row| == |s.names| && (Bound(p, Build(s, row)) <==> Carried(p))
  }

  lemma {:induction false} BuiltAnswers(p: Policy, stage: string)
    requires Answers(p, SchemaOf(p), FailureRow(p, stage))
    ensures Bound(p, Failure(p, stage).result) <==> Carried(p)
  {
  }

  predicate RunnerShape(names: seq<string>, row: Row, p: Policy) {
    && p.Runner? && 7 <= |row| == |names|
    && names[3] == "operation" && row[3] == Str(SafeOperation(p))
    && names[4] == "scope" && row[4] == Str(SafeScope(p.scope))
    && names[5] == "fence_execution_id" && row[5] == SafeFence(p.fence)
    && names[6] == "fence_generation" && row[6] == SafeGeneration(p.generation)
  }

  lemma {:induction false} RunnerFields(s: Schema, row: Row, p: Policy)
    requires Apart(s) && RunnerShape(s.names, row, p)
    ensures Answers(p, s, row)
  {
    FieldOfBuilt(s, row, 3, s.names[3], row[3]);
    FieldOfBuilt(s, row, 4, s.names[4], row[4]);
    FieldOfBuilt(s, row, 5, s.names[5], row[5]);
    FieldOfBuilt(s, row, 6, s.names[6], row[6]);
    RunnerBound(p, Build(s, row));
  }

  lemma {:induction false} RunnerBound(p: Policy, result: Json)
    requires p.Runner?
    requires result.Get("operation") == Str(SafeOperation(p)) && result.Get("scope") == Str(SafeScope(p.scope))
    requires result.Get("fence_execution_id") == SafeFence(p.fence)
    requires result.Get("fence_generation") == SafeGeneration(p.generation)
    ensures Bound(p, result) <==> Carried(p)
  {
  }

  lemma {:induction false} RunnerHasShape(p: Policy, stage: string)
    requires p.Runner?
    ensures RunnerShape(RUNNER_NAMES, RunnerFailure(p, stage), p)
  {
  }

  lemma {:induction false} RunnerFailureAnswers(p: Policy, stage: string)
    requires p.Runner?
    ensures Answers(p, SchemaOf(p), FailureRow(p, stage))
  {
    RunnerRowAnswers(SchemaOf(p), p, stage);
  }

  lemma {:induction false} RunnerRowAnswers(s: Schema, p: Policy, stage: string)
    requires p.Runner? && s.names == RUNNER_NAMES && s.fixed == map[]
    ensures Answers(p, s, RunnerFailure(p, stage))
  {
    RunnerNames();
    RunnerHasShape(p, stage);
    RunnerFields(s, RunnerFailure(p, stage), p);
  }

  predicate OrgShape(names: seq<string>, row: Row, p: Policy) {
    && p.OrgRunner? && 8 <= |row| == |names|
    && names[3] == "operation" && row[3] == Str(SafeOperation(p))
    && names[4] == "scope" && row[4] == Str(LANE_SCOPE)
    && names[5] == "lane" && row[5] == Str(LANE)
    && names[6] == "fence_execution_id" && row[6] == SafeFence(p.fence)
    && names[7] == "fence_generation" && row[7] == SafeGeneration(p.generation)
  }

  lemma {:induction false} OrgFields(s: Schema, row: Row, p: Policy)
    requires Apart(s) && OrgShape(s.names, row, p)
    ensures Answers(p, s, row)
  {
    FieldOfBuilt(s, row, 3, s.names[3], row[3]);
    FieldOfBuilt(s, row, 4, s.names[4], row[4]);
    FieldOfBuilt(s, row, 5, s.names[5], row[5]);
    FieldOfBuilt(s, row, 6, s.names[6], row[6]);
    FieldOfBuilt(s, row, 7, s.names[7], row[7]);
    OrgBound(p, Build(s, row));
  }

  lemma {:induction false} OrgBound(p: Policy, result: Json)
    requires p.OrgRunner?
    requires result.Get("operation") == Str(SafeOperation(p)) && result.Get("scope") == Str(LANE_SCOPE)
    requires result.Get("lane") == Str(LANE)
    requires result.Get("fence_execution_id") == SafeFence(p.fence)
    requires result.Get("fence_generation") == SafeGeneration(p.generation)
    ensures Bound(p, result) <==> Carried(p)
  {
  }

  lemma {:induction false} OrgHasShape(p: Policy, stage: string)
    requires p.OrgRunner?
    ensures OrgShape(ORG_NAMES, OrgFailure(p, stage), p)
  {
    OrgNamesAt();
    OrgRowAt(p, stage);
  }

  lemma {:induction false} OrgNamesAt()
    ensures ORG_NAMES[3] == "operation" && ORG_NAMES[4] == "scope" && ORG_NAMES[5] == "lane"
    ensures ORG_NAMES[6] == "fence_execution_id" && ORG_NAMES[7] == "fence_generation"
  {
  }

  lemma {:induction false} OrgRowAt(p: Policy, stage: string)
    requires p.OrgRunner?
    ensures var row := OrgFailure(p, stage);
            && |row| == 21 && row[3] == Str(SafeOperation(p)) && row[4] == Str(LANE_SCOPE) && row[5] == Str(LANE)
            && row[6] == SafeFence(p.fence) && row[7] == SafeGeneration(p.generation)
  {
    var operation, fence, generation := SafeOperation(p), SafeFence(p.fence), SafeGeneration(p.generation);
    if operation == "reconcile" {
      OrgRowHead(operation, fence, generation, Null, Bool(false),
                 if stage == INDETERMINATE then stage else "reconcile", true, Str(SafeDigest(p.digest)), INDETERMINATE);
    } else if stage == INDETERMINATE {
      OrgRowHead(operation, fence, generation, Null, Null, stage, true, Null, INDETERMINATE);
    } else {
      OrgRowHead(operation, fence, generation, Bool(false), Null, stage, false, Null, "not_started");
    }
  }

  lemma {:induction false} OrgRowHead(operation: string, fence: Json, generation: Json, provisioned: Json,
                                      reconciled: Json, stage: string, required: bool, digest: Json, reset: string)
    ensures var row := OrgRow(operation, fence, generation, provisioned, reconciled, stage, required, digest, reset);
            && |row| == 21 && row[3] == Str(operation) && row[4] == Str(LANE_SCOPE) && row[5] == Str(LANE)
            && row[6] == fence && row[7] == generation
  {
  }

  lemma {:induction false} OrgFailureAnswers(p: Policy, stage: string)
    requires p.OrgRunner? && p.WellFormed()
    ensures Answers(p, SchemaOf(p), FailureRow(p, stage))
  {
    OrgBuiltAnswers(p, stage);
    OrgParts(p, stage);
  }

  lemma {:induction false} OrgBuiltAnswers(p: Policy, stage: string)
    requires p.OrgRunner? && p.WellFormed()
    ensures Answers(p, OrgSchema(p.lane), OrgFailure(p, stage))
  {
    OrgRowAnswers(OrgSchema(p.lane), p, stage);
  }

  lemma {:induction false} OrgParts(p: Policy, stage: string)
    requires p.OrgRunner?
    ensures SchemaOf(p) == OrgSchema(p.lane) && FailureRow(p, stage) == OrgFailure(p, stage)
  {
  }

  lemma {:induction false} OrgRowAnswers(s: Schema, p: Policy, stage: string)
    requires p.OrgRunner? && p.WellFormed() && s.names == ORG_NAMES && s.fixed == p.lane
    ensures Answers(p, s, OrgFailure(p, stage))
  {
    OrgNames();
    OrgHasShape(p, stage);
    OrgFields(s, OrgFailure(p, stage), p);
  }

  lemma {:induction false} DnsFields(s: Schema, row: Row, p: Policy)
    requires Apart(s) && |row| == |s.names| && 4 <= |row| && p.Dns?
    requires s.names[3] == "commit_sha" && row[3] == Str(SafeCommit(p.commit))
    ensures Answers(p, s, row)
  {
    ZerosAreHex(40);
    FieldOfBuilt(s, row, 3, s.names[3], row[3]);
  }

  lemma {:induction false} DnsHasShape(p: Policy, stage: string)
    requires p.Dns?
    ensures var names, row := SchemaOf(p).names, FailureRow(p, stage);
            |names| == |row| == 6 && names[3] == "commit_sha" && row[3] == Str(SafeCommit(p.commit))
  {
    assert DNS_NAMES[3] == "commit_sha";
  }

  lemma {:induction false} DnsFailureAnswers(p: Policy, stage: string)
    requires p.Dns?
    ensures Answers(p, SchemaOf(p), FailureRow(p, stage))
  {
    SchemasWellFormed(p);
    DnsHasShape(p, stage);
    DnsFields(SchemaOf(p), FailureRow(p, stage), p);
  }

  /** A built failure passes the binding check of its own request exactly when the request's values are legal. */
  lemma {:induction false} FailureAnswersExactly(p: Policy, stage: string)
    requires p.WellFormed()
    ensures Bound(p, Failure(p, stage).result) <==> Carried(p)
  {
    if !p.Upgrade? {
      FailureAnswers(p, stage);
      BuiltAnswers(p, stage);
    }
  }

  lemma {:induction false} FailureAnswers(p: Policy, stage: string)
    requires p.WellFormed() && !p.Upgrade?
    ensures Answers(p, SchemaOf(p), FailureRow(p, stage))
  {
    match p
    case Dns(_) => DnsFailureAnswers(p, stage);
    case Runner(_, _, _, _, _) => RunnerFailureAnswers(p, stage);
    case OrgRunner(_, _, _, _, _, _, _) => OrgFailureAnswers(p, stage);
  }

  /** Where an outcome comes from: a built failure, or an accepted answer that is bound to the request. */
  lemma {:induction false} ConcludedFrom(s: Schema, e: Exchange, connect: Closed, lost: Closed, bound: bool)
    ensures var o := Concluded(e, connect, lost, if e.Answered? then Accepted(s, e.data, bound) else None);
            o == connect || o == lost || (e.Answered? && bound && o.result == e.data.Get("result"))
  {
  }

  /** Every outcome answers a request whose values are legal. */
  lemma {:induction false} OutcomeAnswers(p: Policy, e: Exchange)
    requires p.WellFormed() && Carried(p)
    ensures Bound(p, Outcome(p, e).result)
  {
    FailureAnswersExactly(p, ConnectStage(p));
    FailureAnswersExactly(p, INDETERMINATE);
    ConcludedFrom(SchemaOf(p), e, Failure(p, ConnectStage(p)), Failure(p, INDETERMINATE),
                  e.Answered? && Bound(p, e.data.Get("result")));
  }

  // ----- What an unanswered dispatch claims -----

  /** The result claims nothing: its stage is indeterminate, and a runner's token must be reset. */
  predicate ClaimsNothing(p: Policy, result: Json) {
    && result.Get("stage") == Str(INDETERMINATE)
    && (p.Runner? || p.OrgRunner? ==>
          result.Get("registered") == Null && result.Get("token_reset_required") == Bool(true))
  }

  /** Where a schema keeps these three properties, and what a row says there. */
  predicate LostAt(names: seq<string>, row: Row, stage: nat, registered: nat, required: nat) {
    && stage < |names| == |row| && registered < |row| && required < |row|
    && names[stage] == "stage" && row[stage] == Str(INDETERMINATE)
    && names[registered] == "registered" && row[registered] == Null
    && names[required] == "token_reset_required" && row[required] == Bool(true)
  }

  lemma {:induction false} LostFields(s: Schema, row: Row, stage: nat, registered: nat, required: nat)
    requires Apart(s) && LostAt(s.names, row, stage, registered, required)
    ensures var v := Build(s, row);
            && v.Get("stage") == Str(INDETERMINATE) && v.Get("registered") == Null
            && v.Get("token_reset_required") == Bool(true)
  {
    FieldOfBuilt(s, row, stage, s.names[stage], row[stage]);
    FieldOfBuilt(s, row, registered, s.names[registered], row[registered]);
    FieldOfBuilt(s, row, required, s.names[required], row[required]);
  }

  lemma {:induction false} RunnerLostAt(p: Policy)
    requires p.Runner?
    ensures LostAt(RUNNER_NAMES, RunnerFailure(p, INDETERMINATE), 16, 7, 10)
  {
    assert RUNNER_NAMES[16] == "stage" && RUNNER_NAMES[7] == "registered" && RUNNER_NAMES[10] == "token_reset_required";
  }

  lemma {:induction false} OrgLostAt(p: Policy)
    requires p.OrgRunner?
    ensures LostAt(ORG_NAMES, OrgFailure(p, INDETERMINATE), 11, 9, 15)
  {
    assert ORG_NAMES[11] == "stage" && ORG_NAMES[9] == "registered" && ORG_NAMES[15] == "token_reset_required";
  }

  lemma {:induction false} RunnerLostClaims(p: Policy)
    requires p.Runner?
    ensures ClaimsNothing(p, Failure(p, INDETERMINATE).result)
  {
    RunnerLostRow(SchemaOf(p), p);
  }

  lemma {:induction false} RunnerLostRow(s: Schema, p: Policy)
    requires p.Runner? && s.names == RUNNER_NAMES && s.fixed == map[]
    ensures var row := RunnerFailure(p, INDETERMINATE); |row| == |s.names| && ClaimsNothing(p, Build(s, row))
  {
    RunnerNames();
    RunnerLostAt(p);
    LostFields(s, RunnerFailure(p, INDETERMINATE), 16, 7, 10);
  }

  lemma {:induction false} OrgLostClaims(p: Policy)
    requires p.OrgRunner? && p.WellFormed()
    ensures ClaimsNothing(p, Failure(p, INDETERMINATE).result)
  {
    OrgBuiltLost(p);
    OrgParts(p, INDETERMINATE);
  }

  lemma {:induction false} OrgBuiltLost(p: Policy)
    requires p.OrgRunner? && p.WellFormed()
    ensures var s, row := OrgSchema(p.lane), OrgFailure(p, INDETERMINATE);
            |row| == |s.names| && ClaimsNothing(p, Build(s, row))
  {
    OrgLostRow(OrgSchema(p.lane), p);
  }

  lemma {:induction false} OrgLostRow(s: Schema, p: Policy)
    requires p.OrgRunner? && p.WellFormed() && s.names == ORG_NAMES && s.fixed == p.lane
    ensures var row := OrgFailure(p, INDETERMINATE); |row| == |s.names| && ClaimsNothing(p, Build(s, row))
  {
    OrgNames();
    OrgLostAt(p);
    LostFields(s, OrgFailure(p, INDETERMINATE), 11, 9, 15);
  }

  lemma {:induction false} StageOfBuilt(s: Schema, row: Row)
    requires Apart(s) && |row| == |s.names| == 6 && s.names[5] == "stage" && row[5] == Str(INDETERMINATE)
    ensures Build(s, row).Get("stage") == Str(INDETERMINATE)
  {
    FieldOfBuilt(s, row, 5, s.names[5], row[5]);
  }

  lemma {:induction false} UpgradeLostClaims(p: Policy)
    requires p.Upgrade?
    ensures ClaimsNothing(p, Failure(p, INDETERMINATE).result)
  {
    UpgradeWellFormed(p);
    assert UPGRADE_NAMES[5] == "stage";
    StageOfBuilt(SchemaOf(p), FailureRow(p, INDETERMINATE));
  }

  lemma {:induction false} DnsLostClaims(p: Policy)
    requires p.Dns?
    ensures ClaimsNothing(p, Failure(p, INDETERMINATE).result)
  {
    DnsWellFormed(p);
    assert DNS_NAMES[5] == "stage";
    StageOfBuilt(SchemaOf(p), FailureRow(p, INDETERMINATE));
  }

  lemma {:induction false} LostClaims(p: Policy)
    requires p.WellFormed()
    ensures ClaimsNothing(p, Failure(p, INDETERMINATE).result)
  {
    match p
    case Upgrade => UpgradeLostClaims(p);
    case Dns(_) => DnsLostClaims(p);
    case Runner(_, _, _, _, _) => RunnerLostClaims(p);
    case OrgRunner(_, _, _, _, _, _, _) => OrgLostClaims(p);
  }

  /**
   Except after a connect timeout, an exchange either ends in the accepted answer to its request, or its
   outcome claims nothing: the dispatch may have run, so no clean failure is reported.
   */
  lemma {:induction false} UnknownStaysUnknown(p: Policy, e: Exchange)
    requires p.WellFormed() && !(e.Unreachable? && e.connectTimeout)
    ensures var o := Outcome(p, e);
            || (e.Answered? && Bound(p, o.result) && o.result == e.data.Get("result"))
            || (!o.ok && ClaimsNothing(p, o.result))
  {
    LostClaims(p);
    ConcludedLost(SchemaOf(p), e, Failure(p, ConnectStage(p)), Failure(p, INDETERMINATE),
                  e.Answered? && Bound(p, e.data.Get("result")));
  }

  lemma {:induction false} ConcludedLost(s: Schema, e: Exchange, connect: Closed, lost: Closed, bound: bool)
    requires !(e.Unreachable? && e.connectTimeout)
    ensures var o := Concluded(e, connect, lost, if e.Answered? then Accepted(s, e.data, bound) else None);
            o == lost || (e.Answered? && bound && o.result == e.data.Get("result"))
  {
  }
}
