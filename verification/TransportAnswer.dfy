/** What each way to end a protected exchange makes of it: the answer itself, or one of two built failures. */
module TransportAnswer {
  import opened FixedPoint
  import opened Json
  import opened ClosedResult
  import opened Transport
  import opened TransportOutcome

  // ----- Answers -----

  /** The exact five-key envelope, whose result is valid and answers the request. */
  ghost predicate ExactAnswer(s: Schema, data: Json, bound: bool) {
    && data.Obj? && data.fields.Keys == ENVELOPE && data.Get("ok").Bool?
    && data.Get("result").Get("ok") == data.Get("ok") && data.Get("events") == Arr([])
    && data.Get("error_code").Str? && data.Get("error_message").Str?
    && (data.Get("ok") == Bool(true) ==> data.Get("error_code") == Str("") && data.Get("error_message") == Str(""))
    && bound && Valid(s, data.Get("result"))
  }

  lemma {:induction false} AcceptsExactAnswers(s: Schema, data: Json, bound: bool)
    ensures var n := Accepted(s, data, bound);
            && (n.Some? <==> ExactAnswer(s, data, bound))
            && (n.Some? ==> n.value.result == data.Get("result") && Bool(n.value.ok) == data.Get("ok"))
  {
  }

  /** The answer is passed on: it is exact, and a claimed success has a matching status. */
  ghost predicate Passes(s: Schema, e: Exchange, bound: bool) {
    && e.Answered? && !(300 <= e.status < 400) && ExactAnswer(s, e.data, bound)
    && (e.data.Get("ok") == Bool(false) || 200 <= e.status < 300)
  }

  ghost predicate PassedOn(p: Policy, e: Exchange) { Passes(SchemaOf(p), e, AnswersTo(p, e)) }

  predicate AnswersTo(p: Policy, e: Exchange) { e.Answered? && Bound(p, e.data.Get("result")) }

  /** The outcome is the answer's own result and flag. */
  predicate IsAnswer(e: Exchange, o: Closed) {
    e.Answered? && o.result == e.data.Get("result") && Bool(o.ok) == e.data.Get("ok")
  }

  lemma {:induction false} ConcludesExactly(s: Schema, e: Exchange, connect: Closed, lost: Closed, bound: bool)
    ensures var o := Concluded(e, connect, lost, if e.Answered? then Accepted(s, e.data, bound) else None);
            if Passes(s, e, bound) then IsAnswer(e, o) else o == if e == Unreachable(true) then connect else lost
  {
    if e.Answered? { AcceptsExactAnswers(s, e.data, bound); }
  }

  /**
   An exact answer is the outcome, failures included. A connect timeout gives the failure before the start,
   and every other end the failure of unknown extent.
   */
  lemma {:induction false} OutcomeExactly(p: Policy, e: Exchange)
    ensures var o := Outcome(p, e);
            if PassedOn(p, e) then IsAnswer(e, o)
            else o == Failure(p, if e == Unreachable(true) then ConnectStage(p) else INDETERMINATE)
  {
    ConcludesExactly(SchemaOf(p), e, Failure(p, ConnectStage(p)), Failure(p, INDETERMINATE), AnswersTo(p, e));
  }

  // ----- What the built failures say -----

  /** A legal digest of the request is repeated. */
  predicate Repeats(v: Json, digest: Json) { digest.Str? && |digest.s| == 64 && IsHex(digest.s) ==> v == digest }

  /** The values that a failure with an unknown outcome, or before any start, gives to what was to be done. */
  predicate Reports(p: Policy, known: bool, result: Json) {
    var undone := if known then Bool(false) else Null;
    match p
    case Upgrade =>
      && result.Get("changed") == undone && result.Get("healthy") == undone
      && result.Get("stage") == Str(if known then "execute" else INDETERMINATE)
    case Dns(_) =>
      result.Get("deployed") == undone && result.Get("stage") == Str(if known then "execute" else INDETERMINATE)
    case Runner(operation, _, digest, _, _) =>
      if operation == "reconcile" then
        && result.Get("registered") == Null && result.Get("reconciled") == Bool(false)
        && result.Get("token_reset_required") == Bool(true) && Repeats(result.Get("token_sha256"), digest)
        && result.Get("stage") == Str(if known then "reconcile" else INDETERMINATE)
      else
        && result.Get("registered") == undone && result.Get("reconciled") == Null
        && result.Get("token_reset_required") == Bool(!known)
        && result.Get("stage") == Str(if known then "generate_token" else INDETERMINATE)
    case OrgRunner(operation, _, _, digest, _, _, _) =>
      if operation == "reconcile" then
        && result.Get("provisioned") == Null && result.Get("registered") == Null
        && result.Get("reconciled") == Bool(false) && result.Get("token_reset_required") == Bool(true)
        && Repeats(result.Get("token_sha256"), digest)
        && result.Get("stage") == Str(if known then "reconcile" else INDETERMINATE)
      else
        && result.Get("provisioned") == undone && result.Get("registered") == undone
        && result.Get("reconciled") == Null && result.Get("token_reset_required") == Bool(!known)
        && result.Get("stage") == Str(if known then "preconditions" else INDETERMINATE)
  }

  lemma {:induction false} RunnerSays(p: Policy, known: bool)
    requires p.Runner?
    ensures var row := RunnerFailure(p, if known then "generate_token" else INDETERMINATE);
            && |row| == |RUNNER_NAMES| == 17
            && RUNNER_NAMES[7] == "registered" && RUNNER_NAMES[8] == "reconciled"
            && RUNNER_NAMES[10] == "token_reset_required" && RUNNER_NAMES[16] == "stage"
            && RUNNER_NAMES[11] == "token_sha256"
            && (p.operation == "reconcile" ==>
                  && row[7] == Null && row[8] == Bool(false) && row[10] == Bool(true) && Repeats(row[11], p.digest)
                  && row[16] == Str(if known then "reconcile" else INDETERMINATE))
            && (p.operation != "reconcile" ==>
                  && row[7] == (if known then Bool(false) else Null) && row[8] == Null && row[10] == Bool(!known)
                  && row[16] == Str(if known then "generate_token" else INDETERMINATE))
  {
  }

  lemma {:induction false} RunnerReports(s: Schema, row: Row, p: Policy, known: bool)
    requires p.Runner? && Apart(s) && s.names == RUNNER_NAMES
    requires row == RunnerFailure(p, if known then "generate_token" else INDETERMINATE)
    ensures |row| == |s.names| && Reports(p, known, Build(s, row))
  {
    RunnerSays(p, known);
    FieldOfBuilt(s, row, 7, s.names[7], row[7]);
    FieldOfBuilt(s, row, 8, s.names[8], row[8]);
    FieldOfBuilt(s, row, 10, s.names[10], row[10]);
    FieldOfBuilt(s, row, 11, s.names[11], row[11]);
    FieldOfBuilt(s, row, 16, s.names[16], row[16]);
  }

  lemma {:induction false} OrgSays(p: Policy, known: bool)
    requires p.OrgRunner?
    ensures var row := OrgFailure(p, if known then "preconditions" else INDETERMINATE);
            && |row| == |ORG_NAMES| == 21
            && ORG_NAMES[8] == "provisioned" && ORG_NAMES[9] == "registered" && ORG_NAMES[10] == "reconciled"
            && ORG_NAMES[15] == "token_reset_required" && ORG_NAMES[11] == "stage" && ORG_NAMES[16] == "token_sha256"
            && (p.operation == "reconcile" ==>
                  && row[8] == row[9] == Null && row[10] == Bool(false) && row[15] == Bool(true)
                  && Repeats(row[16], p.digest)
                  && row[11] == Str(if known then "reconcile" else INDETERMINATE))
            && (p.operation != "reconcile" ==>
                  && row[8] == row[9] == (if known then Bool(false) else Null) && row[10] == Null
                  && row[15] == Bool(!known) && row[11] == Str(if known then "preconditions" else INDETERMINATE))
  {
  }

  lemma {:induction false} OrgReports(s: Schema, row: Row, p: Policy, known: bool)
    requires p.OrgRunner? && Apart(s) && s.names == ORG_NAMES
    requires row == OrgFailure(p, if known then "preconditions" else INDETERMINATE)
    ensures |row| == |s.names| && Reports(p, known, Build(s, row))
  {
    OrgSays(p, known);
    FieldOfBuilt(s, row, 8, s.names[8], row[8]);
    FieldOfBuilt(s, row, 9, s.names[9], row[9]);
    FieldOfBuilt(s, row, 10, s.names[10], row[10]);
    FieldOfBuilt(s, row, 15, s.names[15], row[15]);
    FieldOfBuilt(s, row, 16, s.names[16], row[16]);
    FieldOfBuilt(s, row, 11, s.names[11], row[11]);
  }

  lemma {:induction false} UpgradeReports(s: Schema, row: Row, p: Policy, known: bool)
    requires p.Upgrade? && Apart(s) && s.names == UPGRADE_NAMES
    requires row == FailureRow(p, if known then "execute" else INDETERMINATE)
    ensures |row| == |s.names| && Reports(p, known, Build(s, row))
  {
    assert UPGRADE_NAMES[3] == "changed" && UPGRADE_NAMES[4] == "healthy" && UPGRADE_NAMES[5] == "stage";
    FieldOfBuilt(s, row, 3, s.names[3], row[3]);
    FieldOfBuilt(s, row, 4, s.names[4], row[4]);
    FieldOfBuilt(s, row, 5, s.names[5], row[5]);
  }

  lemma {:induction false} DnsReports(s: Schema, row: Row, p: Policy, known: bool)
    requires p.Dns? && Apart(s) && s.names == DNS_NAMES
    requires row == FailureRow(p, if known then "execute" else INDETERMINATE)
    ensures |row| == |s.names| && Reports(p, known, Build(s, row))
  {
    assert DNS_NAMES[4] == "deployed" && DNS_NAMES[5] == "stage";
    FieldOfBuilt(s, row, 4, s.names[4], row[4]);
    FieldOfBuilt(s, row, 5, s.names[5], row[5]);
  }

  lemma {:induction false} ShortFailureReports(p: Policy, known: bool)
    requires p.Upgrade? || p.Dns?
    ensures Reports(p, known, Failure(p, if known then ConnectStage(p) else INDETERMINATE).result)
  {
    var s, row := SchemaOf(p), FailureRow(p, if known then ConnectStage(p) else INDETERMINATE);
    SchemasWellFormed(p);
    if p.Upgrade? { UpgradeReports(s, row, p, known); } else { DnsReports(s, row, p, known); }
  }

  lemma {:induction false} RunnerFailureReports(p: Policy, known: bool)
    requires p.Runner?
    ensures Reports(p, known, Failure(p, if known then ConnectStage(p) else INDETERMINATE).result)
  {
    SchemasWellFormed(p);
    RunnerReports(SchemaOf(p), FailureRow(p, if known then ConnectStage(p) else INDETERMINATE), p, known);
  }

  lemma {:induction false} OrgFailureReports(p: Policy, known: bool)
    requires p.OrgRunner? && p.WellFormed()
    ensures Reports(p, known, Failure(p, if known then ConnectStage(p) else INDETERMINATE).result)
  {
    SchemasWellFormed(p);
    OrgReports(SchemaOf(p), FailureRow(p, if known then ConnectStage(p) else INDETERMINATE), p, known);
  }

  /** The two built failures, field by field. */
  lemma {:induction false} FailureReports(p: Policy, known: bool)
    requires p.WellFormed()
    ensures Reports(p, known, Failure(p, if known then ConnectStage(p) else INDETERMINATE).result)
  {
    match p
    case Upgrade => ShortFailureReports(p, known);
    case Dns(_) => ShortFailureReports(p, known);
    case Runner(_, _, _, _, _) => RunnerFailureReports(p, known);
    case OrgRunner(_, _, _, _, _, _, _) => OrgFailureReports(p, known);
  }

  /** In the fields of the result: the answer's own, not started, or unknown. */
  lemma {:induction false} OutcomeReports(p: Policy, e: Exchange)
    requires p.WellFormed() && !PassedOn(p, e)
    ensures !Outcome(p, e).ok && Reports(p, e == Unreachable(true), Outcome(p, e).result)
  {
    OutcomeExactly(p, e);
    FailureReports(p, true);
    FailureReports(p, false);
  }
}
