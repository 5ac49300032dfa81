/** Which outcomes of protected exchanges the ledger can store, for all four kinds of exchange. */
module OutcomeLedger {
  import opened EventLimits
  import opened Json
  import opened CredentialReference
  import opened SensitiveKeys
  import opened LedgerForm
  import opened Projection
  import opened BackendResponse
  import opened BackendRecord
  import opened ClosedLedger
  import opened Transport
  import Closed = ClosedResult
  import TransportOutcome

  // ----- The judgement -----

  /** The ledger's own key rules. */
  ghost predicate LedgerKeys(r: Rules) {
    r.sensitive == IsSensitive && r.policy == IsPolicy && r.public == PublicMetadata
  }

  function ProcedureOf(p: Policy): string {
    match p
    case Upgrade => UPGRADE_PROCEDURE.s
    case Dns(_) => DNS_PROCEDURE.s
    case Runner(_, _, _, _, _) => RUNNER_PROCEDURE.s
    case OrgRunner(_, _, _, _, _, _, _) => ORG_PROCEDURE.s
  }

  /** The outcome is judged by the contract and the result schema of its own, protected procedure. */
  ghost predicate Judges(x: Context, p: Policy, protectedNames: set<string>, installers: set<string>) {
    && p.WellFormed() && Records(x, SchemaOf(p)) && LedgerKeys(x.rules)
    && ProcedureOf(p) in protectedNames && x.contract == ContractOf(ProcedureOf(p), protectedNames, installers)
  }

  lemma {:induction false} ContractFacts(p: Policy, protectedNames: set<string>, installers: set<string>)
    requires ProcedureOf(p) in protectedNames
    ensures var c := ContractOf(ProcedureOf(p), protectedNames, installers);
            c.isProtected && c.envelope && !c.staging && c.gitea == p.Upgrade? && c.dns == p.Dns?
  {
    assert |STAGING_ROTATE| == 43 && |STAGING_DEPLOY| == 38 && |GITEA_UPGRADE| == 39;
    assert |RUNNER_PROCEDURE.s| == 29 && |ORG_PROCEDURE.s| == 52;
  }

  // ----- Names and words -----

  lemma {:induction false} PriorIsSensitive()
    ensures IsSensitive(PRIOR) && !IsPolicy(PRIOR)
  {
    var k := Lower(PRIOR);
    assert k == PRIOR;
    assert k[6..11] == ['t', 'o', 'k', 'e', 'n'] == FRAGMENTS[7];
    assert MatchesAt(k, FRAGMENTS[7], 6);
    assert Contains(k, FRAGMENTS[7]);
  }

  lemma {:induction false} PriorIsNoMetadata(v: Json)
    ensures PublicMetadata(v, PRIOR).None?
  {
  }

  lemma {:induction false} LedgerOverwrites(r: Rules)
    requires LedgerKeys(r)
    ensures Overwrites(r)
  {
    PriorIsSensitive();
    forall v: Json ensures PublicMetadata(v, PRIOR).None? { PriorIsNoMetadata(v); }
  }

  /** For each name, a letter of every sensitive fragment that it lacks. */
  const UPGRADE_LACKS: seq<seq<nat>> := [
    [0, 0, 0, 1, 0, 0, 0, 0], [0, 2, 5, 0, 1, 2, 0, 0], [1, 0, 0, 0, 0, 0, 0, 1], [1, 1, 1, 0, 0, 0, 0, 0],
    [1, 0, 0, 0, 0, 0, 0, 1], [1, 0, 0, 0, 0, 0, 2, 1]]
  const DNS_LACKS: seq<seq<nat>> := [
    [0, 0, 0, 1, 0, 0, 0, 0], [0, 2, 5, 0, 1, 2, 0, 0], [1, 0, 0, 0, 0, 0, 0, 1], [1, 4, 1, 0, 0, 0, 1, 2],
    [0, 0, 0, 0, 1, 1, 0, 0], [1, 0, 0, 0, 0, 0, 2, 1]]

  lemma {:induction false} UpgradeNamesArePlain(i: nat)
    requires i < |UPGRADE_NAMES|
    ensures !IsSensitive(UPGRADE_NAMES[i]) && !IsPolicy(UPGRADE_NAMES[i])
  {
    LacksEvery(UPGRADE_NAMES[i], UPGRADE_LACKS[i]);
  }

  lemma {:induction false} DnsNamesArePlain(i: nat)
    requires i < |DNS_NAMES|
    ensures !IsSensitive(DNS_NAMES[i]) && !IsPolicy(DNS_NAMES[i])
  {
    LacksEvery(DNS_NAMES[i], DNS_LACKS[i]);
  }

  predicate IsCommit(s: string) { |s| == 40 && Closed.IsHex(s) }

  /** The texts that a result of the kind can hold. */
  function Words(p: Policy): set<string> {
    match p
    case Upgrade => {UPGRADE_PROCEDURE.s, UPGRADE_TARGET.s, "execute", "rolled_back", "complete", INDETERMINATE}
    case Dns(commit) =>
      {DNS_PROCEDURE.s, DNS_TARGET.s, "execute", "complete", INDETERMINATE} + if IsCommit(commit) then {commit} else {}
    case _ => {}
  }

  /** The leaf redactor keeps these texts. */
  ghost predicate KeepsWords(r: Rules, p: Policy) { forall w | w in Words(p) :: r.text(MAX_STRING, w) == w }

  // ----- The upgrade -----

  lemma {:induction false} UpgradeChecksAreFlat(r: Rules, i: nat)
    requires KeepsWords(r, Upgrade) && i < 6
    ensures |UpgradeSchema().checks| == 6 && FlatCheck(r, UpgradeSchema().checks[i])
  {
  }

  lemma {:induction false} UpgradeKeepsResult(x: Context, p: Policy, v: Json)
    requires p.Upgrade? && LedgerKeys(x.rules) && KeepsWords(x.rules, p)
    ensures KeepsResult(x.rules, SchemaOf(p), v)
  {
    forall i | 0 <= i < 6 ensures !x.rules.sensitive(UPGRADE_NAMES[i]) && !x.rules.policy(UPGRADE_NAMES[i]) {
      UpgradeNamesArePlain(i);
    }
    forall i | 0 <= i < 6 ensures FlatCheck(x.rules, UpgradeSchema().checks[i]) {
      UpgradeChecksAreFlat(x.rules, i);
    }
    KeepsFrom(x.rules, UPGRADE_NAMES, UpgradeSchema(), v, 6);
  }

  lemma {:induction false} KeepsFrom(r: Rules, names: seq<string>, s: Closed.Schema, v: Json, free: nat)
    requires s.names == names && |names| == 6 && |s.checks| == 6 && s.fixed == map[]
    requires forall i | 0 <= i < 6 :: !r.sensitive(names[i]) && !r.policy(names[i])
    requires forall i | 0 <= i < 6 && i != free :: FlatCheck(r, s.checks[i])
    requires free < 6 ==> IsFlat(r, v.Get(names[free]))
    ensures KeepsResult(r, s, v)
  {
  }

  lemma {:induction false} HasOk(o: Closed.Closed)
    requires o.result.Get("ok") == Bool(o.ok)
    ensures o.result.Obj? && o.result != Obj(map[])
  {
  }

  lemma {:induction false} UpgradeEnvelope(x: Context, o: Closed.Closed)
    requires x.contract.gitea && !x.contract.dns && o.result.Get("ok") == Bool(o.ok)
    ensures EnvelopeHolds(x, Response(o))
  {
    ResponseParts(o);
    HasOk(o);
  }

  lemma {:induction false} UpgradeIsAccepted(x: Context, p: Policy, o: Closed.Closed)
    requires p.Upgrade? && Records(x, SchemaOf(p)) && LedgerKeys(x.rules) && KeepsWords(x.rules, p)
    requires x.contract.gitea && !x.contract.dns && Closed.IsClosed(SchemaOf(p), o)
    ensures Mismatch(x, Response(o)).None?
  {
    HasOk(o);
    UpgradeKeepsResult(x, p, o.result);
    UpgradeEnvelope(x, o);
    KeptIsAccepted(x, SchemaOf(p), o);
  }

  // ----- The DNS deployment -----

  /** The request's commit: `str(params.get("commit_sha") or "")`. */
  function RequestedCommit(x: Context): string { if Truthy(x.commit) then x.show(x.commit) else "" }

  /** The execution's own commit parameter is a text of forty hexadecimal digits. */
  predicate LegalCommit(x: Context) { x.commit.Str? && IsCommit(x.commit.s) }

  lemma {:induction false} DnsChecksAreFlat(r: Rules, p: Policy, i: nat)
    requires p.Dns? && KeepsWords(r, p) && i < 6 && i != 3
    ensures |DnsSchema().checks| == 6 && FlatCheck(r, DnsSchema().checks[i])
  {
    var words := Words(p);
    assert DNS_PROCEDURE.s in words && DNS_TARGET.s in words && "execute" in words && "complete" in words;
    assert INDETERMINATE in words;
  }

  lemma {:induction false} DnsKeepsResult(x: Context, p: Policy, v: Json)
    requires p.Dns? && LedgerKeys(x.rules) && KeepsWords(x.rules, p) && IsCommit(p.commit)
    requires v.Get("commit_sha") == Str(p.commit)
    ensures KeepsResult(x.rules, SchemaOf(p), v)
  {
    assert p.commit in Words(p) && DNS_NAMES[3] == "commit_sha" && IsFlat(x.rules, v.Get(DNS_NAMES[3]));
    forall i | 0 <= i < 6 ensures !x.rules.sensitive(DNS_NAMES[i]) && !x.rules.policy(DNS_NAMES[i]) {
      DnsNamesArePlain(i);
    }
    forall i | 0 <= i < 6 && i != 3 ensures FlatCheck(x.rules, DnsSchema().checks[i]) {
      DnsChecksAreFlat(x.rules, p, i);
    }
    KeepsFrom(x.rules, DNS_NAMES, DnsSchema(), v, 3);
  }

  lemma {:induction false} DnsEnvelope(x: Context, o: Closed.Closed)
    requires x.contract.dns && !x.contract.gitea && !x.contract.staging && o.result.Get("ok") == Bool(o.ok)
    ensures EnvelopeHolds(x, Response(o)) <==> o.result.Get("commit_sha") == x.commit
  {
    ResponseParts(o);
    HasOk(o);
  }

  lemma {:induction false} DnsCommitIsHex(p: Policy, v: Json)
    requires p.Dns? && Closed.Valid(SchemaOf(p), v)
    ensures v.Get("commit_sha").Str? && IsCommit(v.Get("commit_sha").s)
  {
    assert DNS_NAMES[3] == "commit_sha";
    assert Closed.RowOf(DNS_NAMES, v)[3] == v.Get("commit_sha");
    assert Closed.Meets(DnsSchema().checks[3], Closed.RowOf(DNS_NAMES, v)[3]);
  }

  /** A closed DNS outcome is accepted exactly when it carries the execution's commit, and that is legal. */
  lemma {:induction false} DnsIsAcceptedExactly(x: Context, p: Policy, o: Closed.Closed)
    requires p.Dns? && Records(x, SchemaOf(p)) && LedgerKeys(x.rules) && KeepsWords(x.rules, p)
    requires x.contract.dns && !x.contract.gitea && !x.contract.staging && Closed.IsClosed(SchemaOf(p), o)
    requires LegalCommit(x) ==> p.commit == x.commit.s && o.result.Get("commit_sha") == Str(p.commit)
    ensures Mismatch(x, Response(o)).None? <==> LegalCommit(x)
  {
    HasOk(o);
    DnsEnvelope(x, o);
    DnsCommitIsHex(p, o.result);
    if LegalCommit(x) {
      DnsKeepsResult(x, p, o.result);
      KeptIsAccepted(x, SchemaOf(p), o);
    } else {
      AcceptedWhen(x, SchemaOf(p), o);
    }
  }

  // ----- The runners -----

  lemma {:induction false} RunnerHasPrior(p: Policy)
    requires p.Runner? || p.OrgRunner?
    ensures HasPrior(SchemaOf(p), if p.Runner? then 13 else 18)
  {
    assert RUNNER_NAMES[13] == PRIOR && ORG_NAMES[18] == PRIOR;
  }

  lemma {:induction false} RunnerIsRefused(x: Context, p: Policy, o: Closed.Closed)
    requires (p.Runner? || p.OrgRunner?) && Records(x, SchemaOf(p)) && LedgerKeys(x.rules)
    requires Closed.IsClosed(SchemaOf(p), o)
    ensures Mismatch(x, Response(o)).Some?
  {
    HasOk(o);
    LedgerOverwrites(x.rules);
    RunnerHasPrior(p);
    PriorIsRefused(x, SchemaOf(p), if p.Runner? then 13 else 18, o);
  }

  // ----- All kinds -----

  /** The kinds and requests whose outcomes the ledger can store. */
  predicate Storable(x: Context, p: Policy) { p.Upgrade? || (p.Dns? && LegalCommit(x)) }

  lemma {:induction false} DnsRequest(x: Context, p: Policy, e: Exchange)
    requires p.Dns? && p.commit == RequestedCommit(x) && (forall s: string :: x.show(Str(s)) == s) && LegalCommit(x)
    ensures p.commit == x.commit.s && Outcome(p, e).result.Get("commit_sha") == Str(p.commit)
  {
    TransportOutcome.OutcomeAnswers(p, e);
  }

  /**
   The ledger stores the outcome of an exchange, however it ends, exactly for upgrades and for DNS
   deployments of a legal commit. A runner result never survives: its contract demands a number or null
   under a name that redaction overwrites. A DNS failure for an illegal commit carries forty zeros instead.
   */
  lemma {:induction false} StoredExactly(x: Context, p: Policy, e: Exchange, protectedNames: set<string>,
                                         installers: set<string>)
    requires Judges(x, p, protectedNames, installers) && KeepsWords(x.rules, p)
    requires (forall s: string :: x.show(Str(s)) == s) && (p.Dns? ==> p.commit == RequestedCommit(x))
    ensures Mismatch(x, Response(Outcome(p, e))).None? <==> Storable(x, p)
  {
    ContractFacts(p, protectedNames, installers);
    TransportOutcome.OutcomeIsClosed(p, e);
    var o := Outcome(p, e);
    if p.Upgrade? {
      UpgradeIsAccepted(x, p, o);
    } else if p.Dns? {
      if LegalCommit(x) { DnsRequest(x, p, e); }
      DnsIsAcceptedExactly(x, p, o);
    } else {
      RunnerIsRefused(x, p, o);
    }
  }

  lemma {:induction false} OutcomeHasResult(p: Policy, e: Exchange)
    requires p.WellFormed()
    ensures Outcome(p, e).result.Obj? && Outcome(p, e).result != Obj(map[])
  {
    TransportOutcome.OutcomeIsClosed(p, e);
    HasOk(Outcome(p, e));
  }

  /** What the ledger then holds of an exchange: its result under the right name, or no result at all. */
  lemma {:induction false} OutcomeIsRecorded<V(!new), S(!new)>(x: Context, p: Policy, e: Exchange,
                                                               protectedNames: set<string>, installers: set<string>,
                                                               dom: Domain<EventType, Data, V, S>, finishedAt: Json)
    requires Judges(x, p, protectedNames, installers) && KeepsWords(x.rules, p) && Redacts(x, dom)
    requires (forall s: string :: x.show(Str(s)) == s) && (p.Dns? ==> p.commit == RequestedCommit(x))
    ensures var o := Outcome(p, e);
            var record := TerminalRecord(dom, TerminalEvent(x, Response(o)), finishedAt);
            if Storable(x, p) then
              && record.name == (if o.ok then SUCCEEDED else FAILED)
              && RESULT in record.data && record.data[RESULT] == LedgerResult(x, o.result)
            else record.name == FAILED && RESULT !in record.data
  {
    StoredExactly(x, p, e, protectedNames, installers);
    OutcomeHasResult(p, e);
    ClosedRecord(x, dom, Outcome(p, e), finishedAt);
  }
}
