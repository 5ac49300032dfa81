/** When the ledger accepts a closed outcome: its result must pass the schema again in its ledger form. */
module ClosedLedger {
  import opened EventLimits
  import opened Json
  import opened Ordering
  import opened LedgerForm
  import opened Projection
  import opened BackendResponse
  import opened BackendRecord
  import Closed = ClosedResult
  import SchemaRelaxation

  const PRIOR := "prior_token_id"

  /** The response that a closed outcome hands to the ledger. */
  function Response(o: Closed.Closed): Json { Obj(map["ok" := Bool(o.ok), RESULT := o.result]) }

  lemma {:induction false} ResponseParts(o: Closed.Closed)
    ensures var r := Response(o);
            && r.Get("ok") == Bool(o.ok) && r.Has(RESULT) && r.Get(RESULT) == o.result && r.Get("events") == Null
            && r.fields.Keys == {"ok", RESULT}
  {
    assert Response(o).fields.Keys == {"ok", RESULT};
  }

  /** A context of `record_backend_response` for a procedure with this closed result schema. */
  ghost predicate Records(x: Context, s: Closed.Schema) {
    && Lists(x.order) && x.contract.envelope && x.schema.Some? && x.rules.limits == map[]
    && (forall v: Json :: SchemaRelaxation.Valid(x.valid, x.schema.value, v) <==> Closed.Valid(s, v))
    && PlainKeys(x.rules) && !x.rules.policy(RESULT) && !x.rules.sensitive(RESULT)
    && (forall k | k in Elements(s.names) + s.fixed.Keys :: !x.rules.secret(k))
    && s.WellFormed() && |s.names| + |s.fixed| <= MAX_DICT
  }

  lemma {:induction false} ResultSize(s: Closed.Schema, result: Json)
    requires s.WellFormed() && Closed.Valid(s, result)
    ensures |result.fields| <= |s.names| + |s.fixed|
  {
    DistinctCount(s.names);
    assert |result.fields| == |result.fields.Keys| && |s.fixed| == |s.fixed.Keys|;
    var a, b := Elements(s.names), s.fixed.Keys;
    assert |a + b| == |a| + |b|;
  }

  /** The first schema pass holds for every closed outcome, and the path for code-only failures is not taken. */
  lemma {:induction false} AcceptedWhen(x: Context, s: Closed.Schema, o: Closed.Closed)
    requires Records(x, s) && Closed.IsClosed(s, o) && o.result != Obj(map[])
    ensures Mismatch(x, Response(o)).None? <==>
            EnvelopeHolds(x, Response(o)) && Closed.Valid(s, LedgerResult(x, o.result))
  {
    ResponseParts(o);
    assert SchemaRelaxation.Valid(x.valid, x.schema.value, o.result);
    SchemaRelaxation.StripKeepsValid(x.valid, x.schema.value, x.limits, [], o.result);
    AcceptedExactly(x, Response(o));
  }

  // ----- Results that are kept -----

  /** A value that meets the check is a scalar or a text that the leaf redactor keeps. */
  ghost predicate FlatCheck(r: Rules, c: Closed.Check) {
    match c
    case Is(value) => IsFlat(r, value)
    case Word(words) => forall w | w in words :: r.text(MAX_STRING, w) == w
    case Truth(_) => true
    case Count(_, _) => true
    case _ => false
  }

  lemma {:induction false} CheckedIsFlat(r: Rules, c: Closed.Check, v: Json)
    requires FlatCheck(r, c) && Closed.Meets(c, v)
    ensures IsFlat(r, v)
  {
  }

  /** Every property has a plain name and a flat value. */
  ghost predicate KeepsResult(r: Rules, s: Closed.Schema, v: Json) {
    && s.fixed == map[] && |s.checks| == |s.names|
    && (forall i | 0 <= i < |s.names| :: !r.sensitive(s.names[i]) && !r.policy(s.names[i]))
    && (forall i | 0 <= i < |s.names| :: FlatCheck(r, s.checks[i]) || IsFlat(r, v.Get(s.names[i])))
  }

  /** Such a result is its own ledger form. */
  lemma {:induction false} KeptResult(x: Context, s: Closed.Schema, v: Json)
    requires Records(x, s) && Closed.Valid(s, v) && KeepsResult(x.rules, s, v)
    ensures LedgerResult(x, v) == v
  {
    ResultSize(s, v);
    forall k | k in v.fields
      ensures !x.rules.secret(k) && !x.rules.sensitive(k) && !x.rules.policy(k) && IsFlat(x.rules, v.fields[k])
    {
      assert k in Elements(s.names);
      var i :| 0 <= i < |s.names| && s.names[i] == k;
      assert Closed.RowOf(s.names, v)[i] == v.fields[k];
      if FlatCheck(x.rules, s.checks[i]) { CheckedIsFlat(x.rules, s.checks[i], v.fields[k]); }
    }
    FlatResultIsKept(x, v.fields);
  }

  /** So it is accepted exactly when its envelope is. */
  lemma {:induction false} KeptIsAccepted(x: Context, s: Closed.Schema, o: Closed.Closed)
    requires Records(x, s) && Closed.IsClosed(s, o) && o.result != Obj(map[]) && KeepsResult(x.rules, s, o.result)
    ensures Mismatch(x, Response(o)).None? <==> EnvelopeHolds(x, Response(o))
  {
    AcceptedWhen(x, s, o);
    KeptResult(x, s, o.result);
  }

  // ----- Results that are never kept -----

  /** The identifier of the earlier token is overwritten. */
  ghost predicate Overwrites(r: Rules) {
    r.sensitive(PRIOR) && !r.policy(PRIOR) && forall v: Json :: r.public(v, PRIOR).None?
  }

  /** The schema types the identifier of the earlier token as a count or null. */
  predicate HasPrior(s: Closed.Schema, i: nat) {
    i < |s.names| && i < |s.checks| && s.names[i] == PRIOR && s.checks[i].Count?
  }

  lemma {:induction false} PriorIsCount(s: Closed.Schema, i: nat, v: Json)
    requires HasPrior(s, i) && Closed.Valid(s, v)
    ensures v.Has(PRIOR) && !v.Get(PRIOR).Bool? && !v.Get(PRIOR).Str?
  {
    assert Closed.RowOf(s.names, v)[i] == v.Get(PRIOR);
    assert s.names[i] in Elements(s.names);
  }

  lemma {:induction false} StringIsInvalid(s: Closed.Schema, i: nat, v: Json)
    requires HasPrior(s, i) && v.Get(PRIOR).Str?
    ensures !Closed.Valid(s, v)
  {
    assert i < |Closed.RowOf(s.names, v)| && Closed.RowOf(s.names, v)[i] == v.Get(PRIOR);
  }

  /** No valid result is still valid in its ledger form: the redacted identifier is a string. */
  lemma {:induction false} LedgerFormIsInvalid(x: Context, s: Closed.Schema, i: nat, result: Json)
    requires Records(x, s) && Overwrites(x.rules) && HasPrior(s, i) && Closed.Valid(s, result)
    ensures !Closed.Valid(s, LedgerResult(x, result))
  {
    PriorIsCount(s, i, result);
    ResultSize(s, result);
    LedgerFieldIsString(x, result.fields, PRIOR);
    StringIsInvalid(s, i, LedgerResult(x, result));
  }

  lemma {:induction false} PriorIsRefused(x: Context, s: Closed.Schema, i: nat, o: Closed.Closed)
    requires Records(x, s) && Overwrites(x.rules) && HasPrior(s, i) && Closed.IsClosed(s, o) && o.result != Obj(map[])
    ensures Mismatch(x, Response(o)).Some?
  {
    LedgerFormIsInvalid(x, s, i, o.result);
    AcceptedWhen(x, s, o);
  }

  // ----- The record -----

  /** An accepted outcome leaves its result in the terminal record; a refused one leaves no result. */
  lemma {:induction false} ClosedRecord<V(!new), S(!new)>(x: Context, dom: Domain<EventType, Data, V, S>,
                                                          o: Closed.Closed, finishedAt: Json)
    requires Redacts(x, dom) && PlainKeys(x.rules) && o.result.Obj? && o.result != Obj(map[])
    ensures var record := TerminalRecord(dom, TerminalEvent(x, Response(o)), finishedAt);
            if Mismatch(x, Response(o)).None? then
              && record.name == (if o.ok then SUCCEEDED else FAILED)
              && RESULT in record.data && record.data[RESULT] == LedgerResult(x, o.result)
            else record.name == FAILED && RESULT !in record.data
  {
    var response := Response(o);
    ResponseParts(o);
    var t := TerminalEvent(x, response);
    if Mismatch(x, response).Some? {
      MismatchStoresNothing(x, dom, response, finishedAt);
    } else if o.ok {
      SuccessStores(x, dom, o.result, finishedAt);
    } else {
      FailureStores(x, dom, t.code, FailureMessage(dom, t.text), o.result, finishedAt);
    }
  }
}
