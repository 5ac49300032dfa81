/** The terminal record of a response, field by field, in terms of the response itself. */
module BackendFailure {
  import opened EventLimits
  import opened Json
  import opened LedgerForm
  import opened Projection
  import SchemaRelaxation
  import opened BackendResponse
  import opened BackendRecord

  /** `str` of a string is the string. */
  ghost predicate ShowsStrings(x: Context) { forall s: string :: x.show(Str(s)) == s }

  /** The value under a name of the event data, as the ledger stores it. */
  function StoredUnder(x: Context, k: string, v: Json): Json
    requires Lists(x.order)
  {
    Redact(x.rules, x.order, v, k, [k], 1)
  }

  lemma {:induction false} TerminalField(x: Context, d: Data, k: string)
    requires Lists(x.order) && PlainKeys(x.rules) && d.Keys <= DATA_KEYS && k in d
    ensures var stored := RedactData(x.rules, x.order, d); k in stored && stored[k] == StoredUnder(x, k, d[k])
  {
    DataIsSmall(d);
    DataField(x.rules, x.order, d, k);
  }

  lemma {:induction false} SuccessData(x: Context, result: Json, finishedAt: Json)
    requires Lists(x.order) && PlainKeys(x.rules)
    ensures var stored := RedactData(x.rules, x.order, SucceededData(result, finishedAt));
            && stored.Keys == {"status", RESULT, "finished_at"}
            && stored["status"] == StoredUnder(x, "status", Str("succeeded"))
            && stored["finished_at"] == StoredUnder(x, "finished_at", finishedAt)
            && stored[RESULT] == LedgerResult(x, result)
  {
    var d := SucceededData(result, finishedAt);
    assert d.Keys == {"status", RESULT, "finished_at"} && d[RESULT] == result;
    StoredFields(x, d);
  }

  /** A success: its name, level and message, and the three fields of its data. */
  lemma {:induction false} SuccessRecord<V(!new), S(!new)>(x: Context, dom: Domain<EventType, Data, V, S>,
                                                           response: Json, finishedAt: Json)
    requires Redacts(x, dom) && PlainKeys(x.rules) && TerminalEvent(x, response).Succeeded?
    ensures var record := TerminalRecord(dom, TerminalEvent(x, response), finishedAt);
            && record.name == SUCCEEDED && record.level == "info" && record.message == dom.bounded(COMPLETED)
            && record.data.Keys == {"status", RESULT, "finished_at"}
            && record.data["status"] == StoredUnder(x, "status", Str("succeeded"))
            && record.data["finished_at"] == StoredUnder(x, "finished_at", finishedAt)
            && record.data[RESULT] == LedgerResult(x, Persist(response.Get(RESULT)))
  {
    SuccessIsEarned(x, response);
    SuccessData(x, Persist(response.Get(RESULT)), finishedAt);
  }

  lemma {:induction false} FailureNames(code: string, message: string, result: Json, finishedAt: Json)
    ensures var d := FailedData(code, message, result, finishedAt);
            && d.Keys == DATA_KEYS - (if result == Obj(map[]) then {RESULT} else {})
            && d["status"] == Str("failed") && d["code"] == Str(code) && d["error_message"] == Str(message)
            && d["finished_at"] == finishedAt && (result != Obj(map[]) ==> d[RESULT] == result)
  {
  }

  /** The five fields of a failure's data; the result is left out when it is empty. */
  lemma {:induction false} FailureData(x: Context, code: string, message: string, result: Json, finishedAt: Json)
    requires Lists(x.order) && PlainKeys(x.rules)
    ensures var stored := RedactData(x.rules, x.order, FailedData(code, message, result, finishedAt));
            && stored.Keys == DATA_KEYS - (if result == Obj(map[]) then {RESULT} else {})
            && stored["status"] == StoredUnder(x, "status", Str("failed"))
            && stored["code"] == Str(x.rules.text(MAX_STRING, code))
            && stored["error_message"] == StoredUnder(x, "error_message", Str(message))
            && stored["finished_at"] == StoredUnder(x, "finished_at", finishedAt)
            && (result != Obj(map[]) ==> stored[RESULT] == LedgerResult(x, result))
  {
    var d := FailedData(code, message, result, finishedAt);
    FailureNames(code, message, result, finishedAt);
    StoredFields(x, d);
    CodeIsText(x, code);
  }

  lemma {:induction false} StoredFields(x: Context, d: Data)
    requires Lists(x.order) && PlainKeys(x.rules) && d.Keys <= DATA_KEYS
    ensures var stored := RedactData(x.rules, x.order, d);
            && stored.Keys == d.Keys && (forall k | k in d :: stored[k] == StoredUnder(x, k, d[k]))
            && (RESULT in d ==> stored[RESULT] == LedgerResult(x, d[RESULT]))
  {
    TerminalData(x, d);
    forall k | k in d ensures RedactData(x.rules, x.order, d)[k] == StoredUnder(x, k, d[k]) { TerminalField(x, d, k); }
  }

  /** A record of a failure with this code, text and result. */
  ghost predicate IsFailure<V(!new), S(!new)>(x: Context, dom: Domain<EventType, Data, V, S>, record: Record<Data>,
                                              code: string, text: string, result: Json, finishedAt: Json)
    requires Lists(x.order)
  {
    var bounded := dom.bounded(text);
    var message := if bounded == "" then DEFAULT_FAILURE else bounded;
    && record.name == FAILED && record.level == "error" && record.message == dom.bounded(message)
    && record.data.Keys == DATA_KEYS - (if result == Obj(map[]) then {RESULT} else {})
    && record.data["status"] == StoredUnder(x, "status", Str("failed"))
    && record.data["code"] == Str(x.rules.text(MAX_STRING, code))
    && record.data["error_message"] == StoredUnder(x, "error_message", Str(message))
    && record.data["finished_at"] == StoredUnder(x, "finished_at", finishedAt)
    && (result != Obj(map[]) ==> record.data[RESULT] == LedgerResult(x, result))
  }

  lemma {:induction false} FailureIsRecorded<V(!new), S(!new)>(x: Context, dom: Domain<EventType, Data, V, S>,
                                                               code: string, text: string, result: Json,
                                                               finishedAt: Json)
    requires Redacts(x, dom) && PlainKeys(x.rules)
    ensures IsFailure(x, dom, TerminalRecord(dom, Failed(code, text, result), finishedAt), FailureCode(code), text,
                      result, finishedAt)
  {
    FailureData(x, FailureCode(code), FailureMessage(dom, text), result, finishedAt);
  }

  /** The code that an `error_code` is stored as: itself when it is a catalog code, otherwise the fallback. */
  function CodeFor(x: Context, v: Json): string {
    if v.Str? then if IsCatalogCode(v.s) then v.s else FAILED_CODE
    else if Truthy(v) && IsCatalogCode(x.show(v)) then x.show(v)
    else FAILED_CODE
  }

  /** A failure of a procedure without a closed envelope of its own that carries a catalog code and no result. */
  predicate OnlyHasCode(c: Contract, response: Json) {
    var result, code := response.Get(RESULT), response.Get("error_code");
    && !c.gitea && !c.staging && !c.dns && response.Get("ok") == Bool(false)
    && (!response.Has(RESULT) || result == Obj(map[])) && code.Str? && IsCatalogCode(code.s)
  }

  /** The text that is recorded: the message of the backend, or only its code when there is nothing else. */
  function TextFor(x: Context, response: Json): string {
    if OnlyHasCode(x.contract, response) then "Backend reported " + response.Get("error_code").s + "."
    else if response.Get("error_message").Str? then response.Get("error_message").s
    else if Truthy(response.Get("error_message")) then x.show(response.Get("error_message"))
    else ""
  }

  /** The code and the text that the backend reports, before they are made storable. */
  lemma {:induction false} FieldsCarry(x: Context, response: Json)
    requires ShowsStrings(x)
    ensures var (code, text) := FailureFields(x, response);
            var raw := response.Get(RESULT);
            if x.contract.gitea && raw.Obj? then
              text == x.diagnose(raw).1 && FailureCode(code) == CodeFor(x, Str(x.diagnose(raw).0))
            else
              && (!Skips(x.contract, response) ==> text == TextFor(x, response))
              && (Skips(x.contract, response) ==> code == response.Get("error_code").s)
              && FailureCode(code) == CodeFor(x, response.Get("error_code"))
  {
    FallbacksAreCatalog();
  }

  /** What the terminal event of such a failure carries. */
  lemma {:induction false} FailureCarries(x: Context, response: Json)
    requires Lists(x.order) && ShowsStrings(x) && Mismatch(x, response).None? && !Truthy(response.Get("ok"))
    ensures var t, raw := TerminalEvent(x, response), response.Get(RESULT);
            && t.Failed? && t.result == (if raw.Obj? then raw else Obj(map[]))
            && (if x.contract.gitea && raw.Obj? then
                  t.text == x.diagnose(raw).1 && FailureCode(t.code) == CodeFor(x, Str(x.diagnose(raw).0))
                else t.text == TextFor(x, response) && FailureCode(t.code) == CodeFor(x, response.Get("error_code")))
  {
    FieldsCarry(x, response);
    FallbacksAreCatalog();
    assert FailureCode("") == FAILED_CODE == FailureCode(FAILED_CODE);
  }

  /**
   A failure that is no mismatch is recorded with the backend's own code, message and result. The codes and
   messages of an upgrade with a result come from its diagnosis instead.
   */
  lemma {:induction false} FailureExactly<V(!new), S(!new)>(x: Context, dom: Domain<EventType, Data, V, S>,
                                                            response: Json, finishedAt: Json)
    requires Redacts(x, dom) && PlainKeys(x.rules) && ShowsStrings(x)
    requires Mismatch(x, response).None? && !Truthy(response.Get("ok"))
    ensures var raw, record := response.Get(RESULT), TerminalRecord(dom, TerminalEvent(x, response), finishedAt);
            if x.contract.gitea && raw.Obj? then
              var (code, text) := x.diagnose(raw);
              IsFailure(x, dom, record, CodeFor(x, Str(code)), text, raw, finishedAt)
            else
              IsFailure(x, dom, record, CodeFor(x, response.Get("error_code")), TextFor(x, response),
                        if raw.Obj? then raw else Obj(map[]), finishedAt)
  {
    FailureCarries(x, response);
    var t := TerminalEvent(x, response);
    FailureIsRecorded(x, dom, t.code, t.text, t.result, finishedAt);
  }

  lemma {:induction false} CodeForIsCatalog(x: Context, v: Json)
    ensures IsCatalogCode(CodeFor(x, v))
  {
    FallbacksAreCatalog();
  }

  lemma {:induction false} CodeOfFailure<V(!new), S(!new)>(x: Context, dom: Domain<EventType, Data, V, S>,
                                                           record: Record<Data>, code: string, text: string,
                                                           result: Json, finishedAt: Json)
    requires Lists(x.order) && IsFailure(x, dom, record, code, text, result, finishedAt)
    requires KeepsCodes(x.rules) && IsCatalogCode(code)
    ensures "code" in record.data && record.data["code"] == Str(code)
  {
  }

  /** With a redactor that keeps catalog codes, the record holds the code itself. */
  lemma {:induction false} CodeIsKept<V(!new), S(!new)>(x: Context, dom: Domain<EventType, Data, V, S>,
                                                        response: Json, finishedAt: Json)
    requires Redacts(x, dom) && PlainKeys(x.rules) && ShowsStrings(x) && KeepsCodes(x.rules)
    requires Mismatch(x, response).None? && !Truthy(response.Get("ok"))
    requires !(x.contract.gitea && response.Get(RESULT).Obj?)
    ensures var record := TerminalRecord(dom, TerminalEvent(x, response), finishedAt);
            "code" in record.data && record.data["code"] == Str(CodeFor(x, response.Get("error_code")))
  {
    var raw, code := response.Get(RESULT), response.Get("error_code");
    FailureExactly(x, dom, response, finishedAt);
    CodeForIsCatalog(x, code);
    CodeOfFailure(x, dom, TerminalRecord(dom, TerminalEvent(x, response), finishedAt), CodeFor(x, code),
                  TextFor(x, response), if raw.Obj? then raw else Obj(map[]), finishedAt);
  }

  /** A mismatch: its own code and explanation, and no result. */
  lemma {:induction false} MismatchExactly<V(!new), S(!new)>(x: Context, dom: Domain<EventType, Data, V, S>,
                                                             response: Json, finishedAt: Json)
    requires Redacts(x, dom) && PlainKeys(x.rules) && Mismatch(x, response).Some?
    ensures IsFailure(x, dom, TerminalRecord(dom, TerminalEvent(x, response), finishedAt), MISMATCH_CODE,
                      x.explain(Mismatch(x, response).value, response), Obj(map[]), finishedAt)
  {
    MismatchCodeIsCatalog();
    var t := TerminalEvent(x, response);
    FailureIsRecorded(x, dom, t.code, t.text, t.result, finishedAt);
  }

  /**
   No result is stored unchecked: whatever the terminal record of a procedure with a result schema holds as
   result, of a success or of a failure, passed the full schema.
   */
  lemma {:induction false} StoredResultIsValid<V(!new), S(!new)>(x: Context, dom: Domain<EventType, Data, V, S>,
                                                                 response: Json, finishedAt: Json)
    requires Redacts(x, dom) && PlainKeys(x.rules) && x.schema.Some?
    ensures var record := TerminalRecord(dom, TerminalEvent(x, response), finishedAt);
            RESULT in record.data ==> SchemaRelaxation.Valid(x.valid, x.schema.value, record.data[RESULT])
  {
    var t := TerminalEvent(x, response);
    if t.Succeeded? {
      SuccessIsEarned(x, response);
      SuccessRecord(x, dom, response, finishedAt);
    } else {
      FailureIsRecorded(x, dom, t.code, t.text, t.result, finishedAt);
      FailedResultIsChecked(x, response);
    }
  }

  lemma {:induction false} FailedResultIsChecked(x: Context, response: Json)
    requires Lists(x.order) && x.schema.Some? && TerminalEvent(x, response).Failed?
    ensures var t := TerminalEvent(x, response);
            t.result != Obj(map[]) ==> SchemaRelaxation.Valid(x.valid, x.schema.value, LedgerResult(x, t.result))
  {
  }
}
