/**
 `record_backend_response` on an execution: the progress events of the backend, then one terminal event,
 each appended to the ledger in its redacted form and projected onto the row.
 */
module BackendRecord {
  import opened EventLimits
  import opened Json
  import opened Ordering
  import opened LedgerForm
  import opened Projection
  import opened SchemaRelaxation
  import opened BackendResponse

  const MAX_BACKEND_EVENTS: nat := 50
  const SUCCEEDED := "ExecutionSucceeded"
  const FAILED := "ExecutionFailed"
  const COMPLETED := "RPC execution completed."
  const UNNAMED := "BackendEventRecorded"
  const DEFAULT_FAILURE := "RPC execution failed."

  /** The event types that a response appends; the registry holds others. */
  datatype EventType = BackendEvent | SucceededEvent | FailedEvent | OtherEvent(name: string)

  type Data = map<string, Json>

  // ----- The records of a response -----

  /** The record that an event leaves in the ledger of the domain. */
  ghost function LedgerRecord<V(!new), S(!new)>(dom: Domain<EventType, Data, V, S>, k: EventType, level: string,
                                                name: string, message: string, d: Data): Record<Data>
  {
    Record(EventLevel(level), name, dom.bounded(message), dom.redact(k, d))
  }

  function TextOf(x: Context, v: Json, default: string): string { if Truthy(v) then x.show(v) else default }

  function DataOf(v: Json): Data { if v.Obj? then v.fields else map[] }

  function LevelOf(item: Json): string { if item.Get("level").Str? then item.Get("level").s else "info" }

  /** The name under which a progress item is stored. */
  function NameOf(x: Context, item: Json): string { BACKEND_PREFIX + x.name(TextOf(x, item.Get("event"), UNNAMED)) }

  /** The record of one progress item. */
  ghost function ProgressRecord<V(!new), S(!new)>(dom: Domain<EventType, Data, V, S>, x: Context,
                                                  item: Json): Record<Data>
  {
    LedgerRecord(dom, BackendEvent, LevelOf(item), NameOf(x, item), TextOf(x, item.Get("message"), ""),
                 DataOf(item.Get("data")))
  }

  /** The raw items of a response that are looked at. */
  function FirstItems(response: Json): seq<Json> {
    var events := response.Get("events");
    if !events.Arr? then []
    else if |events.items| <= MAX_BACKEND_EVENTS then events.items
    else events.items[..MAX_BACKEND_EVENTS]
  }

  ghost function ProgressRecords<V(!new), S(!new)>(dom: Domain<EventType, Data, V, S>, x: Context,
                                                   items: seq<Json>): seq<Record<Data>>
  {
    if items == [] then []
    else
      var n := |items| - 1;
      ProgressRecords(dom, x, items[..n]) + if items[n].Obj? then [ProgressRecord(dom, x, items[n])] else []
  }

  /** The data of an `ExecutionSucceeded` event. */
  function SucceededData(result: Json, finishedAt: Json): Data {
    map["status" := Str("succeeded"), RESULT := result, "finished_at" := finishedAt]
  }

  /** The data of an `ExecutionFailed` event; an empty result is left out. */
  function FailedData(code: string, message: string, result: Json, finishedAt: Json): Data {
    var data := map["status" := Str("failed"), "code" := Str(code), "error_message" := Str(message),
                    "finished_at" := finishedAt];
    if result == Obj(map[]) then data else data[RESULT := result]
  }

  /** The message of a failure is redacted before the event is made, and never empty. */
  function FailureMessage<V(!new), S(!new)>(dom: Domain<EventType, Data, V, S>, text: string): string {
    var message := dom.bounded(text);
    if message == "" then DEFAULT_FAILURE else message
  }

  ghost function TerminalRecord<V(!new), S(!new)>(dom: Domain<EventType, Data, V, S>, t: Terminal,
                                                  finishedAt: Json): Record<Data>
  {
    match t
    case Succeeded(result) =>
      LedgerRecord(dom, SucceededEvent, "info", SUCCEEDED, COMPLETED, SucceededData(result, finishedAt))
    case Failed(code, text, result) => FailureRecord(dom, code, FailureMessage(dom, text), result, finishedAt)
  }

  /** The code that a failure event is stored with. */
  function FailureCode(code: string): (r: string)
    ensures IsCatalogCode(r) && (IsCatalogCode(code) ==> r == code)
  {
    FallbacksAreCatalog();
    Persistable(code, FAILED_CODE)
  }

  ghost function FailureRecord<V(!new), S(!new)>(dom: Domain<EventType, Data, V, S>, code: string, message: string,
                                                 result: Json, finishedAt: Json): Record<Data>
  {
    LedgerRecord(dom, FailedEvent, "error", FAILED, message,
                 FailedData(FailureCode(code), message, result, finishedAt))
  }

  // ----- The execution -----

  /** The registry of event types: the terminal names are registered, no prefixed backend name is. */
  ghost predicate IsRegistry<V(!new), S(!new)>(dom: Domain<EventType, Data, V, S>) {
    && dom.BackendIsInert() && dom.backend == BackendEvent
    && SUCCEEDED in dom.types && dom.types[SUCCEEDED] == SucceededEvent
    && FAILED in dom.types && dom.types[FAILED] == FailedEvent
    && (forall name | name in dom.types :: !(BACKEND_PREFIX <= name))
  }

  /** One turn of the loop in `_record_backend_progress_events`. */
  method RecordItem<V(!new), S(!new, ==)>(exec: Execution<EventType, Data, V, S>, x: Context, item: Json)
    returns (record: Record<Data>)
    requires IsRegistry(exec.domain)
    modifies exec
    ensures record == ProgressRecord(exec.domain, x, item) && exec.records == old(exec.records) + [record]
    ensures old(exec.Consistent()) ==> exec.Consistent()
  {
    assert BACKEND_PREFIX <= NameOf(x, item);
    record := exec.AppendAndProject(BackendEvent, LevelOf(item), NameOf(x, item), TextOf(x, item.Get("message"), ""),
                                    DataOf(item.Get("data")));
  }

  lemma {:induction false} ProgressStep<V(!new), S(!new)>(dom: Domain<EventType, Data, V, S>, x: Context,
                                                          items: seq<Json>, i: nat)
    requires i < |items|
    ensures ProgressRecords(dom, x, items[..i + 1])
            == ProgressRecords(dom, x, items[..i])
               + if items[i].Obj? then [ProgressRecord(dom, x, items[i])] else []
  {
    assert items[..i + 1][..i] == items[..i] && items[..i + 1][i] == items[i];
  }

  /** `_record_backend_progress_events`: the loop over at most fifty raw items. */
  method RecordProgress<V(!new), S(!new, ==)>(exec: Execution<EventType, Data, V, S>, x: Context, response: Json)
    returns (appended: seq<Record<Data>>)
    requires IsRegistry(exec.domain)
    modifies exec
    ensures appended == ProgressRecords(exec.domain, x, FirstItems(response))
    ensures exec.records == old(exec.records) + appended
    ensures old(exec.Consistent()) ==> exec.Consistent()
  {
    var items := FirstItems(response);
    appended := [];
    for i := 0 to |items|
      invariant appended == ProgressRecords(exec.domain, x, items[..i])
      invariant exec.records == old(exec.records) + appended
      invariant old(exec.Consistent()) ==> exec.Consistent()
    {
      ProgressStep(exec.domain, x, items, i);
      if items[i].Obj? {
        var record := RecordItem(exec, x, items[i]);
        appended := appended + [record];
      }
    }
    assert items[..|items|] == items;
  }

  /** The failure branch of `_record_backend_terminal_event`. */
  method RecordFailure<V(!new), S(!new, ==)>(exec: Execution<EventType, Data, V, S>, code: string,
                                             text: string, result: Json, finishedAt: Json)
    returns (record: Record<Data>)
    requires IsRegistry(exec.domain)
    modifies exec
    ensures record == FailureRecord(exec.domain, code, FailureMessage(exec.domain, text), result, finishedAt)
    ensures exec.records == old(exec.records) + [record]
    ensures old(exec.Consistent()) ==> exec.Consistent()
  {
    var message := exec.domain.bounded(text);
    if message == "" {
      message := DEFAULT_FAILURE;
    }
    assert message == FailureMessage(exec.domain, text);
    record := exec.AppendAndProject(FailedEvent, "error", FAILED, message,
                                    FailedData(FailureCode(code), message, result, finishedAt));
  }

  /** `_record_backend_terminal_event`. */
  method RecordTerminal<V(!new), S(!new, ==)>(exec: Execution<EventType, Data, V, S>, x: Context,
                                              response: Json, finishedAt: Json)
    returns (record: Record<Data>)
    requires IsRegistry(exec.domain) && Lists(x.order)
    modifies exec
    ensures record == TerminalRecord(exec.domain, TerminalEvent(x, response), finishedAt)
    ensures exec.records == old(exec.records) + [record]
    ensures old(exec.Consistent()) ==> exec.Consistent()
  {
    var raw, mismatch := response.Get(RESULT), Mismatch(x, response);
    if Truthy(response.Get("ok")) && mismatch.None? {
      record := exec.AppendAndProject(SucceededEvent, "info", SUCCEEDED, COMPLETED,
                                      SucceededData(Persist(raw), finishedAt));
      return;
    }
    var (code, text) := FailureFields(x, response);
    if mismatch.Some? {
      code, text := MISMATCH_CODE, x.explain(mismatch.value, response);
    } else if Skips(x.contract, response) {
      text := "Backend reported " + code + ".";
    }
    var kept := if raw.Obj? && mismatch.None? then raw else Obj(map[]);
    record := RecordFailure(exec, if code == "" then FAILED_CODE else code, text, kept, finishedAt);
  }

  /** The progress records that a response appends. */
  ghost function Progress<V(!new), S(!new)>(dom: Domain<EventType, Data, V, S>, x: Context, response: Json)
    : seq<Record<Data>>
  {
    if x.contract.isProtected || Skips(x.contract, response) then []
    else ProgressRecords(dom, x, FirstItems(response))
  }

  /** `record_backend_response`. */
  method RecordBackendResponse<V(!new), S(!new, ==)>(exec: Execution<EventType, Data, V, S>, x: Context,
                                                     response: Json, finishedAt: Json)
    returns (progress: seq<Record<Data>>, terminal: Record<Data>)
    requires IsRegistry(exec.domain) && Lists(x.order)
    modifies exec
    ensures exec.records == old(exec.records) + progress + [terminal]
    ensures progress == Progress(exec.domain, x, response)
    ensures terminal == TerminalRecord(exec.domain, TerminalEvent(x, response), finishedAt)
    ensures old(exec.Consistent()) ==> exec.Consistent()
  {
    progress := [];
    if !x.contract.isProtected && !Skips(x.contract, response) {
      progress := RecordProgress(exec, x, response);
    }
    terminal := RecordTerminal(exec, x, response, finishedAt);
  }

  // ----- What the records hold -----

  /** Only the terminal events are redacted under the limits of the result schema. */
  function RulesFor(x: Context, k: EventType): Rules {
    if k.SucceededEvent? || k.FailedEvent? then x.rules else x.rules.(limits := map[])
  }

  /** `redact_event_data`. */
  function RedactData(r: Rules, order: Order, d: Data): Data
    requires Lists(order)
  {
    var v := Redact(r, order, Obj(d), "", [], 0);
    if v.Obj? then v.fields else map[]
  }

  /** The domain redacts the data of these events as the ledger does. */
  ghost predicate Redacts<V(!new), S(!new)>(x: Context, dom: Domain<EventType, Data, V, S>) {
    && Lists(x.order)
    && forall k: EventType, d: Data | !k.OtherEvent? :: dom.redact(k, d) == RedactData(RulesFor(x, k), x.order, d)
  }

  const DATA_KEYS := {"status", "code", "error_message", "finished_at", RESULT}

  /** The names of the event data are plain, and only paths below the result have a limit of their own. */
  ghost predicate PlainKeys(r: Rules) {
    && !r.policy("") && !r.sensitive("") && (forall k | k in DATA_KEYS :: !r.secret(k))
    && !r.policy("code") && !r.sensitive("code") && (forall q | q in r.limits :: q != [] && q[0] == RESULT)
  }

  lemma {:induction false} DataField(r: Rules, order: Order, d: Data, k: string)
    requires Lists(order) && !r.policy("") && !r.sensitive("") && |d| <= MAX_DICT && forall k | k in d :: !r.secret(k)
    requires k in d
    ensures k in RedactData(r, order, d) && RedactData(r, order, d)[k] == Redact(r, order, d[k], k, [k], 1)
  {
    FieldAt(r, order, d, k, "", [], 0, [k], 1);
  }

  lemma {:induction false} FieldAt(r: Rules, order: Order, d: Data, k: string, key: string, path: Path, depth: nat,
                                   at: Path, below: nat)
    requires Lists(order) && !r.policy(key) && !r.sensitive(key) && |d| <= MAX_DICT && forall k | k in d :: !r.secret(k)
    requires k in d && depth <= MAX_DEPTH && at == path + [k] && below == depth + 1
    ensures var out := Redact(r, order, Obj(d), key, path, depth);
            out.Has(k) && out.fields[k] == Redact(r, order, d[k], k, at, below)
  {
    FieldsAreIndependent(r, order, d, k, key, path, depth);
  }

  lemma {:induction false} DataKeys(r: Rules, order: Order, d: Data)
    requires Lists(order) && !r.policy("") && !r.sensitive("") && |d| <= MAX_DICT && forall k | k in d :: !r.secret(k)
    ensures RedactData(r, order, d).Keys == d.Keys
  {
    FieldByField(r, order, d, "", [], 0);
  }

  lemma {:induction false} LedgerResultAlone(x: Context, result: Json)
    requires Lists(x.order) && PlainKeys(x.rules)
    ensures LedgerResult(x, result) == Redact(x.rules, x.order, result, RESULT, [RESULT], 1)
  {
    var d := map[RESULT := result];
    assert d.Keys == {RESULT} && |d| == 1;
    DataField(x.rules, x.order, d, RESULT);
  }

  /** A flat result of plain names and texts that redaction keeps is its own ledger form. */
  lemma {:induction false} FlatResultIsKept(x: Context, fields: Data)
    requires Lists(x.order) && PlainKeys(x.rules) && !x.rules.policy(RESULT) && !x.rules.sensitive(RESULT)
    requires x.rules.limits == map[] && |fields| <= MAX_DICT
    requires forall k | k in fields :: !x.rules.secret(k) && !x.rules.sensitive(k) && !x.rules.policy(k)
    requires forall k | k in fields :: IsFlat(x.rules, fields[k])
    ensures LedgerResult(x, Obj(fields)) == Obj(fields)
  {
    LedgerResultAlone(x, Obj(fields));
    FieldByField(x.rules, x.order, fields, RESULT, [RESULT], 1);
    var out := Redact(x.rules, x.order, Obj(fields), RESULT, [RESULT], 1);
    forall k | k in fields ensures out.fields[k] == fields[k] {
      FlatIsKept(x.rules, x.order, fields[k], k, [RESULT] + [k], 2);
    }
  }

  /** A scalar, or a text that the leaf redactor keeps. */
  predicate IsFlat(r: Rules, v: Json) { !v.Arr? && !v.Obj? && (v.Str? ==> r.text(MAX_STRING, v.s) == v.s) }

  lemma {:induction false} FlatIsKept(r: Rules, order: Order, v: Json, key: string, path: Path, depth: nat)
    requires Lists(order) && !r.sensitive(key) && !r.policy(key) && path !in r.limits && IsFlat(r, v)
    ensures Redact(r, order, v, key, path, depth) == v
  {
  }

  lemma {:induction false} DataIsSmall(d: Data)
    requires d.Keys <= DATA_KEYS
    ensures |d| <= MAX_DICT
  {
    SubsetSize(d.Keys, DATA_KEYS);
    assert |d| == |d.Keys|;
  }

  /** Every field of terminal data is stored as it is redacted on its own; the result, as it was checked. */
  lemma {:induction false} TerminalData(x: Context, d: Data)
    requires Lists(x.order) && PlainKeys(x.rules) && d.Keys <= DATA_KEYS
    ensures var stored := RedactData(x.rules, x.order, d);
            && stored.Keys == d.Keys
            && (RESULT in d ==> stored[RESULT] == LedgerResult(x, d[RESULT]))
            && ("code" in d ==> stored["code"] == Redact(x.rules, x.order, d["code"], "code", ["code"], 1))
  {
    DataIsSmall(d);
    DataKeys(x.rules, x.order, d);
    if "code" in d { DataField(x.rules, x.order, d, "code"); }
    if RESULT in d {
      DataField(x.rules, x.order, d, RESULT);
      LedgerResultAlone(x, d[RESULT]);
    }
  }

  lemma {:induction false} DataNames(result: Json, finishedAt: Json, code: string, message: string)
    ensures SucceededData(result, finishedAt).Keys <= DATA_KEYS && SucceededData(result, finishedAt)[RESULT] == result
    ensures var d := FailedData(code, message, result, finishedAt);
            && d.Keys <= DATA_KEYS && "code" in d && d["code"] == Str(code)
            && (RESULT in d <==> result != Obj(map[])) && (RESULT in d ==> d[RESULT] == result)
  {
  }

  lemma {:induction false} SuccessStores<V(!new), S(!new)>(x: Context, dom: Domain<EventType, Data, V, S>, result: Json,
                                                           finishedAt: Json)
    requires Redacts(x, dom) && PlainKeys(x.rules)
    ensures var record := TerminalRecord(dom, Succeeded(result), finishedAt);
            RESULT in record.data && record.data[RESULT] == LedgerResult(x, result)
  {
    DataNames(result, finishedAt, "", "");
    TerminalData(x, SucceededData(result, finishedAt));
  }

  /** The leaf redactor leaves catalog codes alone. */
  ghost predicate KeepsCodes(r: Rules) { forall c | IsCatalogCode(c) :: r.text(MAX_STRING, c) == c }

  /**
   A failure stores a catalog code, as the leaf redactor leaves it, and the ledger form of its result if it
   has one.
   */
  lemma {:induction false} FailureStores<V(!new), S(!new)>(x: Context, dom: Domain<EventType, Data, V, S>, code: string,
                                                           message: string, result: Json, finishedAt: Json)
    requires Redacts(x, dom) && PlainKeys(x.rules)
    ensures var record := FailureRecord(dom, code, message, result, finishedAt);
            && (RESULT in record.data <==> result != Obj(map[]))
            && (RESULT in record.data ==> record.data[RESULT] == LedgerResult(x, result))
            && "code" in record.data
            && record.data["code"] == Str(x.rules.text(MAX_STRING, FailureCode(code)))
            && IsCatalogCode(FailureCode(code))
            && (KeepsCodes(x.rules) ==> record.data["code"] == Str(FailureCode(code)))
  {
    var stored := FailureCode(code);
    DataNames(result, finishedAt, stored, message);
    TerminalData(x, FailedData(stored, message, result, finishedAt));
    CodeIsText(x, stored);
  }

  /** The stored result of a success is exactly the value that passed the full schema. */
  lemma {:induction false} StoredAsChecked<V(!new), S(!new)>(x: Context, dom: Domain<EventType, Data, V, S>,
                                                             response: Json, finishedAt: Json)
    requires Redacts(x, dom) && PlainKeys(x.rules) && TerminalEvent(x, response).Succeeded?
    ensures var record := TerminalRecord(dom, TerminalEvent(x, response), finishedAt);
            && record.name == SUCCEEDED && RESULT in record.data
            && record.data[RESULT] == LedgerResult(x, Persist(response.Get(RESULT)))
            && (x.schema.Some? ==> Valid(x.valid, x.schema.value, record.data[RESULT]))
  {
    SuccessIsEarned(x, response);
    SuccessStores(x, dom, TerminalEvent(x, response).result, finishedAt);
  }

  lemma {:induction false} CodeIsText(x: Context, code: string)
    requires Lists(x.order) && PlainKeys(x.rules)
    ensures Redact(x.rules, x.order, Str(code), "code", ["code"], 1) == Str(x.rules.text(MAX_STRING, code))
  {
    assert ["code"][0] != RESULT;
  }

  /** A mismatch is recorded as a failure under its own code, without any result. */
  lemma {:induction false} MismatchStoresNothing<V(!new), S(!new)>(x: Context, dom: Domain<EventType, Data, V, S>,
                                                                   response: Json, finishedAt: Json)
    requires Redacts(x, dom) && PlainKeys(x.rules) && Mismatch(x, response).Some?
    ensures var record := TerminalRecord(dom, TerminalEvent(x, response), finishedAt);
            && record.name == FAILED && RESULT !in record.data
            && record.data.Keys == {"status", "code", "error_message", "finished_at"}
            && record.data["code"] == Str(x.rules.text(MAX_STRING, MISMATCH_CODE))
            && (KeepsCodes(x.rules) ==> record.data["code"] == Str(MISMATCH_CODE))
  {
    MismatchCodeIsCatalog();
    var message := FailureMessage(dom, TerminalEvent(x, response).text);
    FailureStores(x, dom, MISMATCH_CODE, message, Obj(map[]), finishedAt);
    MismatchNames(x, message, finishedAt);
  }

  lemma {:induction false} MismatchNames(x: Context, message: string, finishedAt: Json)
    requires Lists(x.order) && PlainKeys(x.rules)
    ensures RedactData(x.rules, x.order, FailedData(MISMATCH_CODE, message, Obj(map[]), finishedAt)).Keys
            == {"status", "code", "error_message", "finished_at"}
  {
    DataNames(Obj(map[]), finishedAt, MISMATCH_CODE, message);
    TerminalData(x, FailedData(MISMATCH_CODE, message, Obj(map[]), finishedAt));
  }
}
