/** The names, messages and data of the records that a backend response leaves, for the source's own redactor. */
module BackendLedger {
  import opened EventLimits
  import opened Json
  import opened LedgerForm
  import opened Redaction
  import opened EventText
  import opened Projection
  import opened BackendResponse
  import opened BackendRecord

  /** Names and messages are redacted and bounded as the source does it. */
  ghost predicate Bounds<V(!new), S(!new)>(x: Context, pat: Patterns, dom: Domain<EventType, Data, V, S>) {
    && (forall t: string :: BACKEND_PREFIX + x.name(t) == BackendEventName(pat, t))
    && (forall m: string :: dom.bounded(m) == RedactedMessage(pat, m))
  }

  /** The record is that of one of the items. */
  ghost predicate ComesFrom<V(!new), S(!new)>(dom: Domain<EventType, Data, V, S>, x: Context, items: seq<Json>,
                                              r: Record<Data>) {
    exists i :: 0 <= i < |items| && items[i].Obj? && r == ProgressRecord(dom, x, items[i])
  }

  lemma {:induction false} ProgressComesFrom<V(!new), S(!new)>(dom: Domain<EventType, Data, V, S>, x: Context,
                                                               items: seq<Json>)
    ensures |ProgressRecords(dom, x, items)| <= |items|
    ensures forall r | r in ProgressRecords(dom, x, items) :: ComesFrom(dom, x, items, r)
  {
    if items != [] {
      var n := |items| - 1;
      ProgressComesFrom(dom, x, items[..n]);
      forall r | r in ProgressRecords(dom, x, items) ensures ComesFrom(dom, x, items, r) {
        if r in ProgressRecords(dom, x, items[..n]) {
          var i :| 0 <= i < n && items[..n][i].Obj? && r == ProgressRecord(dom, x, items[..n][i]);
          assert items[i] == items[..n][i];
        } else {
          assert r == ProgressRecord(dom, x, items[n]);
        }
      }
    }
  }

  /** The name, message and data of a progress record. */
  ghost predicate IsProgress<V(!new), S(!new)>(dom: Domain<EventType, Data, V, S>, x: Context, pat: Patterns,
                                               item: Json, r: Record<Data>)
    requires Lists(x.order)
  {
    && r.level == (if item.Get("level").Str? && item.Get("level").s in LEVELS then item.Get("level").s else "info")
    && r.name == BackendEventName(pat, if Truthy(item.Get("event")) then x.show(item.Get("event")) else UNNAMED)
    && r.message == RedactedMessage(pat, if Truthy(item.Get("message")) then x.show(item.Get("message")) else "")
    && |r.name| <= MAX_EVENT_NAME && |r.message| <= MAX_STRING
    && r.data == RedactData(x.rules.(limits := map[]), x.order,
                            if item.Get("data").Obj? then item.Get("data").fields else map[])
  }

  lemma {:induction false} ProgressData<V(!new), S(!new)>(dom: Domain<EventType, Data, V, S>, x: Context, item: Json)
    requires Redacts(x, dom)
    ensures ProgressRecord(dom, x, item).data == RedactData(x.rules.(limits := map[]), x.order,
                                                            if item.Get("data").Obj? then item.Get("data").fields
                                                            else map[])
  {
    var d := DataOf(item.Get("data"));
    assert dom.redact(BackendEvent, d) == RedactData(RulesFor(x, BackendEvent), x.order, d);
  }

  lemma {:induction false} ProgressTexts<V(!new), S(!new)>(dom: Domain<EventType, Data, V, S>, x: Context,
                                                           pat: Patterns, item: Json)
    requires Bounds(x, pat, dom)
    ensures var r := ProgressRecord(dom, x, item);
            && r.name == BackendEventName(pat, if Truthy(item.Get("event")) then x.show(item.Get("event")) else UNNAMED)
            && r.message
               == RedactedMessage(pat, if Truthy(item.Get("message")) then x.show(item.Get("message")) else "")
            && |r.name| <= MAX_EVENT_NAME && |r.message| <= MAX_STRING
  {
    BackendNameFits(pat, TextOf(x, item.Get("event"), UNNAMED));
    MessageFits(pat, TextOf(x, item.Get("message"), ""));
  }

  lemma {:induction false} ProgressRecordFits<V(!new), S(!new)>(dom: Domain<EventType, Data, V, S>, x: Context,
                                                                pat: Patterns, item: Json)
    requires Redacts(x, dom) && Bounds(x, pat, dom)
    ensures IsProgress(dom, x, pat, item, ProgressRecord(dom, x, item))
  {
    ProgressData(dom, x, item);
    ProgressTexts(dom, x, pat, item);
  }

  /**
   At most fifty progress records, none for protected procedures and for failures that only carry a code;
   each has a redacted name that fits its column, a bounded message and redacted data.
   */
  lemma {:induction false} ProgressFits<V(!new), S(!new)>(dom: Domain<EventType, Data, V, S>, x: Context, pat: Patterns,
                                                          response: Json)
    requires Redacts(x, dom) && Bounds(x, pat, dom)
    ensures var progress := Progress(dom, x, response);
            && |progress| <= MAX_BACKEND_EVENTS
            && (x.contract.isProtected || Skips(x.contract, response) ==> progress == [])
            && forall r | r in progress :: IsProgressOf(dom, x, pat, FirstItems(response), r)
  {
    ProgressCount(dom, x, response);
    forall r | r in Progress(dom, x, response) ensures IsProgressOf(dom, x, pat, FirstItems(response), r) {
      RecordFits(dom, x, pat, FirstItems(response), r);
    }
  }

  /** The positions below `n` that hold an object. */
  function Objects(items: seq<Json>, n: nat): seq<nat>
    requires n <= |items|
  {
    if n == 0 then [] else Objects(items, n - 1) + if items[n - 1].Obj? then [n - 1] else []
  }

  /** `at` lists, in order, all positions below `n` that hold an object. */
  ghost predicate ListsObjects(items: seq<Json>, n: nat, at: seq<nat>)
    requires n <= |items|
  {
    && (forall i, j | 0 <= i < j < |at| :: at[i] < at[j])
    && (forall k: nat :: k in at <==> k < n && items[k].Obj?)
  }

  lemma {:induction false} ListsGrow(items: seq<Json>, n: nat, next: nat, at: seq<nat>)
    requires next == n + 1 <= |items| && ListsObjects(items, n, at)
    ensures ListsObjects(items, next, if items[n].Obj? then at + [n] else at)
  {
    assert forall i | 0 <= i < |at| :: at[i] in at;
    if items[n].Obj? {
      forall k: nat ensures k in at + [n] <==> k < next && items[k].Obj? {
        assert k in at + [n] <==> k in at || k == n;
      }
    }
  }

  lemma {:induction false} ObjectsListed(items: seq<Json>, n: nat)
    requires n <= |items|
    ensures ListsObjects(items, n, Objects(items, n))
  {
    if n > 0 {
      ObjectsListed(items, n - 1);
      ListsGrow(items, n - 1, n, Objects(items, n - 1));
    }
  }

  /** These are the records of the objects at the positions. */
  ghost predicate AreRecords<V(!new), S(!new)>(dom: Domain<EventType, Data, V, S>, x: Context, items: seq<Json>,
                                               at: seq<nat>, records: seq<Record<Data>>) {
    && |at| == |records|
    && forall i | 0 <= i < |at| :: at[i] < |items| && records[i] == ProgressRecord(dom, x, items[at[i]])
  }

  lemma {:induction false} ProgressAt<V(!new), S(!new)>(dom: Domain<EventType, Data, V, S>, x: Context,
                                                        items: seq<Json>, n: nat)
    requires n <= |items|
    ensures AreRecords(dom, x, items, Objects(items, n), ProgressRecords(dom, x, items[..n]))
  {
    if n > 0 {
      ProgressAt(dom, x, items, n - 1);
      NextRecord(dom, x, items, n - 1, n);
    }
  }

  lemma {:induction false} NextRecord<V(!new), S(!new)>(dom: Domain<EventType, Data, V, S>, x: Context,
                                                        items: seq<Json>, n: nat, next: nat)
    requires next == n + 1 <= |items|
    requires AreRecords(dom, x, items, Objects(items, n), ProgressRecords(dom, x, items[..n]))
    ensures AreRecords(dom, x, items, Objects(items, next), ProgressRecords(dom, x, items[..next]))
  {
    ProgressStep(dom, x, items, n);
    RecordsGrow(dom, x, items, Objects(items, n), ProgressRecords(dom, x, items[..n]), n);
    assert Objects(items, next) == Objects(items, n) + if items[n].Obj? then [n] else [];
  }

  lemma {:induction false} RecordsGrow<V(!new), S(!new)>(dom: Domain<EventType, Data, V, S>, x: Context,
                                                         items: seq<Json>, at: seq<nat>, records: seq<Record<Data>>,
                                                         k: nat)
    requires AreRecords(dom, x, items, at, records) && k < |items|
    ensures AreRecords(dom, x, items, at + [], records + [])
    ensures AreRecords(dom, x, items, at + [k], records + [ProgressRecord(dom, x, items[k])])
  {
  }

  lemma {:induction false} FirstFifty(response: Json, items: seq<Json>, n: nat)
    requires response.Get("events") == Arr(items) && n == if |items| <= 50 then |items| else 50
    ensures FirstItems(response) == items[..n]
  {
  }

  /**
   Unless there are none, the progress records are those of the objects among the first fifty items of the
   response, one each and in their order.
   */
  lemma {:induction false} ProgressInOrder<V(!new), S(!new)>(dom: Domain<EventType, Data, V, S>, x: Context,
                                                             pat: Patterns, response: Json)
    returns (at: seq<nat>)
    requires Redacts(x, dom) && Bounds(x, pat, dom) && response.Get("events").Arr?
    requires !x.contract.isProtected && !Skips(x.contract, response)
    ensures var items, progress := response.Get("events").items, Progress(dom, x, response);
            && ListsObjects(items, if |items| <= 50 then |items| else 50, at) && |progress| == |at|
            && forall i | 0 <= i < |at| :: at[i] < |items| && IsProgress(dom, x, pat, items[at[i]], progress[i])
  {
    var items := response.Get("events").items;
    var n: nat := if |items| <= 50 then |items| else 50;
    FirstFifty(response, items, n);
    at := Objects(items, n);
    ObjectsListed(items, n);
    ProgressAt(dom, x, items, n);
    RecordsFit(dom, x, pat, items, at, ProgressRecords(dom, x, items[..n]));
  }

  lemma {:induction false} RecordsFit<V(!new), S(!new)>(dom: Domain<EventType, Data, V, S>, x: Context, pat: Patterns,
                                                        items: seq<Json>, at: seq<nat>, records: seq<Record<Data>>)
    requires Redacts(x, dom) && Bounds(x, pat, dom) && AreRecords(dom, x, items, at, records)
    ensures forall i | 0 <= i < |at| :: IsProgress(dom, x, pat, items[at[i]], records[i])
  {
    forall i | 0 <= i < |at| ensures IsProgress(dom, x, pat, items[at[i]], records[i]) {
      ProgressRecordFits(dom, x, pat, items[at[i]]);
    }
  }

  lemma {:induction false} ProgressCount<V(!new), S(!new)>(dom: Domain<EventType, Data, V, S>, x: Context,
                                                           response: Json)
    ensures var progress := Progress(dom, x, response);
            && |progress| <= MAX_BACKEND_EVENTS
            && (x.contract.isProtected || Skips(x.contract, response) ==> progress == [])
            && forall r | r in progress :: ComesFrom(dom, x, FirstItems(response), r)
  {
    ProgressComesFrom(dom, x, FirstItems(response));
  }

  /** The record has the name, message and data of one of the items. */
  ghost predicate IsProgressOf<V(!new), S(!new)>(dom: Domain<EventType, Data, V, S>, x: Context, pat: Patterns,
                                                 items: seq<Json>, r: Record<Data>)
    requires Lists(x.order)
  {
    exists i :: 0 <= i < |items| && items[i].Obj? && IsProgress(dom, x, pat, items[i], r)
  }

  lemma {:induction false} RecordFits<V(!new), S(!new)>(dom: Domain<EventType, Data, V, S>, x: Context, pat: Patterns,
                                                        items: seq<Json>, r: Record<Data>)
    requires Redacts(x, dom) && Bounds(x, pat, dom) && ComesFrom(dom, x, items, r)
    ensures IsProgressOf(dom, x, pat, items, r)
  {
    var i :| 0 <= i < |items| && items[i].Obj? && r == ProgressRecord(dom, x, items[i]);
    ProgressRecordFits(dom, x, pat, items[i]);
  }

  lemma {:induction false} ProgressNameIsPrefixed<V(!new), S(!new)>(dom: Domain<EventType, Data, V, S>, x: Context,
                                                                    item: Json)
    ensures BACKEND_PREFIX <= ProgressRecord(dom, x, item).name
  {
  }

  lemma {:induction false} TerminalNames(name: string)
    requires name == SUCCEEDED || name == FAILED
    ensures !(BACKEND_PREFIX <= name)
  {
    assert BACKEND_PREFIX[0] == 'B' && name[0] == 'E';
  }

  /** Of all records that a response appends, only the last has the name of a terminal event. */
  lemma {:induction false} OneTerminalRecord<V(!new), S(!new)>(dom: Domain<EventType, Data, V, S>, x: Context,
                                                               response: Json, t: Terminal, finishedAt: Json)
    ensures var appended := Progress(dom, x, response) + [TerminalRecord(dom, t, finishedAt)];
            forall i | 0 <= i < |appended| ::
              appended[i].name in {SUCCEEDED, FAILED} <==> i == |appended| - 1
  {
    var progress := Progress(dom, x, response);
    ProgressComesFrom(dom, x, FirstItems(response));
    forall i | 0 <= i < |progress| ensures progress[i].name !in {SUCCEEDED, FAILED} {
      assert progress[i] in progress && ComesFrom(dom, x, FirstItems(response), progress[i]);
      var items := FirstItems(response);
      var j :| 0 <= j < |items| && items[j].Obj? && progress[i] == ProgressRecord(dom, x, items[j]);
      ProgressNameIsPrefixed(dom, x, items[j]);
      TerminalNames(SUCCEEDED);
      TerminalNames(FAILED);
    }
  }
}
