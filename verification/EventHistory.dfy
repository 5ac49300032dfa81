/** What the ledger holds, told from the actions alone: the inserted events of committed transactions, in order. */
module EventHistory {
  import opened EventLedger

  /**
   What the actions so far amount to: each worker's execution and the event it last asked to append, the events
   it inserted since its transaction began, and the committed events of each execution.
   */
  datatype History<E> = History(of: map<int, int>, asked: map<int, E>, open: map<int, seq<E>>, log: map<int, seq<E>>) {
    function Log(e: int): seq<E> { if e in log then log[e] else [] }

    function Open(i: int): seq<E> { if i in open then open[i] else [] }
  }

  ghost function Next<E>(h: History<E>, i: int, a: Action<E>): History<E> {
    match a
    case Begin(e) => h.(of := h.of[i := e], open := h.open[i := []])
    case CallAppend(event) => h.(asked := h.asked[i := event])
    case Insert => if i in h.asked then h.(open := h.open[i := h.Open(i) + [h.asked[i]]]) else h
    case Commit =>
      if i in h.of then h.(log := h.log[h.of[i] := h.Log(h.of[i]) + h.Open(i)], open := h.open[i := []]) else h
    case RollBack => h.(open := h.open[i := []])
    case _ => h
  }

  ghost function Told<E>(acts: seq<(int, Action<E>)>): History<E> {
    if acts == [] then History(map[], map[], map[], map[])
    else
      var n := |acts| - 1;
      Next(Told(acts[..n]), acts[n].0, acts[n].1)
  }

  // ----- Rows and events -----

  /** The rows of the execution are the events, numbered from one. */
  ghost predicate HoldsLog<E>(rows: map<Key, E>, e: int, events: seq<E>) {
    && (forall q :: Key(e, q) in rows <==> 1 <= q <= |events|)
    && (forall q | 1 <= q <= |events| :: rows[Key(e, q)] == events[q - 1])
  }

  /** The transaction's own rows are the events, numbered from `n + 1`. */
  ghost predicate HoldsOpen<E>(w: Worker<E>, n: nat, events: seq<E>) {
    && (forall k :: k in w.pending <==> k.execution == w.execution && n < k.sequence <= n + |events|)
    && (forall k | k in w.pending :: w.pending[k] == events[k.sequence - n - 1])
  }

  ghost predicate WorkerAgrees<E>(h: History<E>, i: int, w: Worker<E>) {
    && i in h.of && h.of[i] == w.execution
    && (w.call.Reading? || w.call.Inserting? ==> i in h.asked && h.asked[i] == w.call.event)
    && (h.Open(i) == [] ==> w.pending == map[])
    && (h.Open(i) != [] ==> HoldsOpen(w, |h.Log(w.execution)|, h.Open(i)))
  }

  ghost predicate Agrees<E>(s: State<E>, h: History<E>) {
    && (forall e :: HoldsLog(s.rows, e, h.Log(e)))
    && (forall i | i in s.workers :: WorkerAgrees(h, i, s.workers[i]))
  }

  /** A free sequence whose predecessor is taken is the one after all rows in sight. */
  lemma {:induction false} InsertedIsNext<E>(rows: map<Key, E>, w: Worker<E>, log: seq<E>, open: seq<E>)
    requires Dense(rows) && WorkerOk(rows, w) && w.call.Inserting? && HoldsLog(rows, w.execution, log)
    requires if open == [] then w.pending == map[] else HoldsOpen(w, |log|, open)
    requires Key(w.execution, w.call.sequence) !in rows
    ensures w.call.sequence == |log| + |open| + 1
  {
    var q, e := w.call.sequence, w.execution;
    assert Key(e, q) !in w.pending && Key(e, q) !in rows;
    assert 1 <= q && !(q <= |log|) && !(|log| < q <= |log| + |open|);
    if 1 < q { assert Key(e, q - 1) in rows + w.pending; }
  }

  lemma {:induction false} OpenGrows<E>(w: Worker<E>, w': Worker<E>, n: nat, open: seq<E>, event: E)
    requires if open == [] then w.pending == map[] else HoldsOpen(w, n, open)
    requires w'.execution == w.execution
    requires w'.pending == w.pending[Key(w.execution, n + |open| + 1) := event]
    ensures HoldsOpen(w', n, open + [event])
  {
    var key := Key(w.execution, n + |open| + 1);
    forall k ensures k in w'.pending <==> k.execution == w.execution && n < k.sequence <= n + |open| + 1 {
      assert k == key <==> k.execution == w.execution && k.sequence == n + |open| + 1;
    }
  }

  lemma {:induction false} InsertTold<E>(h: History<E>, i: int, event: E)
    requires i in h.asked && h.asked[i] == event
    ensures var h' := Next(h, i, Insert);
            h'.of == h.of && h'.asked == h.asked && h'.log == h.log && h'.Open(i) == h.Open(i) + [event]
  {
  }

  lemma {:induction false} WorkerInserts<E>(w: Worker<E>, w': Worker<E>, h: History<E>, i: int)
    requires w.call.Inserting? && WorkerAgrees(h, i, w)
    requires w.call.sequence == |h.Log(w.execution)| + |h.Open(i)| + 1
    requires w'.execution == w.execution && w'.call == NoCall
    requires w'.pending == w.pending[Key(w.execution, w.call.sequence) := w.call.event]
    ensures WorkerAgrees(Next(h, i, Insert), i, w')
  {
    OpenGrows(w, w', |h.Log(w.execution)|, h.Open(i), w.call.event);
    InsertTold(h, i, w.call.event);
  }

  lemma {:induction false} InsertAgrees<E>(s: State<E>, s': State<E>, h: History<E>, i: int)
    requires Inv(s) && Agrees(s, h) && Inserts(s, s', i)
    ensures WorkerAgrees(Next(h, i, Insert), i, s'.workers[i])
  {
    var w := s.workers[i];
    assert WorkerAgrees(h, i, w) && HoldsLog(s.rows, w.execution, h.Log(w.execution));
    InsertedIsNext(s.rows, w, h.Log(w.execution), h.Open(i));
    WorkerInserts(w, s'.workers[i], h, i);
  }

  /** Rows after the log go on where it ends. */
  lemma {:induction false} LogGrows<E>(rows: map<Key, E>, w: Worker<E>, log: seq<E>, open: seq<E>)
    requires HoldsLog(rows, w.execution, log)
    requires if open == [] then w.pending == map[] else HoldsOpen(w, |log|, open)
    ensures HoldsLog(rows + w.pending, w.execution, log + open)
  {
    var e, all := w.execution, rows + w.pending;
    forall q ensures Key(e, q) in all <==> 1 <= q <= |log| + |open| {
      assert Key(e, q) in all <==> Key(e, q) in rows || Key(e, q) in w.pending;
    }
    forall q | 1 <= q <= |log| + |open| ensures all[Key(e, q)] == (log + open)[q - 1] {
      assert Key(e, q) in w.pending <==> q > |log|;
    }
  }

  lemma {:induction false} OtherLog<E>(rows: map<Key, E>, w: Worker<E>, n: nat, open: seq<E>, e: int, log: seq<E>)
    requires HoldsLog(rows, e, log) && e != w.execution
    requires if open == [] then w.pending == map[] else HoldsOpen(w, n, open)
    ensures HoldsLog(rows + w.pending, e, log)
  {
    forall q ensures Key(e, q) !in w.pending { }
  }

  lemma {:induction false} CommitAgrees<E>(s: State<E>, s': State<E>, h: History<E>, i: int, e: int)
    requires Agrees(s, h) && Commits(s, s', i)
    ensures HoldsLog(s'.rows, e, Next(h, i, Commit).Log(e))
  {
    var w := s.workers[i];
    assert HoldsLog(s.rows, e, h.Log(e)) && WorkerAgrees(h, i, w);
    if e == w.execution {
      LogGrows(s.rows, w, h.Log(e), h.Open(i));
    } else {
      OtherLog(s.rows, w, |h.Log(w.execution)|, h.Open(i), e, h.Log(e));
    }
  }

  lemma {:induction false} OpenHasRows<E>(h: History<E>, i: int, w: Worker<E>)
    requires WorkerAgrees(h, i, w)
    ensures h.Open(i) != [] ==> Key(w.execution, |h.Log(w.execution)| + 1) in w.pending
  {
  }

  lemma {:induction false} CommitTold<E>(h: History<E>, i: int, j: int, w: Worker<E>)
    requires i in h.of && j != i && WorkerAgrees(h, j, w)
    requires w.execution == h.of[i] ==> h.Open(i) == [] || h.Open(j) == []
    ensures WorkerAgrees(Next(h, i, Commit), j, w)
  {
    var h' := Next(h, i, Commit);
    assert h'.Open(j) == h.Open(j) && h'.of == h.of && h'.asked == h.asked;
    assert h.Open(j) != [] ==> h'.Log(w.execution) == h.Log(w.execution);
  }

  /** A committing transaction with rows leaves none to the others of its execution. */
  lemma {:induction false} OthersAgree<E>(s: State<E>, s': State<E>, h: History<E>, i: int, j: int)
    requires Inv(s) && Agrees(s, h) && Commits(s, s', i) && j in s.workers && j != i
    ensures WorkerAgrees(Next(h, i, Commit), j, s'.workers[j])
  {
    var w := s.workers[j];
    assert s'.workers[j] == w;
    assert WorkerAgrees(h, j, w) && WorkerAgrees(h, i, s.workers[i]);
    OpenHasRows(h, i, s.workers[i]);
    OpenHasRows(h, j, w);
    if w.execution == s.workers[i].execution { OneWriter(s, i, j); }
    CommitTold(h, i, j, w);
  }

  lemma {:induction false} CommitStep<E>(s: State<E>, s': State<E>, h: History<E>, i: int)
    requires Inv(s) && Agrees(s, h) && Commits(s, s', i)
    ensures Agrees(s', Next(h, i, Commit))
  {
    forall e ensures HoldsLog(s'.rows, e, Next(h, i, Commit).Log(e)) { CommitAgrees(s, s', h, i, e); }
    forall j | j in s'.workers ensures WorkerAgrees(Next(h, i, Commit), j, s'.workers[j]) {
      if j != i { OthersAgree(s, s', h, i, j); }
    }
  }

  /** A step that leaves the committed rows alone agrees if the one worker it moves does. */
  lemma {:induction false} WorkerStep<E>(s: State<E>, s': State<E>, h: History<E>, h': History<E>, i: int)
    requires Agrees(s, h) && s'.rows == s.rows && h'.log == h.log && i in s'.workers
    requires s'.workers == s.workers[i := s'.workers[i]]
    requires forall j | j != i ::
               && (j in h.of ==> j in h'.of && h'.of[j] == h.of[j]) && h'.Open(j) == h.Open(j)
               && (j in h.asked ==> j in h'.asked && h'.asked[j] == h.asked[j])
    requires WorkerAgrees(h', i, s'.workers[i])
    ensures Agrees(s', h')
  {
    forall e ensures HoldsLog(s'.rows, e, h'.Log(e)) { assert HoldsLog(s.rows, e, h.Log(e)); }
    forall j | j in s'.workers ensures WorkerAgrees(h', j, s'.workers[j]) {
      if j != i { assert WorkerAgrees(h, j, s.workers[j]); }
    }
  }

  /** What a step other than a commit leaves alone. */
  lemma {:induction false} NextFrame<E>(h: History<E>, i: int, a: Action<E>)
    requires !a.Commit?
    ensures var h' := Next(h, i, a);
            && h'.log == h.log
            && forall j | j != i ::
                 && (j in h.of ==> j in h'.of && h'.of[j] == h.of[j]) && h'.Open(j) == h.Open(j)
                 && (j in h.asked ==> j in h'.asked && h'.asked[j] == h.asked[j])
  {
  }

  lemma {:induction false} ActorAgrees<E>(s: State<E>, s': State<E>, h: History<E>, i: int, a: Action<E>)
    requires Agrees(s, h) && Takes(s, s', i, a) && !a.Commit? && !a.Insert?
    ensures WorkerAgrees(Next(h, i, a), i, s'.workers[i])
  {
    if !a.Begin? { assert WorkerAgrees(h, i, s.workers[i]); }
  }

  lemma {:induction false} StepAgrees<E>(s: State<E>, s': State<E>, h: History<E>, i: int, a: Action<E>)
    requires Inv(s) && Agrees(s, h) && Takes(s, s', i, a)
    ensures Agrees(s', Next(h, i, a))
  {
    if a.Commit? {
      CommitStep(s, s', h, i);
    } else {
      if a.Insert? { InsertAgrees(s, s', h, i); } else { ActorAgrees(s, s', h, i, a); }
      NextFrame(h, i, a);
      OnlyActorMoves(s, s', i, a);
      WorkerStep(s, s', h, Next(h, i, a), i);
    }
  }

  lemma {:induction false} OnlyActorMoves<E>(s: State<E>, s': State<E>, i: int, a: Action<E>)
    requires Takes(s, s', i, a) && !a.Commit?
    ensures s'.rows == s.rows && i in s'.workers && s'.workers == s.workers[i := s'.workers[i]]
  {
  }

  lemma {:induction false} RunAgrees<E>(run: seq<State<E>>, acts: seq<(int, Action<E>)>, t: nat)
    requires IsRun(run, acts) && t < |run|
    ensures Agrees(run[t], Told(acts[..t]))
  {
    if t > 0 {
      RunAgrees(run, acts, t - 1);
      RunKeepsInv(run, acts, t - 1);
      assert acts[..t][..t - 1] == acts[..t - 1] && acts[..t][t - 1] == acts[t - 1];
      StepAgrees(run[t - 1], run[t], Told(acts[..t - 1]), acts[t - 1].0, acts[t - 1].1);
    }
  }

  /**
   In every state of every run, the rows of an execution are exactly the events inserted by its committed
   transactions, each once, numbered in the order of commits and, within a transaction, of inserts.
   */
  lemma {:induction false} LedgerIsTheLog<E>(run: seq<State<E>>, acts: seq<(int, Action<E>)>, t: nat, e: int)
    requires IsRun(run, acts) && t < |run|
    ensures HoldsLog(run[t].rows, e, Told(acts[..t]).Log(e))
  {
    RunAgrees(run, acts, t);
  }

  // ----- One append -----

  predicate IsOpen<E>(c: Call<E>) { c.Reading? || c.Inserting? }

  /** The event of an open call is the one it was called with, and stays that through collisions. */
  lemma {:induction false} EventStep<E>(s: State<E>, s': State<E>, j: int, a: Action<E>, i: int)
    requires Takes(s, s', j, a) && i in s'.workers && IsOpen(s'.workers[i].call)
    ensures var w := s'.workers[i];
            if j == i && a.CallAppend? then w.call.event == a.event
            else i in s.workers && IsOpen(s.workers[i].call) && s.workers[i].call.event == w.call.event
    ensures var w := s'.workers[i];
            w.call.Inserting? && !(j == i && a == Read(w.call.sequence)) ==> j != i && s.workers[i] == w
  {
  }

  lemma {:induction false} AskedBy<E>(run: seq<State<E>>, acts: seq<(int, Action<E>)>, i: int, t: nat)
    returns (from: nat)
    requires IsRun(run, acts) && t < |run| && i in run[t].workers && IsOpen(run[t].workers[i].call)
    ensures from < t && acts[from] == (i, CallAppend(run[t].workers[i].call.event))
    ensures forall u | from < u < t && acts[u].0 == i :: !acts[u].1.CallAppend?
    decreases t
  {
    var u := t - 1;
    assert Takes(run[u], run[u + 1], acts[u].0, acts[u].1);
    EventStep(run[u], run[u + 1], acts[u].0, acts[u].1, i);
    if acts[u].0 == i && acts[u].1.CallAppend? {
      from := u;
    } else {
      from := AskedBy(run, acts, i, u);
    }
  }

  lemma {:induction false} ReadBy<E>(run: seq<State<E>>, acts: seq<(int, Action<E>)>, i: int, t: nat)
    returns (r: nat)
    requires IsRun(run, acts) && t < |run| && i in run[t].workers && run[t].workers[i].call.Inserting?
    ensures r < t && acts[r] == (i, Read(run[t].workers[i].call.sequence))
    ensures forall u | r < u < t :: acts[u].0 != i
    decreases t
  {
    var u := t - 1;
    assert Takes(run[u], run[u + 1], acts[u].0, acts[u].1);
    EventStep(run[u], run[u + 1], acts[u].0, acts[u].1, i);
    if acts[u] == (i, Read(run[t].workers[i].call.sequence)) {
      r := u;
    } else {
      r := ReadBy(run, acts, i, u);
    }
  }

  /** An insert puts the event that was asked for at the sequence that was read last. */
  lemma {:induction false} InsertHolds<E>(run: seq<State<E>>, acts: seq<(int, Action<E>)>, t: nat)
    returns (from: nat, r: nat)
    requires IsRun(run, acts) && t < |acts| && acts[t].1.Insert?
    ensures var i := acts[t].0;
            && from < r < t && acts[from].0 == acts[r].0 == i && acts[from].1.CallAppend? && acts[r].1.Read?
            && (forall u | from < u < t && acts[u].0 == i :: !acts[u].1.CallAppend?)
            && (forall u | r < u < t :: acts[u].0 != i)
            && i in run[t + 1].workers
            && var w := run[t + 1].workers[i];
               var key := Key(w.execution, acts[r].1.q);
               key in w.pending && w.pending[key] == acts[from].1.event
  {
    var i := acts[t].0;
    assert Takes(run[t], run[t + 1], i, acts[t].1);
    from := AskedBy(run, acts, i, t);
    r := ReadBy(run, acts, i, t);
  }

  /** A row of an open transaction stays there until the transaction ends. */
  lemma {:induction false} PendingStays<E>(run: seq<State<E>>, acts: seq<(int, Action<E>)>, i: int, k: Key, t: nat,
                                           u: nat)
    requires IsRun(run, acts) && t <= u < |run| && i in run[t].workers && k in run[t].workers[i].pending
    requires forall v | t <= v < u && acts[v].0 == i :: !acts[v].1.Commit? && !acts[v].1.RollBack?
    ensures i in run[u].workers && k in run[u].workers[i].pending
    ensures run[u].workers[i].pending[k] == run[t].workers[i].pending[k]
    decreases u
  {
    if t < u {
      PendingStays(run, acts, i, k, t, u - 1);
      assert Takes(run[u - 1], run[u], acts[u - 1].0, acts[u - 1].1);
      PendingStep(run[u - 1], run[u], acts[u - 1].0, acts[u - 1].1, i, k);
    }
  }

  lemma {:induction false} PendingStep<E>(s: State<E>, s': State<E>, j: int, a: Action<E>, i: int, k: Key)
    requires Takes(s, s', j, a) && i in s.workers && k in s.workers[i].pending
    requires j == i ==> !a.Commit? && !a.RollBack?
    ensures i in s'.workers && k in s'.workers[i].pending && s'.workers[i].pending[k] == s.workers[i].pending[k]
  {
  }

  /** After the commit of its transaction, the inserted row is in the ledger for good. */
  lemma {:induction false} CommittedForGood<E>(run: seq<State<E>>, acts: seq<(int, Action<E>)>, i: int, k: Key, t: nat,
                                               c: nat, u: nat)
    requires IsRun(run, acts) && t <= c < u < |run| && i in run[t].workers && k in run[t].workers[i].pending
    requires acts[c] == (i, Commit)
    requires forall v | t <= v < c && acts[v].0 == i :: !acts[v].1.Commit? && !acts[v].1.RollBack?
    ensures k in run[u].rows && run[u].rows[k] == run[t].workers[i].pending[k]
  {
    PendingStays(run, acts, i, k, t, c);
    assert Takes(run[c], run[c + 1], i, Commit);
    RowsAreAppendOnly(run, acts, c + 1, u, k);
  }

  // ----- Collisions -----

  /** How often worker `i` collided in the steps from `from` on, before `t`. */
  ghost function Collisions<E>(acts: seq<(int, Action<E>)>, i: int, from: nat, t: nat): nat
    requires from <= t <= |acts|
    decreases t
  {
    if from == t then 0
    else Collisions(acts, i, from, t - 1) + if acts[t - 1].0 == i && acts[t - 1].1.Collide? then 1 else 0
  }

  lemma {:induction false} CollisionsNext<E>(acts: seq<(int, Action<E>)>, i: int, from: nat, u: nat, t: nat)
    requires from <= u && t == u + 1 <= |acts|
    ensures Collisions(acts, i, from, t)
            == Collisions(acts, i, from, u) + if acts[u].0 == i && acts[u].1.Collide? then 1 else 0
  {
  }

  /** The collisions that a call has behind it: fewer than three while it goes on, three when it raised. */
  predicate HasCollided<E>(c: Call<E>, n: nat) {
    match c
    case NoCall => false
    case Reading(_, fails, _) => n == fails < 3
    case Inserting(_, _, fails, _) => n == fails < 3
    case Raised(_) => n == 3
  }

  lemma {:induction false} OpenBefore<E>(s: State<E>, s': State<E>, j: int, a: Action<E>, i: int)
    requires Takes(s, s', j, a) && i in s'.workers && s'.workers[i].call != NoCall && !(j == i && a.CallAppend?)
    ensures i in s.workers && s.workers[i].call != NoCall
  {
  }

  lemma {:induction false} CollisionStep<E>(s: State<E>, s': State<E>, j: int, a: Action<E>, i: int, n: nat)
    requires Takes(s, s', j, a) && i in s'.workers && s'.workers[i].call != NoCall && !(j == i && a.CallAppend?)
    requires i in s.workers && HasCollided(s.workers[i].call, n)
    ensures HasCollided(s'.workers[i].call, n + if j == i && a.Collide? then 1 else 0)
  {
  }

  /** The call of worker `i` that is open before step `t` began with step `from - 1`. */
  ghost predicate CalledAt<E>(acts: seq<(int, Action<E>)>, i: int, from: nat, t: nat) {
    && 0 < from <= t <= |acts| && acts[from - 1].0 == i && acts[from - 1].1.CallAppend?
    && forall u | from <= u < t && acts[u].0 == i :: !acts[u].1.CallAppend?
  }

  lemma {:induction false} NextCollision<E>(s: State<E>, s': State<E>, acts: seq<(int, Action<E>)>, i: int, from: nat,
                                            u: nat, t: nat)
    requires CalledAt(acts, i, from, u) && t == u + 1 <= |acts| && Takes(s, s', acts[u].0, acts[u].1)
    requires !(acts[u].0 == i && acts[u].1.CallAppend?) && i in s'.workers && s'.workers[i].call != NoCall
    requires i in s.workers && HasCollided(s.workers[i].call, Collisions(acts, i, from, u))
    ensures CalledAt(acts, i, from, t) && HasCollided(s'.workers[i].call, Collisions(acts, i, from, t))
  {
    CollisionStep(s, s', acts[u].0, acts[u].1, i, Collisions(acts, i, from, u));
    CollisionsNext(acts, i, from, u, t);
  }

  lemma {:induction false} FirstCollision<E>(s: State<E>, s': State<E>, acts: seq<(int, Action<E>)>, i: int, t: nat)
    requires 0 < t <= |acts| && acts[t - 1].0 == i && acts[t - 1].1.CallAppend? && Takes(s, s', i, acts[t - 1].1)
    ensures i in s'.workers && CalledAt(acts, i, t, t)
    ensures HasCollided(s'.workers[i].call, Collisions(acts, i, t, t))
  {
  }

  /** A call gives up at its third collision, and not before. */
  lemma {:induction false} RaisesAtTheThird<E>(run: seq<State<E>>, acts: seq<(int, Action<E>)>, i: int, t: nat)
    returns (from: nat)
    requires IsRun(run, acts) && t < |run| && i in run[t].workers && run[t].workers[i].call != NoCall
    ensures CalledAt(acts, i, from, t) && HasCollided(run[t].workers[i].call, Collisions(acts, i, from, t))
    decreases t
  {
    var u := t - 1;
    assert Takes(run[u], run[u + 1], acts[u].0, acts[u].1);
    if acts[u].0 == i && acts[u].1.CallAppend? {
      from := t;
      FirstCollision(run[u], run[t], acts, i, t);
    } else {
      OpenBefore(run[u], run[t], acts[u].0, acts[u].1, i);
      from := RaisesAtTheThird(run, acts, i, u);
      NextCollision(run[u], run[t], acts, i, from, u, t);
    }
  }

  // ----- An append without rivals -----

  lemma {:induction false} NextExists<E>(rows: map<Key, E>, e: int)
    requires Dense(rows)
    ensures IsNext(rows, e, Count(rows, e) + 1)
  {
    DenseCount(rows, e);
    forall k | k in rows && k.execution == e ensures k.sequence < Count(rows, e) + 1 {
      assert k == Key(e, k.sequence);
    }
  }

  /** The four steps of an append to sequence `q`, when that is the next one and its key is free. */
  lemma {:induction false} AppendSteps<E>(s: State<E>, i: int, event: E, q: int)
    returns (called: State<E>, read: State<E>, inserted: State<E>, committed: State<E>)
    requires i in s.workers && s.workers[i].call == NoCall
    requires IsNext(s.rows + s.workers[i].pending, s.workers[i].execution, q)
    requires var key := Key(s.workers[i].execution, q);
             key !in s.rows && forall j | j in s.workers :: key !in s.workers[j].pending
    ensures Takes(s, called, i, CallAppend(event)) && Takes(called, read, i, Read(q))
    ensures Takes(read, inserted, i, Action<E>.Insert) && Takes(inserted, committed, i, Action<E>.Commit)
    ensures committed.rows == s.rows + s.workers[i].pending[Key(s.workers[i].execution, q) := event]
  {
    var w := s.workers[i];
    var e, start := w.execution, Count(s.rows, w.execution);
    called := s.(workers := s.workers[i := w.(call := Reading(event, 0, start))]);
    read := s.(workers := s.workers[i := w.(call := Inserting(event, q, 0, start))]);
    assert called.workers[i := read.workers[i]] == read.workers;
    var w3 := w.(pending := w.pending[Key(e, q) := event], call := NoCall);
    inserted := s.(workers := s.workers[i := w3]);
    assert read.workers[i := w3] == inserted.workers;
    committed := State(s.rows + w3.pending, inserted.workers[i := w3.(pending := map[])]);
  }

  lemma {:induction false} KeyIsFree<E>(s: State<E>, i: int, q: int)
    requires (forall j | j in s.workers :: WorkerOk(s.rows, s.workers[j])) && i in s.workers
    requires IsNext(s.rows + s.workers[i].pending, s.workers[i].execution, q)
    requires forall j | j in s.workers && j != i && s.workers[j].execution == s.workers[i].execution ::
               s.workers[j].pending == map[]
    ensures var key := Key(s.workers[i].execution, q);
            key !in s.rows && forall j | j in s.workers :: key !in s.workers[j].pending
  {
    var key := Key(s.workers[i].execution, q);
    assert key !in s.rows + s.workers[i].pending;
    forall j | j in s.workers ensures key !in s.workers[j].pending {
      if j != i { assert forall k | k in s.workers[j].pending :: k.execution == s.workers[j].execution; }
    }
  }

  /**
   When no other transaction holds rows of its execution, a call reads, inserts and commits at once: the event
   becomes the next row.
   */
  lemma {:induction false} AppendSucceeds<E>(s: State<E>, i: int, event: E)
    returns (called: State<E>, read: State<E>, inserted: State<E>, committed: State<E>, q: int)
    requires Inv(s) && i in s.workers && s.workers[i].call == NoCall
    requires forall j | j in s.workers && j != i && s.workers[j].execution == s.workers[i].execution ::
               s.workers[j].pending == map[]
    ensures Takes(s, called, i, CallAppend(event)) && Takes(called, read, i, Read(q))
    ensures Takes(read, inserted, i, Action<E>.Insert) && Takes(inserted, committed, i, Action<E>.Commit)
    ensures var w := s.workers[i];
            && q == Count(s.rows + w.pending, w.execution) + 1
            && committed.rows == s.rows + w.pending[Key(w.execution, q) := event]
  {
    var w := s.workers[i];
    q := Count(s.rows + w.pending, w.execution) + 1;
    NextExists(s.rows + w.pending, w.execution);
    KeyIsFree(s, i, q);
    called, read, inserted, committed := AppendSteps(s, i, event, q);
  }

  /** The lone append of the empty ledger: one row, number one. */
  lemma {:induction false} LoneAppend<E>(i: int, e: int, event: E) returns (run: seq<State<E>>)
    ensures IsRun(run, [(i, Action<E>.Begin(e)), (i, CallAppend(event)), (i, Action<E>.Read(1)), (i, Action<E>.Insert),
                        (i, Action<E>.Commit)])
    ensures run[5].rows == map[Key(e, 1) := event]
  {
    var empty: State<E> := State(map[], map[]);
    var begun := empty.(workers := map[i := Worker(e, map[], NoCall)]);
    StepKeepsInv(empty, begun, i, Begin(e));
    var called, read, inserted, committed, q := AppendSucceeds(begun, i, event);
    assert begun.rows + begun.workers[i].pending == map[];
    assert Sequences(begun.rows, e) == {};
    run := [empty, begun, called, read, inserted, committed];
  }
}
