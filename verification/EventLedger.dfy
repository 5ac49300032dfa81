/**
 The event ledger as a concurrent protocol. Workers append events in transactions; a row is unique per
 execution and sequence, an insert waits for the transaction that holds its key, and an append gives
 up after three collisions.
 */
module EventLedger {
  import opened Ordering

  const ATTEMPTS: nat := 3

  datatype Key = Key(execution: int, sequence: int)

  /** One `append_execution_event` call: `fails` collisions so far, `start` events when it began. */
  datatype Call<E> =
    | NoCall
    | Reading(event: E, fails: nat, start: nat)
    | Inserting(event: E, sequence: int, fails: nat, start: nat)
    | Raised(start: nat)

  datatype Worker<E> = Worker(execution: int, pending: map<Key, E>, call: Call<E>)

  datatype State<E> = State(rows: map<Key, E>, workers: map<int, Worker<E>>)

  // ----- Steps -----

  /** `_next_event_sequence`: one more than the largest sequence in sight. */
  ghost predicate IsNext<E>(rows: map<Key, E>, e: int, q: int) {
    && 1 <= q && (1 < q ==> Key(e, q - 1) in rows)
    && forall k | k in rows && k.execution == e :: k.sequence < q
  }

  ghost predicate Begins<E>(s: State, s': State, i: int, e: int) {
    i !in s.workers && s' == s.(workers := s.workers[i := Worker(e, map[], NoCall)])
  }

  ghost predicate Calls<E>(s: State, s': State, i: int, event: E) {
    && i in s.workers && s.workers[i].call == NoCall
    && var w := s.workers[i];
       s' == s.(workers := s.workers[i := w.(call := Reading(event, 0, Count(s.rows, w.execution)))])
  }

  ghost predicate Reads<E>(s: State, s': State, i: int, q: int) {
    && i in s.workers && s.workers[i].call.Reading?
    && var w := s.workers[i];
       && IsNext(s.rows + w.pending, w.execution, q)
       && s' == s.(workers := s.workers[i := w.(call := Inserting(w.call.event, q, w.call.fails, w.call.start))])
  }

  /** The unique constraint lets the row in: no row, and no open transaction, holds its key. */
  ghost predicate Inserts<E>(s: State, s': State, i: int) {
    && i in s.workers && s.workers[i].call.Inserting?
    && var w := s.workers[i];
       var key := Key(w.execution, w.call.sequence);
       && key !in s.rows
       && (forall j | j in s.workers :: key !in s.workers[j].pending)
       && s' == s.(workers := s.workers[i := w.(pending := w.pending[key := w.call.event], call := NoCall)])
  }

  /** The unique constraint refuses the row: retry, or raise after the last attempt. */
  ghost predicate Collides<E>(s: State, s': State, i: int) {
    && i in s.workers && s.workers[i].call.Inserting?
    && var w := s.workers[i];
       var c := w.call;
       && Key(w.execution, c.sequence) in s.rows + w.pending
       && s' == s.(workers := s.workers[i := w.(call :=
                 if c.fails + 1 < ATTEMPTS then Reading(c.event, c.fails + 1, c.start) else Raised(c.start))])
  }

  ghost predicate Commits<E>(s: State, s': State, i: int) {
    && i in s.workers && s.workers[i].call == NoCall
    && var w := s.workers[i];
       s' == State(s.rows + w.pending, s.workers[i := w.(pending := map[])])
  }

  ghost predicate RollsBack<E>(s: State, s': State, i: int) {
    && i in s.workers
    && s' == s.(workers := s.workers[i := s.workers[i].(pending := map[], call := NoCall)])
  }

  datatype Action<E> =
    | Begin(e: int) | CallAppend(event: E) | Read(q: int) | Insert | Collide | Commit | RollBack

  ghost predicate Takes<E>(s: State, s': State, i: int, a: Action<E>) {
    match a
    case Begin(e) => Begins(s, s', i, e)
    case CallAppend(event) => Calls(s, s', i, event)
    case Read(q) => Reads(s, s', i, q)
    case Insert => Inserts(s, s', i)
    case Collide => Collides(s, s', i)
    case Commit => Commits(s, s', i)
    case RollBack => RollsBack(s, s', i)
  }

  // ----- Counting -----

  ghost function Sequences<E>(rows: map<Key, E>, e: int): set<int> {
    set k | k in rows && k.execution == e :: k.sequence
  }

  ghost function Count<E>(rows: map<Key, E>, e: int): nat { |Sequences(rows, e)| }

  /** Every sequence is positive, and its predecessor is there too. */
  ghost predicate Dense<E>(rows: map<Key, E>) {
    forall k | k in rows :: 1 <= k.sequence && (1 < k.sequence ==> Key(k.execution, k.sequence - 1) in rows)
  }

  ghost function UpTo(n: nat): (r: set<int>)
    ensures |r| == n && forall q :: q in r <==> 1 <= q <= n
  {
    if n == 0 then {} else UpTo(n - 1) + {n}
  }

  lemma {:induction false} DenseBelow<E>(rows: map<Key, E>, e: int, q: int, p: int)
    requires Dense(rows) && Key(e, q) in rows && 1 <= p <= q
    ensures Key(e, p) in rows
    decreases q - p
  {
    if p < q {
      DenseBelow(rows, e, q, p + 1);
    }
  }

  /** Counted from one without a gap, a set is the range up to its size. */
  lemma {:induction false} DenseIsRange(s: set<int>)
    requires forall q | q in s :: 1 <= q && (1 < q ==> q - 1 in s)
    ensures s == UpTo(|s|)
  {
    var n := |s|;
    forall q | q in s ensures q <= n {
      RangeInside(s, q);
      SubsetSize(UpTo(q), s);
    }
    assert s <= UpTo(n);
    assert UpTo(n) == s + (UpTo(n) - s);
  }

  lemma {:induction false} RangeInside(s: set<int>, q: int)
    requires forall r | r in s :: 1 <= r && (1 < r ==> r - 1 in s)
    requires q in s
    ensures UpTo(q) <= s
  {
    forall r | r in UpTo(q) ensures r in s { Descends(s, q, r); }
  }

  lemma {:induction false} Descends(s: set<int>, q: int, r: int)
    requires forall r | r in s :: 1 <= r && (1 < r ==> r - 1 in s)
    requires q in s && 1 <= r <= q
    ensures r in s
    decreases q - r
  {
    if r < q {
      Descends(s, q, r + 1);
    }
  }

  /** Dense rows of an execution are numbered exactly from one to their count. */
  lemma {:induction false} DenseCount<E>(rows: map<Key, E>, e: int)
    requires Dense(rows)
    ensures forall q :: Key(e, q) in rows <==> 1 <= q <= Count(rows, e)
  {
    var s := Sequences(rows, e);
    forall q ensures q in s <==> Key(e, q) in rows {
      if q in s {
        var k :| k in rows && k.execution == e && k.sequence == q;
        assert k == Key(e, q);
      }
    }
    DenseIsRange(s);
  }

  // ----- The invariant -----

  ghost predicate CallOk<E>(rows: map<Key, E>, w: Worker<E>) {
    match w.call
    case NoCall => true
    case Reading(_, fails, start) => fails < ATTEMPTS && start + fails <= Count(rows, w.execution)
    case Inserting(_, q, fails, start) =>
      && fails < ATTEMPTS && start + fails < q
      && Key(w.execution, q) !in w.pending && (1 < q ==> Key(w.execution, q - 1) in rows + w.pending)
    case Raised(start) => start + ATTEMPTS <= Count(rows, w.execution)
  }

  /** A transaction's own rows continue the committed ones without a gap. */
  ghost predicate WorkerOk<E>(rows: map<Key, E>, w: Worker<E>) {
    && (forall k | k in w.pending :: k.execution == w.execution && k !in rows)
    && Dense(rows + w.pending) && CallOk(rows, w)
  }

  ghost predicate Inv<E>(s: State<E>) {
    && Dense(s.rows)
    && (forall i | i in s.workers :: WorkerOk(s.rows, s.workers[i]))
    && (forall i, j, k | i in s.workers && j in s.workers && i != j && k in s.workers[i].pending ::
          k !in s.workers[j].pending)
  }

  /** A transaction with rows of its own holds the next sequence of its execution. */
  lemma {:induction false} HoldsNext<E>(rows: map<Key, E>, w: Worker<E>)
    requires Dense(rows) && WorkerOk(rows, w) && w.pending != map[]
    ensures Key(w.execution, Count(rows, w.execution) + 1) in w.pending
  {
    var k :| k in w.pending;
    DenseCount(rows, w.execution);
    assert Key(w.execution, k.sequence) == k;
    DenseBelow(rows + w.pending, w.execution, k.sequence, Count(rows, w.execution) + 1);
  }

  /** So at most one transaction per execution has rows of its own. */
  lemma {:induction false} OneWriter<E>(s: State<E>, i: int, j: int)
    requires Inv(s) && i in s.workers && j in s.workers && i != j
    requires s.workers[i].execution == s.workers[j].execution
    ensures s.workers[i].pending == map[] || s.workers[j].pending == map[]
  {
    var e := s.workers[i].execution;
    var key := Key(e, Count(s.rows, e) + 1);
    if s.workers[i].pending != map[] { HoldsNext(s.rows, s.workers[i]); }
    if s.workers[j].pending != map[] { HoldsNext(s.rows, s.workers[j]); }
    assert key in s.workers[i].pending ==> key !in s.workers[j].pending;
  }

  lemma {:induction false} CountGrows<E>(a: map<Key, E>, b: map<Key, E>, e: int)
    requires forall k | k in a :: k in b
    ensures Count(a, e) <= Count(b, e)
  {
    assert Sequences(a, e) <= Sequences(b, e);
    SubsetSize(Sequences(a, e), Sequences(b, e));
  }

  /** Committing one transaction leaves every other transaction sound. */
  lemma {:induction false} CommitKeepsOthers<E>(s: State<E>, i: int, j: int)
    requires Inv(s) && i in s.workers && j in s.workers && i != j
    ensures WorkerOk(s.rows + s.workers[i].pending, s.workers[j])
  {
    var p, w := s.workers[i].pending, s.workers[j];
    var rows := s.rows + p;
    CountGrows(s.rows, rows, w.execution);
    forall k | k in rows + w.pending
      ensures 1 <= k.sequence && (1 < k.sequence ==> Key(k.execution, k.sequence - 1) in rows + w.pending)
    {
      assert k in s.rows + p || k in s.rows + w.pending;
    }
    assert forall k | k in w.pending :: k !in p;
  }

  lemma {:induction false} CommitKeepsInv<E>(s: State<E>, s': State<E>, i: int)
    requires Inv(s) && Commits(s, s', i)
    ensures Inv(s')
  {
    forall j | j in s'.workers ensures WorkerOk(s'.rows, s'.workers[j]) {
      if j != i {
        CommitKeepsOthers(s, i, j);
      } else {
        assert s'.rows + map[] == s'.rows;
      }
    }
  }

  /** A step that changes one worker keeps the invariant if the worker stays sound and its rows stay its own. */
  lemma {:induction false} WorkerChanges<E>(s: State<E>, i: int, w: Worker<E>)
    requires Inv(s) && WorkerOk(s.rows, w)
    requires forall j, k | j in s.workers && j != i && k in w.pending :: k !in s.workers[j].pending
    ensures Inv(s.(workers := s.workers[i := w]))
  {
  }

  lemma {:induction false} InsertedOk<E>(rows: map<Key, E>, w: Worker<E>, key: Key)
    requires WorkerOk(rows, w) && w.call.Inserting? && key == Key(w.execution, w.call.sequence)
    requires key !in rows + w.pending
    ensures WorkerOk(rows, w.(pending := w.pending[key := w.call.event], call := NoCall))
  {
    var grown := rows + w.pending[key := w.call.event];
    assert grown == (rows + w.pending)[key := w.call.event];
  }

  lemma {:induction false} InsertKeepsInv<E>(s: State<E>, s': State<E>, i: int)
    requires Inv(s) && Inserts(s, s', i)
    ensures Inv(s')
  {
    var w := s.workers[i];
    var key := Key(w.execution, w.call.sequence);
    InsertedOk(s.rows, w, key);
    WorkerChanges(s, i, w.(pending := w.pending[key := w.call.event], call := NoCall));
  }

  lemma {:induction false} CollidedOk<E>(rows: map<Key, E>, w: Worker<E>)
    requires Dense(rows) && WorkerOk(rows, w) && w.call.Inserting?
    requires Key(w.execution, w.call.sequence) in rows + w.pending
    ensures var c := w.call;
            var call := if c.fails + 1 < ATTEMPTS then Reading(c.event, c.fails + 1, c.start) else Raised(c.start);
            WorkerOk(rows, w.(call := call))
  {
    DenseCount(rows, w.execution);
  }

  lemma {:induction false} CollideKeepsInv<E>(s: State<E>, s': State<E>, i: int)
    requires Inv(s) && Collides(s, s', i)
    ensures Inv(s')
  {
    var w := s.workers[i];
    CollidedOk(s.rows, w);
    WorkerChanges(s, i, s'.workers[i]);
  }

  lemma {:induction false} ReadOk<E>(rows: map<Key, E>, w: Worker<E>, q: int)
    requires Dense(rows) && WorkerOk(rows, w) && w.call.Reading? && IsNext(rows + w.pending, w.execution, q)
    ensures WorkerOk(rows, w.(call := Inserting(w.call.event, q, w.call.fails, w.call.start)))
  {
    NextIsBeyond(rows, w.pending, w.execution, q);
    assert Key(w.execution, q) !in rows + w.pending;
  }

  /** The next sequence is larger than the number of committed rows. */
  lemma {:induction false} NextIsBeyond<E>(rows: map<Key, E>, pending: map<Key, E>, e: int, q: int)
    requires Dense(rows) && IsNext(rows + pending, e, q)
    ensures Count(rows, e) < q
  {
    var n := Count(rows, e);
    DenseCount(rows, e);
    if n >= 1 {
      assert Key(e, n) in rows + pending;
    }
  }

  lemma {:induction false} ReadKeepsInv<E>(s: State<E>, s': State<E>, i: int, q: int)
    requires Inv(s) && Reads(s, s', i, q)
    ensures Inv(s')
  {
    var w := s.workers[i];
    ReadOk(s.rows, w, q);
    WorkerChanges(s, i, w.(call := Inserting(w.call.event, q, w.call.fails, w.call.start)));
  }

  lemma {:induction false} CallKeepsInv<E>(s: State<E>, s': State<E>, i: int, event: E)
    requires Inv(s) && Calls(s, s', i, event)
    ensures Inv(s')
  {
    WorkerChanges(s, i, s'.workers[i]);
  }

  lemma {:induction false} FreshKeepsInv<E>(s: State<E>, i: int, w: Worker<E>)
    requires Inv(s) && w.pending == map[] && w.call == NoCall
    ensures Inv(s.(workers := s.workers[i := w]))
  {
    assert s.rows + w.pending == s.rows;
    WorkerChanges(s, i, w);
  }

  /** Every step of every worker keeps the invariant. */
  lemma {:induction false} StepKeepsInv<E>(s: State<E>, s': State<E>, i: int, a: Action<E>)
    requires Inv(s) && Takes(s, s', i, a)
    ensures Inv(s')
  {
    match a
    case Begin(_) => FreshKeepsInv(s, i, s'.workers[i]);
    case CallAppend(event) => CallKeepsInv(s, s', i, event);
    case Read(q) => ReadKeepsInv(s, s', i, q);
    case Insert => InsertKeepsInv(s, s', i);
    case Collide => CollideKeepsInv(s, s', i);
    case Commit => CommitKeepsInv(s, s', i);
    case RollBack => FreshKeepsInv(s, i, s'.workers[i]);
  }

  // ----- Runs -----

  /** A run from the empty ledger; `acts[t]` is the worker and action of step `t`. */
  ghost predicate IsRun<E>(run: seq<State<E>>, acts: seq<(int, Action<E>)>) {
    && |run| == |acts| + 1 && run[0] == State(map[], map[])
    && forall t | 0 <= t < |acts| :: Takes(run[t], run[t + 1], acts[t].0, acts[t].1)
  }

  lemma {:induction false} RunKeepsInv<E>(run: seq<State<E>>, acts: seq<(int, Action<E>)>, t: nat)
    requires IsRun(run, acts) && t < |run|
    ensures Inv(run[t])
  {
    if t > 0 {
      RunKeepsInv(run, acts, t - 1);
      StepKeepsInv(run[t - 1], run[t], acts[t - 1].0, acts[t - 1].1);
    }
  }

  /** In every state of every run, the sequences of an execution are exactly 1..n. */
  lemma {:induction false} SequencesAreContiguous<E>(run: seq<State<E>>, acts: seq<(int, Action<E>)>, t: nat, e: int)
    requires IsRun(run, acts) && t < |run|
    ensures forall q :: Key(e, q) in run[t].rows <==> 1 <= q <= Count(run[t].rows, e)
  {
    RunKeepsInv(run, acts, t);
    DenseCount(run[t].rows, e);
  }

  /** Committed events are never changed or removed. */
  lemma {:induction false} RowsAreAppendOnly<E>(run: seq<State<E>>, acts: seq<(int, Action<E>)>, t: nat, u: nat, k: Key)
    requires IsRun(run, acts) && t <= u < |run| && k in run[t].rows
    ensures k in run[u].rows && run[u].rows[k] == run[t].rows[k]
    decreases u
  {
    if t < u {
      var v := u - 1;
      RowsAreAppendOnly(run, acts, t, v, k);
      RunKeepsInv(run, acts, v);
      assert Takes(run[v], run[v + 1], acts[v].0, acts[v].1);
      StepKeepsRow(run[v], run[v + 1], acts[v].0, acts[v].1, k);
    }
  }

  lemma {:induction false} StepKeepsRow<E>(s: State<E>, s': State<E>, i: int, a: Action<E>, k: Key)
    requires Inv(s) && Takes(s, s', i, a) && k in s.rows
    ensures k in s'.rows && s'.rows[k] == s.rows[k]
  {
  }

  /** The call that worker `i` is in at time `t` began at `from`, and lasted since. */
  ghost predicate InCallSince<E>(run: seq<State<E>>, i: int, from: nat, t: nat)
    requires t < |run|
  {
    && from <= t && forall u | from <= u <= t :: i in run[u].workers && run[u].workers[i].call != NoCall
  }

  ghost function StartOf<E>(c: Call<E>): nat
    requires c != NoCall
  {
    c.start
  }

  lemma {:induction false} CallBegan<E>(run: seq<State<E>>, acts: seq<(int, Action<E>)>, i: int, t: nat)
    returns (from: nat)
    requires IsRun(run, acts) && t < |run| && i in run[t].workers && run[t].workers[i].call != NoCall
    ensures 0 < from <= t && acts[from - 1].0 == i && acts[from - 1].1.CallAppend?
    ensures InCallSince(run, i, from, t)
    ensures run[from].workers[i].execution == run[t].workers[i].execution
    ensures StartOf(run[t].workers[i].call) == Count(run[from].rows, run[t].workers[i].execution)
    decreases t
  {
    var u := t - 1;
    assert Takes(run[u], run[u + 1], acts[u].0, acts[u].1);
    CallStep(run[u], run[u + 1], acts[u].0, acts[u].1, i);
    if acts[u].0 == i && acts[u].1.CallAppend? {
      from := t;
    } else {
      from := CallBegan(run, acts, i, u);
    }
  }

  /** A call that is open after a step was begun by that step, or was open before it with the same start. */
  lemma {:induction false} CallStep<E>(s: State<E>, s': State<E>, j: int, a: Action<E>, i: int)
    requires Takes(s, s', j, a) && i in s'.workers && s'.workers[i].call != NoCall
    ensures var w := s'.workers[i];
            if j == i && a.CallAppend? then StartOf(w.call) == Count(s'.rows, w.execution)
            else
              && i in s.workers && s.workers[i].call != NoCall && s.workers[i].execution == w.execution
              && StartOf(s.workers[i].call) == StartOf(w.call)
  {
  }

  /** An append raises only when at least three other events were committed to its execution meanwhile. */
  lemma {:induction false} RaiseNeedsThreeOthers<E>(run: seq<State<E>>, acts: seq<(int, Action<E>)>, i: int, t: nat)
    returns (from: nat)
    requires IsRun(run, acts) && t < |run| && i in run[t].workers && run[t].workers[i].call.Raised?
    ensures 0 < from <= t && acts[from - 1].0 == i && acts[from - 1].1.CallAppend?
    ensures forall u | from <= u < t :: acts[u].0 == i ==> !acts[u].1.Commit?
    ensures var e := run[t].workers[i].execution; Count(run[t].rows, e) >= Count(run[from].rows, e) + 3
  {
    from := CallBegan(run, acts, i, t);
    RunKeepsInv(run, acts, t);
    forall u | from <= u < t && acts[u].0 == i ensures !acts[u].1.Commit? {
      assert Takes(run[u], run[u + 1], acts[u].0, acts[u].1);
    }
  }
}
