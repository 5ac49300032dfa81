/**
 Procedure edits under the scope lock. An editor's approve scope is read before the write and again
 after it, inside one transaction; the approve relation is any function of the whole procedure table.
 */
module ApproveScope {
  import opened FixedPoint

  type Pk = int

  /** One edit of an existing procedure, as `RPCProcedureForm.save` runs it. */
  datatype Phase<R> =
    | Open
    | Holding
    | HasRead(before: set<Pk>, epoch: nat)
    | HasWritten(before: set<Pk>, epoch: nat, row: R)
    | HasChecked(before: set<Pk>, epoch: nat, row: R)
    | Ended

  datatype Edit<R> = Edit(user: int, pk: Pk, phase: Phase<R>)

  /** The committed table, the lock's holder, all edits, and how many procedures were created. */
  datatype State<R> = State(table: map<Pk, R>, holder: Option<int>, edits: map<int, Edit<R>>, created: nat)

  /** `locks` is false on a database without the advisory lock, where `lock_procedure_scope` does nothing. */
  datatype System<!R(!new)> = System(locks: bool, approvable: (int, map<Pk, R>) -> set<Pk>)

  datatype Action<R> =
    | Begin(user: int, pk: Pk) | Lock | ReadScope | Write(row: R) | Check | Commit | Abort | Create(pk: Pk, row: R)

  function Moved<R>(s: State<R>, i: int, phase: Phase<R>): State<R>
    requires i in s.edits
  {
    s.(edits := s.edits[i := s.edits[i].(phase := phase)])
  }

  function Released<R>(s: State<R>, i: int): State<R> { if s.holder == Some(i) then s.(holder := None) else s }

  ghost predicate Takes<R(!new)>(sys: System<R>, s: State<R>, s': State<R>, i: int, a: Action<R>) {
    match a
    case Begin(user, pk) => i !in s.edits && s' == s.(edits := s.edits[i := Edit(user, pk, Open)])
    case Lock =>
      && i in s.edits && s.edits[i].phase.Open? && (sys.locks ==> s.holder.None?)
      && s' == Moved(if sys.locks then s.(holder := Some(i)) else s, i, Holding)
    case ReadScope =>
      && i in s.edits && s.edits[i].phase.Holding?
      && s' == Moved(s, i, HasRead(sys.approvable(s.edits[i].user, s.table), s.created))
    case Write(row) =>
      && i in s.edits && s.edits[i].phase.HasRead? && s.edits[i].pk in s.table
      && s' == Moved(s, i, HasWritten(s.edits[i].phase.before, s.edits[i].phase.epoch, row))
    case Check =>
      && i in s.edits && s.edits[i].phase.HasWritten?
      && var e := s.edits[i];
         && sys.approvable(e.user, s.table[e.pk := e.phase.row]) - e.phase.before == {}
         && s' == Moved(s, i, HasChecked(e.phase.before, e.phase.epoch, e.phase.row))
    case Commit =>
      && i in s.edits && s.edits[i].phase.HasChecked?
      && var e := s.edits[i]; s' == Released(Moved(s, i, Ended), i).(table := s.table[e.pk := e.phase.row])
    case Abort => i in s.edits && !s.edits[i].phase.Ended? && s' == Released(Moved(s, i, Ended), i)
    case Create(pk, row) => pk !in s.table && s' == s.(table := s.table[pk := row], created := s.created + 1)
  }

  predicate Working<R>(p: Phase<R>) { !p.Open? && !p.Ended? }

  /** With the lock, only its holder is at work, and without new procedures its reads are still true. */
  ghost predicate Inv<R(!new)>(sys: System<R>, s: State<R>) {
    && (forall i | i in s.edits && Working(s.edits[i].phase) :: s.holder == Some(i))
    && (forall i | i in s.edits && Working(s.edits[i].phase) && !s.edits[i].phase.Holding? ::
          s.edits[i].phase.epoch <= s.created &&
          (s.edits[i].phase.epoch == s.created ==>
             s.edits[i].phase.before == sys.approvable(s.edits[i].user, s.table)))
    && (forall i | i in s.edits && s.edits[i].phase.HasChecked? && s.edits[i].phase.epoch == s.created ::
          sys.approvable(s.edits[i].user, s.table[s.edits[i].pk := s.edits[i].phase.row]) <= s.edits[i].phase.before)
  }

  lemma {:induction false} StepKeepsInv<R(!new)>(sys: System<R>, s: State<R>, s': State<R>, i: int, a: Action<R>)
    requires sys.locks && Inv(sys, s) && Takes(sys, s, s', i, a)
    ensures Inv(sys, s')
  {
    if a.Check? {
      var e := s.edits[i];
      NothingGained(sys.approvable(e.user, s.table[e.pk := e.phase.row]), e.phase.before);
    }
  }

  ghost predicate IsRun<R(!new)>(sys: System<R>, run: seq<State<R>>, acts: seq<(int, Action<R>)>) {
    && |run| == |acts| + 1 && run[0].holder.None? && run[0].edits == map[]
    && forall t | 0 <= t < |acts| :: Takes(sys, run[t], run[t + 1], acts[t].0, acts[t].1)
  }

  lemma {:induction false} RunKeepsInv<R(!new)>(sys: System<R>, run: seq<State<R>>, acts: seq<(int, Action<R>)>, t: nat)
    requires sys.locks && IsRun(sys, run, acts) && t < |run|
    ensures Inv(sys, run[t])
  {
    if t > 0 {
      RunKeepsInv(sys, run, acts, t - 1);
      StepKeepsInv(sys, run[t - 1], run[t], acts[t - 1].0, acts[t - 1].1);
    }
  }

  /** No procedure was created since the committing edit read its editor's scope. */
  ghost predicate ReadIsFresh<R>(s: State<R>, i: int) {
    i in s.edits && s.edits[i].phase.HasChecked? && s.edits[i].phase.epoch == s.created
  }

  /** In every interleaving, a committed edit adds nothing to what its own editor may approve. */
  lemma {:induction false} CommitNeverWidens<R(!new)>(sys: System<R>, run: seq<State<R>>, acts: seq<(int, Action<R>)>,
                                                      t: nat)
    requires sys.locks && IsRun(sys, run, acts) && t < |acts| && acts[t].1.Commit? && ReadIsFresh(run[t], acts[t].0)
    ensures var u := run[t].edits[acts[t].0].user;
            sys.approvable(u, run[t + 1].table) <= sys.approvable(u, run[t].table)
  {
    RunKeepsInv(sys, run, acts, t);
    assert Takes(sys, run[t], run[t + 1], acts[t].0, acts[t].1);
  }

  // ----- What every commit keeps -----

  /** `b` is `a` with procedures added. */
  predicate Grows<R(==)>(a: map<Pk, R>, b: map<Pk, R>) { forall k | k in a :: k in b && b[k] == a[k] }

  predicate HasScope<R>(p: Phase<R>) { p.HasRead? || p.HasWritten? || p.HasChecked? }

  /** While an edit holds the lock, a step of another one only adds procedures. */
  lemma {:induction false} OthersOnlyCreate<R(!new)>(sys: System<R>, s: State<R>, s': State<R>, j: int, a: Action<R>,
                                                     i: int)
    requires sys.locks && Inv(sys, s) && Takes(sys, s, s', j, a) && i in s'.edits && HasScope(s'.edits[i].phase)
    requires !(i == j && a.ReadScope?)
    ensures i in s.edits && HasScope(s.edits[i].phase) && s.edits[i].phase.before == s'.edits[i].phase.before
    ensures Grows(s.table, s'.table) && s'.edits[i].user == s.edits[i].user && s'.edits[i].pk == s.edits[i].pk
    ensures s'.edits[i].phase.HasChecked? && !(i == j && a.Check?) ==> s.edits[i] == s'.edits[i]
  {
  }

  /** The moments `r` and `c` at which an edit read its editor's scope and passed its check. */
  lemma {:induction false} ReadAndCheck<R(!new)>(sys: System<R>, run: seq<State<R>>, acts: seq<(int, Action<R>)>,
                                                 t: nat, i: int)
    returns (r: nat, c: nat)
    requires sys.locks && IsRun(sys, run, acts) && t < |run| && i in run[t].edits && HasScope(run[t].edits[i].phase)
    ensures r <= c <= t && Grows(run[r].table, run[c].table) && Grows(run[c].table, run[t].table)
    ensures var e := run[t].edits[i];
            && e.phase.before == sys.approvable(e.user, run[r].table)
            && (e.phase.HasChecked? ==> sys.approvable(e.user, run[c].table[e.pk := e.phase.row]) <= e.phase.before)
  {
    var s, a := run[t - 1], acts[t - 1];
    assert Takes(sys, s, run[t], a.0, a.1);
    if a.0 == i && a.1.ReadScope? {
      r, c := t, t;
    } else {
      RunKeepsInv(sys, run, acts, t - 1);
      OthersOnlyCreate(sys, s, run[t], a.0, a.1, i);
      r, c := ReadAndCheck(sys, run, acts, t - 1, i);
      if a.0 == i && a.1.Check? {
        c := t;
        NothingGained(sys.approvable(s.edits[i].user, s.table[s.edits[i].pk := s.edits[i].phase.row]),
                      s.edits[i].phase.before);
      }
    }
  }

  lemma {:induction false} NothingGained(after: set<Pk>, before: set<Pk>)
    requires after - before == {}
    ensures after <= before
  {
    forall x | x in after ensures x in before { assert x !in after - before; }
  }

  /**
   Every commit of every interleaving: the edit added nothing to the editor's scope as it was read, on a table
   that differs from the ones before and after the commit by created procedures and the edited row only.
   */
  lemma {:induction false} CommitKeepsWhatWasRead<R(!new)>(sys: System<R>, run: seq<State<R>>,
                                                           acts: seq<(int, Action<R>)>, t: nat)
    returns (r: nat, c: nat)
    requires sys.locks && IsRun(sys, run, acts) && t < |acts| && acts[t].1.Commit?
    ensures acts[t].0 in run[t].edits && run[t].edits[acts[t].0].phase.HasChecked?
    ensures r <= c <= t && Grows(run[r].table, run[c].table) && Grows(run[c].table, run[t].table)
    ensures var e := run[t].edits[acts[t].0];
            && run[t + 1].table == run[t].table[e.pk := e.phase.row]
            && sys.approvable(e.user, run[c].table[e.pk := e.phase.row]) <= sys.approvable(e.user, run[r].table)
  {
    assert Takes(sys, run[t], run[t + 1], acts[t].0, acts[t].1);
    r, c := ReadAndCheck(sys, run, acts, t, acts[t].0);
  }

  // ----- Where the guarantee ends -----

  lemma {:induction false} Extend<R(!new)>(sys: System<R>, run: seq<State<R>>, acts: seq<(int, Action<R>)>, i: int,
                                              a: Action<R>, next: State<R>)
    requires IsRun(sys, run, acts) && Takes(sys, run[|acts|], next, i, a)
    ensures IsRun(sys, run + [next], acts + [(i, a)]) && (run + [next])[|acts| + 1] == next
  {
    var r, c := run + [next], acts + [(i, a)];
    forall t | 0 <= t < |c| ensures Takes(sys, r[t], r[t + 1], c[t].0, c[t].1) {
      if t < |acts| { assert r[t] == run[t] && r[t + 1] == run[t + 1] && c[t] == acts[t]; }
    }
  }

  /** A relation between two procedures: the editor may approve 3 once 1 and 2 both hold a 1. */
  function Joint(user: int, table: map<Pk, int>): set<Pk> {
    if 1 in table && 2 in table && table[1] == 1 && table[2] == 1 then {3} else {}
  }

  const ZEROS: map<Pk, int> := map[1 := 0, 2 := 0]

  /** User 9 edits procedures 1 and 2 in two transactions, on a database without the lock. */
  function TwoEdits(table: map<Pk, int>, first: Phase<int>, second: Phase<int>): State<int> {
    State(table, None, map[1 := Edit(9, 1, first), 2 := Edit(9, 2, second)], 0)
  }

  function Unlocked(): System<int> { System(false, Joint) }

  lemma {:induction false} MoveFirst(table: map<Pk, int>, p: Phase<int>, q: Phase<int>, next: Phase<int>)
    ensures Moved(TwoEdits(table, p, q), 1, next) == TwoEdits(table, next, q)
    ensures Moved(TwoEdits(table, q, p), 2, next) == TwoEdits(table, q, next)
  {
  }

  /** One phase of each edit in turn, as long as the table does not change. */
  lemma {:induction false} BothMove(run: seq<State<int>>, acts: seq<(int, Action<int>)>, p: Phase<int>, a: Action<int>,
                                    next: Phase<int>)
    returns (run': seq<State<int>>, acts': seq<(int, Action<int>)>)
    requires IsRun(Unlocked(), run, acts) && run[|acts|] == TwoEdits(ZEROS, p, p)
    requires Takes(Unlocked(), TwoEdits(ZEROS, p, p), TwoEdits(ZEROS, next, p), 1, a)
    requires Takes(Unlocked(), TwoEdits(ZEROS, next, p), TwoEdits(ZEROS, next, next), 2, a)
    ensures IsRun(Unlocked(), run', acts') && run'[|acts'|] == TwoEdits(ZEROS, next, next)
  {
    Extend(Unlocked(), run, acts, 1, a, TwoEdits(ZEROS, next, p));
    var r, c := run + [TwoEdits(ZEROS, next, p)], acts + [(1, a)];
    Extend(Unlocked(), r, c, 2, a, TwoEdits(ZEROS, next, next));
    run', acts' := r + [TwoEdits(ZEROS, next, next)], c + [(2, a)];
  }

  lemma {:induction false} BothOpen() returns (run: seq<State<int>>, acts: seq<(int, Action<int>)>)
    ensures IsRun(Unlocked(), run, acts) && run[|acts|] == TwoEdits(ZEROS, Open, Open)
  {
    var s0 := State(ZEROS, None, map[], 0);
    var s1 := s0.(edits := map[1 := Edit(9, 1, Open)]);
    run, acts := [s0], [];
    Extend(Unlocked(), run, acts, 1, Begin(9, 1), s1);
    run, acts := run + [s1], acts + [(1, Begin(9, 1))];
    Extend(Unlocked(), run, acts, 2, Begin(9, 2), TwoEdits(ZEROS, Open, Open));
    run, acts := run + [TwoEdits(ZEROS, Open, Open)], acts + [(2, Begin(9, 2))];
  }

  /** Each edit alone adds nothing, so both pass their check. */
  lemma {:induction false} BothChecked() returns (run: seq<State<int>>, acts: seq<(int, Action<int>)>)
    ensures IsRun(Unlocked(), run, acts) && run[|acts|] == TwoEdits(ZEROS, HasChecked({}, 0, 1), HasChecked({}, 0, 1))
  {
    run, acts := BothOpen();
    MoveFirst(ZEROS, Open, Open, Holding);
    MoveFirst(ZEROS, Open, Holding, Holding);
    run, acts := BothMove(run, acts, Open, Lock, Holding);
    MoveFirst(ZEROS, Holding, Holding, HasRead({}, 0));
    MoveFirst(ZEROS, Holding, HasRead({}, 0), HasRead({}, 0));
    run, acts := BothMove(run, acts, Holding, ReadScope, HasRead({}, 0));
    MoveFirst(ZEROS, HasRead({}, 0), HasRead({}, 0), HasWritten({}, 0, 1));
    MoveFirst(ZEROS, HasRead({}, 0), HasWritten({}, 0, 1), HasWritten({}, 0, 1));
    run, acts := BothMove(run, acts, HasRead({}, 0), Write(1), HasWritten({}, 0, 1));
    MoveFirst(ZEROS, HasWritten({}, 0, 1), HasWritten({}, 0, 1), HasChecked({}, 0, 1));
    MoveFirst(ZEROS, HasWritten({}, 0, 1), HasChecked({}, 0, 1), HasChecked({}, 0, 1));
    run, acts := BothMove(run, acts, HasWritten({}, 0, 1), Check, HasChecked({}, 0, 1));
  }

  /**
   Without the lock the guarantee fails: two edits, each of which alone adds nothing, commit together
   and widen the scope of the editor who commits last.
   */
  lemma {:induction false} WithoutTheLockTwoEditsWiden()
    returns (run: seq<State<int>>, acts: seq<(int, Action<int>)>)
    ensures IsRun(Unlocked(), run, acts) && 0 < |acts| && acts[|acts| - 1] == (2, Commit)
    ensures var before, after := run[|acts| - 1], run[|acts|];
            && ReadIsFresh(before, 2) && before.edits[2].user == 9
            && Joint(9, before.table) == {} && Joint(9, after.table) == {3}
  {
    var checked, one := HasChecked({}, 0, 1), ZEROS[1 := 1];
    run, acts := BothChecked();
    var mid := TwoEdits(one, Ended, checked);
    MoveFirst(ZEROS, checked, checked, Ended);
    Extend(Unlocked(), run, acts, 1, Commit, mid);
    run, acts := run + [mid], acts + [(1, Commit)];
    var last := TwoEdits(one[2 := 1], Ended, Ended);
    MoveFirst(one, checked, Ended, Ended);
    Extend(Unlocked(), run, acts, 2, Commit, last);
    run, acts := run + [last], acts + [(2, Commit)];
    assert run[|acts| - 1] == mid && run[|acts|] == last;
  }

  // ----- Creation takes no lock -----

  /** The approve relation that grants procedure 0 on exactly these tables. */
  ghost function Granting<R(!new)>(tables: set<map<Pk, R>>): System<R> {
    System(true, (_: int, table: map<Pk, R>) => if table in tables then {0} else {})
  }

  /** One edit that holds the lock. */
  function OneEdit<R>(table: map<Pk, R>, user: int, pk: Pk, phase: Phase<R>, created: nat): State<R> {
    State(table, Some(1), map[1 := Edit(user, pk, phase)], created)
  }

  lemma {:induction false} OneMoves<R>(table: map<Pk, R>, user: int, pk: Pk, p: Phase<R>, next: Phase<R>, created: nat)
    ensures Moved(OneEdit(table, user, pk, p, created), 1, next) == OneEdit(table, user, pk, next, created)
  {
  }

  /** A locked edit that has read its editor's scope. */
  lemma {:induction false} OneRead<R(!new)>(tables: set<map<Pk, R>>, table: map<Pk, R>, user: int, pk: Pk,
                                            before: set<Pk>)
    returns (run: seq<State<R>>, acts: seq<(int, Action<R>)>)
    requires before == if table in tables then {0} else {}
    ensures IsRun(Granting(tables), run, acts) && run[|acts|] == OneEdit(table, user, pk, HasRead(before, 0), 0)
  {
    var sys := Granting(tables);
    var s0 := State(table, None, map[], 0);
    var s1 := s0.(edits := map[1 := Edit(user, pk, Open)]);
    run, acts := [s0], [];
    Extend(sys, run, acts, 1, Begin(user, pk), s1);
    run, acts := run + [s1], acts + [(1, Begin(user, pk))];
    OneMoves(table, user, pk, Open, Holding, 0);
    var s2 := OneEdit(table, user, pk, Holding, 0);
    Extend(sys, run, acts, 1, Lock, s2);
    run, acts := run + [s2], acts + [(1, Lock)];
    OneMoves(table, user, pk, Holding, HasRead(before, 0), 0);
    var s3 := OneEdit(table, user, pk, HasRead(before, 0), 0);
    Extend(sys, run, acts, 1, ReadScope, s3);
    run, acts := run + [s3], acts + [(1, ReadScope)];
  }

  /** From there it writes `row` and passes its check. */
  lemma {:induction false} WriteAndCheck<R(!new)>(tables: set<map<Pk, R>>, run: seq<State<R>>,
                                                  acts: seq<(int, Action<R>)>, table: map<Pk, R>, user: int, pk: Pk,
                                                  before: set<Pk>, created: nat, row: R)
    returns (run': seq<State<R>>, acts': seq<(int, Action<R>)>)
    requires IsRun(Granting(tables), run, acts) && pk in table
    requires run[|acts|] == OneEdit(table, user, pk, HasRead(before, 0), created)
    requires table[pk := row] in tables ==> 0 in before
    ensures IsRun(Granting(tables), run', acts') && acts' == acts + [(1, Write(row)), (1, Check)]
    ensures run'[|acts'|] == OneEdit(table, user, pk, HasChecked(before, 0, row), created)
  {
    var sys := Granting(tables);
    OneMoves(table, user, pk, HasRead(before, 0), HasWritten(before, 0, row), created);
    var s4 := OneEdit(table, user, pk, HasWritten(before, 0, row), created);
    Extend(sys, run, acts, 1, Write(row), s4);
    run', acts' := run + [s4], acts + [(1, Write(row))];
    OneMoves(table, user, pk, HasWritten(before, 0, row), HasChecked(before, 0, row), created);
    var s5 := OneEdit(table, user, pk, HasChecked(before, 0, row), created);
    Extend(sys, run', acts', 1, Check, s5);
    run', acts' := run' + [s5], acts' + [(1, Check)];
  }

  /** The last state before a commit of the edit, and the state after it, where the editor gains procedure 0. */
  ghost predicate WidensAtCommit<R(!new)>(sys: System<R>, run: seq<State<R>>, acts: seq<(int, Action<R>)>, user: int,
                                          before: map<Pk, R>, pk: Pk, row: R) {
    && sys.locks && IsRun(sys, run, acts) && 0 < |acts| && acts[|acts| - 1] == (1, Commit)
    && var s, s' := run[|acts| - 1], run[|acts|];
       && 1 in s.edits && s.edits[1].user == user && s.edits[1].pk == pk && !ReadIsFresh(s, 1)
       && s.table == before && s'.table == before[pk := row]
       && !(sys.approvable(user, s'.table) <= sys.approvable(user, s.table))
  }

  lemma {:induction false} CommitWidens<R(!new)>(tables: set<map<Pk, R>>, run: seq<State<R>>,
                                                 acts: seq<(int, Action<R>)>,
                                                 table: map<Pk, R>, user: int, pk: Pk, before: set<Pk>, row: R)
    returns (run': seq<State<R>>, acts': seq<(int, Action<R>)>)
    requires IsRun(Granting(tables), run, acts)
    requires run[|acts|] == OneEdit(table, user, pk, HasChecked(before, 0, row), 1)
    requires table[pk := row] in tables && table !in tables
    ensures acts' == acts + [(1, Commit)] && WidensAtCommit(Granting(tables), run', acts', user, table, pk, row)
  {
    var sys, mid := Granting(tables), run[|acts|];
    var last := Released(Moved(mid, 1, Ended), 1).(table := table[pk := row]);
    Extend(sys, run, acts, 1, Commit, last);
    run', acts' := run + [last], acts + [(1, Commit)];
    assert run'[|acts'| - 1] == mid && run'[|acts'|] == last;
    assert 0 in sys.approvable(user, table[pk := row]) && 0 !in sys.approvable(user, table);
  }

  /**
   Creating a procedure takes no lock, so freshness cannot be dropped for any table, any created procedure
   and any edit that changes its row: with that creation between the edit's check and its commit, there is
   an approve relation under which the locked run widens the editor's scope.
   */
  lemma {:induction false} CreateBeforeCommitWidens<R(!new)>(table: map<Pk, R>, user: int, pk: Pk, row: R, added: Pk,
                                                            addedRow: R)
    returns (sys: System<R>, run: seq<State<R>>, acts: seq<(int, Action<R>)>)
    requires pk in table && table[pk] != row && added !in table
    ensures WidensAtCommit(sys, run, acts, user, table[added := addedRow], pk, row)
    ensures 2 <= |acts| && acts[|acts| - 2].1 == Create(added, addedRow)
  {
    var grown := table[added := addedRow];
    var final := grown[pk := row];
    assert added in final && added !in table[pk := row] && final[pk] != grown[pk];
    sys := Granting({final});
    run, acts := OneRead({final}, table, user, pk, {});
    run, acts := WriteAndCheck({final}, run, acts, table, user, pk, {}, 0, row);
    var mid := OneEdit(grown, user, pk, HasChecked({}, 0, row), 1);
    Extend(sys, run, acts, 5, Create(added, addedRow), mid);
    run, acts := run + [mid], acts + [(5, Create(added, addedRow))];
    run, acts := CommitWidens({final}, run, acts, grown, user, pk, {}, row);
  }

  /** Nor for a creation between the edit's read and its check. */
  lemma {:induction false} CreateBeforeCheckWidens<R(!new)>(table: map<Pk, R>, user: int, pk: Pk, row: R, added: Pk,
                                                           addedRow: R)
    returns (sys: System<R>, run: seq<State<R>>, acts: seq<(int, Action<R>)>)
    requires pk in table && table[pk] != row && added !in table
    ensures WidensAtCommit(sys, run, acts, user, table[added := addedRow], pk, row)
    ensures 4 <= |acts| && acts[|acts| - 4].1 == Create(added, addedRow)
  {
    var grown := table[added := addedRow];
    var final := grown[pk := row];
    assert added in grown && final[pk] != grown[pk];
    var tables := {table, final};
    sys := Granting(tables);
    run, acts := OneRead(tables, table, user, pk, {0});
    var mid := OneEdit(grown, user, pk, HasRead({0}, 0), 1);
    Extend(sys, run, acts, 5, Create(added, addedRow), mid);
    run, acts := run + [mid], acts + [(5, Create(added, addedRow))];
    run, acts := WriteAndCheck(tables, run, acts, grown, user, pk, {0}, 1, row);
    run, acts := CommitWidens(tables, run, acts, grown, user, pk, {0}, row);
  }

  // ----- The lock is not lost -----

  /** Whoever holds the lock is at work. */
  ghost predicate HolderWorks<R(!new)>(s: State<R>) {
    s.holder.Some? ==> s.holder.value in s.edits && Working(s.edits[s.holder.value].phase)
  }

  lemma {:induction false} StepKeepsHolder<R(!new)>(sys: System<R>, s: State<R>, s': State<R>, i: int, a: Action<R>)
    requires sys.locks && Inv(sys, s) && HolderWorks(s) && Takes(sys, s, s', i, a)
    ensures HolderWorks(s')
  {
  }

  /** In every state of every run the lock is free or held by an edit at work; ending it frees the lock. */
  lemma {:induction false} LockIsHeldOrFree<R(!new)>(sys: System<R>, run: seq<State<R>>, acts: seq<(int, Action<R>)>,
                                                     t: nat)
    requires sys.locks && IsRun(sys, run, acts) && t < |run|
    ensures HolderWorks(run[t])
    ensures t < |acts| && (acts[t].1.Commit? || (acts[t].1.Abort? && run[t].holder == Some(acts[t].0))) ==>
              run[t + 1].holder.None?
  {
    RunKeepsInv(sys, run, acts, t);
    if t > 0 {
      LockIsHeldOrFree(sys, run, acts, t - 1);
      RunKeepsInv(sys, run, acts, t - 1);
      StepKeepsHolder(sys, run[t - 1], run[t], acts[t - 1].0, acts[t - 1].1);
    }
    if t < |acts| { assert Takes(sys, run[t], run[t + 1], acts[t].0, acts[t].1); }
  }
}
