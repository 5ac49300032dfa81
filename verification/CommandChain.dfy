/**
 Command rows of procedures and their output-to-input chaining. A row may be created, or edited in
 place, when `clean` accepts it; these are the steps of a run over the whole command table.
 */
module CommandChain {
  import opened Ordering
  import opened Templating

  datatype Row = Row(
    procedure: int,
    sequence: nat,
    jinja: bool,
    argv: seq<Token>,
    forEach: string,
    producesVar: string,
    captureKind: string,
    captureExpression: string)

  type Table = map<int, Row>

  // ----- Names -----

  /** The ASCII characters that `strip` removes. */
  predicate IsSpace(c: char) { c == ' ' || '\t' <= c <= '\r' || '\U{1C}' <= c <= '\U{1F}' }

  function TrimLeft(s: string): string { if s != "" && IsSpace(s[0]) then TrimLeft(s[1..]) else s }

  function TrimRight(s: string): string {
    if s != "" && IsSpace(s[|s| - 1]) then TrimRight(s[..|s| - 1]) else s
  }

  function Trim(s: string): string { TrimRight(TrimLeft(s)) }

  /** The output variable a row produces; empty when it produces none. */
  function Var(r: Row): string { Trim(r.producesVar) }

  predicate IsVarName(s: string) {
    s != "" && 'a' <= s[0] <= 'z'
    && forall i | 0 <= i < |s| :: 'a' <= s[i] <= 'z' || '0' <= s[i] <= '9' || s[i] == '_'
  }

  /** The output variables that rows with a smaller sequence produce. */
  function ProducedBefore(rows: seq<Row>, q: nat): set<string> {
    set r | r in rows && r.sequence < q && Var(r) != "" :: Var(r)
  }

  function Names(rows: seq<Row>): set<string> {
    set r | r in rows && Var(r) != "" :: Var(r)
  }

  /** The references of all tokens of a row. */
  function Refs(argv: seq<Token>): seq<VarRef> {
    if argv == [] then [] else AnalyzeToken(argv[0]).refs + Refs(argv[1..])
  }

  predicate NeedsVar(r: Row, x: string) { r.jinja && VarRef(VARS, Key(x)) in Refs(r.argv) }

  // ----- The checks -----

  /** `validate_capture`; `kindOk` stands for the rules on the capture kind and its expression. */
  predicate CaptureOk(kindOk: (string, string) -> bool, r: Row, others: set<string>) {
    if Var(r) == "" then Trim(r.captureKind) == "" && Trim(r.captureExpression) == ""
    else
      && IsVarName(Var(r)) && Var(r) !in ROOTS && Var(r) !in others
      && kindOk(Trim(r.captureKind), Trim(r.captureExpression))
  }

  /** No sibling that renders templates is left with an output variable that no earlier row produces. */
  predicate ChainOk(siblings: seq<Row>, self: Row) {
    forall r | r in siblings && r.jinja ::
      forall ref | ref in Refs(r.argv) && ref.root == VARS && ref.attr.Key? && ref.attr.name != "" ::
        ref.attr.name in ProducedBefore(siblings + [self], r.sequence)
  }

  /**
   What `clean` is asked with: the procedure's parameters, the rules on a capture kind and its expression, and
   the checks that do not concern chaining: the modes, the placeholders, and the tokens of a literal command.
   */
  datatype Rules = Rules(
    params: int -> set<string>,
    kindOk: (string, string) -> bool,
    otherOk: Row -> bool)

  /** `RPCProcedureCommand.clean`: the row is accepted beside its siblings. */
  predicate Clean(rules: Rules, siblings: seq<Row>, r: Row) {
    && r.argv != [] && rules.otherOk(r)
    && (r.jinja ==>
          AcceptsArgv(Scope(rules.params(r.procedure), ProducedBefore(siblings, r.sequence), r.forEach != ""), r.argv))
    && CaptureOk(rules.kindOk, r, Names(siblings))
    && ChainOk(siblings, r)
  }

  /** `_chain_consistency_errors`: the sequences of the rows that the change would orphan. */
  method ChainErrors(siblings: seq<Row>, self: Row) returns (orphaned: seq<nat>)
    ensures orphaned == [] <==> ChainOk(siblings, self)
    ensures forall q | q in orphaned :: exists r :: r in siblings && r.jinja && r.sequence == q
  {
    orphaned := [];
    for i := 0 to |siblings|
      invariant forall q | q in orphaned :: exists r :: r in siblings && r.jinja && r.sequence == q
      invariant orphaned == [] <==> forall k | 0 <= k < i && siblings[k].jinja :: !Orphaned(siblings, self, siblings[k])
    {
      var r := siblings[i];
      if r.jinja {
        var producedBefore := ProducedBefore(siblings + [self], r.sequence);
        var refs := Refs(r.argv);
        var referenced := set ref |
          ref in refs && ref.root == VARS && ref.attr.Key? && ref.attr.name != "" :: ref.attr.name;
        if referenced - producedBefore != {} {
          orphaned := orphaned + [r.sequence];
        }
        assert referenced - producedBefore != {} <==> Orphaned(siblings, self, r) by {
          if Orphaned(siblings, self, r) {
            var ref :|
              && ref in refs && ref.root == VARS && ref.attr.Key?
              && ref.attr.name != "" && ref.attr.name !in producedBefore;
            assert ref.attr.name in referenced - producedBefore;
          }
        }
      }
    }
    assert ChainOk(siblings, self) <==> forall r | r in siblings && r.jinja :: !Orphaned(siblings, self, r);
  }

  ghost predicate Orphaned(siblings: seq<Row>, self: Row, r: Row) {
    exists ref :: ref in Refs(r.argv) && ref.root == VARS && ref.attr.Key? && ref.attr.name != ""
                  && ref.attr.name !in ProducedBefore(siblings + [self], r.sequence)
  }

  // ----- The table -----

  /** `_sibling_commands`: the other rows of the procedure, in any order. */
  ghost predicate AreSiblings(t: Table, p: int, pk: int, siblings: seq<Row>) {
    forall r :: r in siblings <==> exists k :: k in t && k != pk && t[k] == r && r.procedure == p
  }

  /** A row with a smaller sequence in the procedure produces `x`. */
  ghost predicate Produced(t: Table, p: int, x: string, q: nat) {
    x != "" && exists j :: j in t && t[j].procedure == p && Var(t[j]) == x && t[j].sequence < q
  }

  ghost predicate RowClosed(t: Table, r: Row) {
    forall ref | ref in Refs(r.argv) && ref.root == VARS ::
      ref.attr.Key? && Produced(t, r.procedure, ref.attr.name, r.sequence)
  }

  /** Every output variable that the procedure's templates refer to comes from an earlier row. */
  ghost predicate Closed(t: Table, p: int) {
    forall k | k in t && t[k].procedure == p && t[k].jinja :: RowClosed(t, t[k])
  }

  ghost predicate UniqueNames(t: Table, p: int) {
    forall j, k | j in t && k in t && j != k && t[j].procedure == p && t[k].procedure == p && Var(t[j]) != "" ::
      Var(t[j]) != Var(t[k])
  }

  ghost predicate Sound(t: Table, p: int) { Closed(t, p) && UniqueNames(t, p) }

  /** Row `pk` is created or edited, with `siblings` as the sibling list that `clean` reads. */
  ghost predicate Saves(rules: Rules, t: Table, t': Table, pk: int, r: Row, siblings: seq<Row>) {
    AreSiblings(t, r.procedure, pk, siblings) && Clean(rules, siblings, r) && t' == t[pk := r]
  }

  lemma {:induction false} ProducedBySiblings(t: Table, pk: int, r: Row, siblings: seq<Row>, x: string, q: nat)
    requires AreSiblings(t, r.procedure, pk, siblings) && x in ProducedBefore(siblings + [r], q)
    ensures Produced(t[pk := r], r.procedure, x, q)
  {
    var s :| s in siblings + [r] && s.sequence < q && Var(s) != "" && Var(s) == x;
    var t' := t[pk := r];
    if s in siblings {
      var k :| k in t && k != pk && t[k] == s && s.procedure == r.procedure;
      assert t'[k] == s;
    } else {
      assert t'[pk] == s;
    }
  }

  lemma {:induction false} RefsOfRow(argv: seq<Token>, ref: VarRef)
    ensures ref in Refs(argv) <==> exists i :: 0 <= i < |argv| && ref in AnalyzeToken(argv[i]).refs
  {
    if argv != [] {
      RefsOfRow(argv[1..], ref);
      if ref in Refs(argv) && ref !in AnalyzeToken(argv[0]).refs {
        var i :| 0 <= i < |argv[1..]| && ref in AnalyzeToken(argv[1..][i]).refs;
        assert ref in AnalyzeToken(argv[i + 1]).refs;
      }
      if exists i :: 0 <= i < |argv| && ref in AnalyzeToken(argv[i]).refs {
        var i :| 0 <= i < |argv| && ref in AnalyzeToken(argv[i]).refs;
        if i > 0 { assert ref in AnalyzeToken(argv[1..][i - 1]).refs; }
      }
    }
  }

  lemma {:induction false} AcceptedRefsResolve(scope: Scope, argv: seq<Token>, ref: VarRef)
    requires AcceptsArgv(scope, argv) && ref in Refs(argv)
    ensures Resolves(scope, ref)
  {
    RefsOfRow(argv, ref);
    var i :| 0 <= i < |argv| && ref in AnalyzeToken(argv[i]).refs;
    assert Accepts(scope, argv[i]);
  }

  lemma {:induction false} SavedRowClosed(rules: Rules, t: Table, t': Table, pk: int, r: Row, siblings: seq<Row>)
    requires Saves(rules, t, t', pk, r, siblings) && r.jinja
    ensures RowClosed(t', r)
  {
    var scope := Scope(rules.params(r.procedure), ProducedBefore(siblings, r.sequence), r.forEach != "");
    forall ref | ref in Refs(r.argv) && ref.root == VARS
      ensures ref.attr.Key? && Produced(t', r.procedure, ref.attr.name, r.sequence)
    {
      AcceptedRefsResolve(scope, r.argv, ref);
      assert ref.attr.name in ProducedBefore(siblings + [r], r.sequence);
      ProducedBySiblings(t, pk, r, siblings, ref.attr.name, r.sequence);
    }
  }

  lemma {:induction false} SiblingStaysClosed(rules: Rules, t: Table, t': Table, pk: int, r: Row, siblings: seq<Row>,
                                              s: Row)
    requires Saves(rules, t, t', pk, r, siblings) && s in siblings && s.jinja && RowClosed(t, s)
    ensures RowClosed(t', s)
  {
    assert s.procedure == r.procedure;
    forall ref | ref in Refs(s.argv) && ref.root == VARS
      ensures ref.attr.Key? && Produced(t', s.procedure, ref.attr.name, s.sequence)
    {
      assert Produced(t, s.procedure, ref.attr.name, s.sequence);
      assert ref.attr.name in ProducedBefore(siblings + [r], s.sequence);
      ProducedBySiblings(t, pk, r, siblings, ref.attr.name, s.sequence);
    }
  }

  /** An accepted save keeps the procedure that the row ends up in sound. */
  lemma {:induction false} SaveKeepsSound(rules: Rules, t: Table, t': Table, pk: int, r: Row, siblings: seq<Row>)
    requires Saves(rules, t, t', pk, r, siblings) && Sound(t, r.procedure)
    ensures Sound(t', r.procedure)
  {
    var p := r.procedure;
    forall k | k in t' && t'[k].procedure == p && t'[k].jinja ensures RowClosed(t', t'[k]) {
      if k == pk {
        SavedRowClosed(rules, t, t', pk, r, siblings);
      } else {
        assert t[k] in siblings;
        SiblingStaysClosed(rules, t, t', pk, r, siblings, t[k]);
      }
    }
    forall k | k in t && k != pk && t[k].procedure == p && Var(r) != "" ensures Var(t[k]) != Var(r) {
      assert t[k] in siblings;
      assert Var(t[k]) != "" ==> Var(t[k]) in Names(siblings);
    }
  }

  // ----- Exactly what is accepted -----

  /** The output variables that rows of the procedure with a smaller sequence produce. */
  ghost function ProducedIn(t: Table, p: int, q: nat): set<string> {
    set k | k in t && t[k].procedure == p && t[k].sequence < q && Var(t[k]) != "" :: Var(t[k])
  }

  /** A row without an output variable captures nothing; a variable has a legal name of its own and a legal capture. */
  ghost predicate CapturesLegally(rules: Rules, r: Row) {
    if Var(r) == "" then Trim(r.captureKind) == "" && Trim(r.captureExpression) == ""
    else IsVarName(Var(r)) && Var(r) !in ROOTS && rules.kindOk(Trim(r.captureKind), Trim(r.captureExpression))
  }

  lemma {:induction false} EarlierOfSiblings(t: Table, pk: int, r: Row, siblings: seq<Row>, q: nat)
    requires AreSiblings(t, r.procedure, pk, siblings)
    ensures ProducedBefore(siblings + [r], q) == ProducedIn(t[pk := r], r.procedure, q)
    ensures ProducedBefore(siblings, r.sequence) == ProducedIn(t[pk := r], r.procedure, r.sequence)
  {
    var t', p := t[pk := r], r.procedure;
    forall x, q: nat | x in ProducedBefore(siblings + [r], q) ensures x in ProducedIn(t', p, q) {
      ProducedBySiblings(t, pk, r, siblings, x, q);
      var k :| k in t' && t'[k].procedure == p && Var(t'[k]) == x && t'[k].sequence < q;
    }
    forall x, q: nat | x in ProducedIn(t', p, q) ensures x in ProducedBefore(siblings + [r], q) {
      var k :| k in t' && t'[k].procedure == p && t'[k].sequence < q && Var(t'[k]) != "" && Var(t'[k]) == x;
      if k != pk { assert t[k] in siblings; }
      assert t'[k] in siblings + [r];
    }
    assert ProducedBefore(siblings, r.sequence) == ProducedBefore(siblings + [r], r.sequence);
  }

  lemma {:induction false} SoundMeansChained(t: Table, pk: int, r: Row, siblings: seq<Row>)
    requires AreSiblings(t, r.procedure, pk, siblings) && Sound(t[pk := r], r.procedure)
    ensures ChainOk(siblings, r) && (Var(r) != "" ==> Var(r) !in Names(siblings))
  {
    var t', p := t[pk := r], r.procedure;
    forall s, ref | s in siblings && s.jinja && ref in Refs(s.argv) && ref.root == VARS
      ensures ref.attr.Key? && ref.attr.name in ProducedBefore(siblings + [r], s.sequence)
    {
      var k :| k in t && k != pk && t[k] == s && s.procedure == p;
      assert t'[k] == s && RowClosed(t', t'[k]);
      assert Produced(t', p, ref.attr.name, s.sequence);
      EarlierOfSiblings(t, pk, r, siblings, s.sequence);
    }
    forall s | s in siblings && Var(s) != "" ensures Var(s) != Var(r) {
      var k :| k in t && k != pk && t[k] == s && s.procedure == p;
      assert t'[k] == s && t'[pk] == r;
    }
  }

  /**
   In a sound procedure, a row is accepted exactly when its own parts are legal, its tokens read only what earlier
   rows produce, and the procedure stays sound with it.
   */
  lemma {:induction false} AcceptedExactly(rules: Rules, t: Table, pk: int, r: Row, siblings: seq<Row>)
    requires AreSiblings(t, r.procedure, pk, siblings) && Sound(t, r.procedure)
    ensures var t', p := t[pk := r], r.procedure;
            Clean(rules, siblings, r) <==>
            && r.argv != [] && rules.otherOk(r) && CapturesLegally(rules, r)
            && (r.jinja ==> AcceptsArgv(Scope(rules.params(p), ProducedIn(t', p, r.sequence), r.forEach != ""), r.argv))
            && Sound(t', p)
  {
    EarlierOfSiblings(t, pk, r, siblings, r.sequence);
    if Clean(rules, siblings, r) { SaveKeepsSound(rules, t, t[pk := r], pk, r, siblings); }
    if Sound(t[pk := r], r.procedure) { SoundMeansChained(t, pk, r, siblings); }
  }

  /** A procedure that the row neither was in nor ends up in is not affected. */
  lemma {:induction false} SaveKeepsOthers(t: Table, pk: int, r: Row, p: int)
    requires Sound(t, p) && p != r.procedure && (pk in t ==> t[pk].procedure != p)
    ensures Sound(t[pk := r], p)
  {
    var t' := t[pk := r];
    forall k | k in t' && t'[k].procedure == p && t'[k].jinja ensures RowClosed(t', t'[k]) {
      assert k != pk && RowClosed(t, t[k]);
      forall x, q: nat | Produced(t, p, x, q) ensures Produced(t', p, x, q) {
        var j :| j in t && t[j].procedure == p && Var(t[j]) == x && t[j].sequence < q;
        assert t'[j] == t[j];
      }
    }
  }

  // ----- Moving a row to another procedure -----

  /** Some remaining template of the old procedure needs what the row produced. */
  ghost predicate StillNeeded(t: Table, pk: int) {
    && pk in t && Var(t[pk]) != ""
    && exists k :: k in t && k != pk && t[k].procedure == t[pk].procedure && NeedsVar(t[k], Var(t[pk]))
  }

  lemma {:induction false} MoveOrphans(t: Table, pk: int, r: Row)
    requires pk in t && r.procedure != t[pk].procedure && Sound(t, t[pk].procedure) && StillNeeded(t, pk)
    ensures !Closed(t[pk := r], t[pk].procedure)
  {
    var t', moved := t[pk := r], t[pk];
    var k :| k in t && k != pk && t[k].procedure == moved.procedure && NeedsVar(t[k], Var(moved));
    assert t'[k] == t[k];
    forall j | j in t' && t'[j].procedure == moved.procedure ensures Var(t'[j]) != Var(moved) {
      assert j != pk && t[j] == t'[j];
    }
    assert !Produced(t', moved.procedure, Var(moved), t[k].sequence);
    assert !RowClosed(t', t'[k]);
  }

  lemma {:induction false} MoveKeeps(t: Table, pk: int, r: Row)
    requires pk in t && r.procedure != t[pk].procedure && Sound(t, t[pk].procedure) && !StillNeeded(t, pk)
    ensures Sound(t[pk := r], t[pk].procedure)
  {
    var t', p := t[pk := r], t[pk].procedure;
    forall k | k in t' && t'[k].procedure == p && t'[k].jinja ensures RowClosed(t', t'[k]) {
      assert k != pk && RowClosed(t, t[k]);
      forall ref | ref in Refs(t[k].argv) && ref.root == VARS
        ensures ref.attr.Key? && Produced(t', p, ref.attr.name, t[k].sequence)
      {
        var j :| j in t && t[j].procedure == p && Var(t[j]) == ref.attr.name && t[j].sequence < t[k].sequence;
        assert ref == VarRef(VARS, Key(ref.attr.name));
        assert j == pk ==> NeedsVar(t[k], Var(t[pk]));
        assert t'[j] == t[j];
      }
    }
  }

  /**
   An accepted edit that moves a row to another procedure keeps the old procedure sound exactly when
   nothing left there needs the row's output variable; `clean` does not look at the old procedure.
   */
  lemma {:induction false} MoveKeepsOldExactly(t: Table, pk: int, r: Row)
    requires pk in t && r.procedure != t[pk].procedure && Sound(t, t[pk].procedure)
    ensures Sound(t[pk := r], t[pk].procedure) <==> !StillNeeded(t, pk)
  {
    if StillNeeded(t, pk) { MoveOrphans(t, pk, r); } else { MoveKeeps(t, pk, r); }
  }

  // ----- Runs -----

  datatype Save = Save(pk: int, row: Row, siblings: seq<Row>)

  /** An edit that stays in its procedure, or whose old procedure no longer needs the row. */
  ghost predicate LeavesNoGap(t: Table, s: Save) {
    s.pk in t && t[s.pk].procedure != s.row.procedure ==> !StillNeeded(t, s.pk)
  }

  /** A run of accepted creates and edits from the empty table. */
  ghost predicate IsRun(rules: Rules, run: seq<Table>, saves: seq<Save>) {
    && |run| == |saves| + 1 && run[0] == map[]
    && forall i | 0 <= i < |saves| ::
         Saves(rules, run[i], run[i + 1], saves[i].pk, saves[i].row, saves[i].siblings) && LeavesNoGap(run[i], saves[i])
  }

  /** In every state of every run, every procedure is closed and its output names are unique. */
  lemma {:induction false} RunKeepsSound(rules: Rules, run: seq<Table>, saves: seq<Save>, i: nat, p: int)
    requires IsRun(rules, run, saves) && i < |run|
    ensures Sound(run[i], p)
  {
    if i > 0 {
      var s, t := saves[i - 1], run[i - 1];
      RunKeepsSound(rules, run, saves, i - 1, p);
      if p == s.row.procedure {
        SaveKeepsSound(rules, t, run[i], s.pk, s.row, s.siblings);
      } else if s.pk in t && t[s.pk].procedure == p {
        MoveKeepsOldExactly(t, s.pk, s.row);
      } else {
        SaveKeepsOthers(t, s.pk, s.row, p);
      }
    }
  }

  // ----- Running a procedure -----

  predicate Keyed(t: Table, keys: seq<int>) { forall i | 0 <= i < |keys| :: keys[i] in t }

  /** The keys of all rows of the procedure, in sequence order. */
  ghost predicate InOrder(t: Table, p: int, keys: seq<int>) {
    && Keyed(t, keys) && Distinct(keys) && (forall k :: k in keys <==> k in t && t[k].procedure == p)
    && forall i, j | 0 <= i < j < |keys| :: t[keys[i]].sequence <= t[keys[j]].sequence
  }

  /** How a template is evaluated, and what running a row in a context lets it capture. */
  datatype Machine = Machine(meaning: Meaning, output: (Row, Context) -> Value)

  ghost predicate AlwaysCaptures(mach: Machine) { forall r, c :: mach.output(r, c) != Undefined }

  /** The output variables before step `i`, when every earlier command ran in its own context. */
  ghost function VarsAt(mach: Machine, base: Context, t: Table, keys: seq<int>, i: nat): map<string, Value>
    requires i <= |keys| && Keyed(t, keys)
  {
    if i == 0 then map[]
    else
      var vars, r := VarsAt(mach, base, t, keys, i - 1), t[keys[i - 1]];
      if Var(r) == "" then vars else vars[Var(r) := mach.output(r, base[VARS := Dict(vars)])]
  }

  /** The context that step `i` runs in. */
  ghost function ContextAt(mach: Machine, base: Context, t: Table, keys: seq<int>, i: nat): Context
    requires i <= |keys| && Keyed(t, keys)
  {
    base[VARS := Dict(VarsAt(mach, base, t, keys, i))]
  }

  lemma {:induction false} KeyedRow(t: Table, p: int, keys: seq<int>, i: nat)
    requires InOrder(t, p, keys) && i < |keys|
    ensures t[keys[i]].procedure == p
  {
    var k := keys[i];
    assert k in keys;
    assert k in t && t[k].procedure == p;
  }

  /** A captured value stays bound to its variable until the end of the run. */
  lemma {:induction false} CaptureStays(mach: Machine, base: Context, t: Table, p: int, keys: seq<int>, j: nat, i: nat)
    requires UniqueNames(t, p) && InOrder(t, p, keys) && j < i <= |keys| && Var(t[keys[j]]) != ""
    ensures var vars, x := VarsAt(mach, base, t, keys, i), Var(t[keys[j]]);
            x in vars && vars[x] == mach.output(t[keys[j]], ContextAt(mach, base, t, keys, j))
  {
    if j < i - 1 {
      CaptureStays(mach, base, t, p, keys, j, i - 1);
      KeyedRow(t, p, keys, j);
      KeyedRow(t, p, keys, i - 1);
      assert keys[i - 1] != keys[j];
    }
  }

  /** The step that produces a variable which a row of a closed procedure refers to comes before that row. */
  lemma {:induction false} ProducerRunsBefore(t: Table, p: int, keys: seq<int>, i: nat, ref: VarRef) returns (j: nat)
    requires Sound(t, p) && InOrder(t, p, keys) && i < |keys| && t[keys[i]].jinja
    requires ref in Refs(t[keys[i]].argv) && ref.root == VARS
    ensures ref.attr.Key? && j < i && Var(t[keys[j]]) == ref.attr.name != ""
  {
    KeyedRow(t, p, keys, i);
    var own := keys[i];
    var r := t[own];
    assert own in t && t[own].procedure == p && t[own].jinja;
    assert RowClosed(t, t[own]);
    assert Produced(t, p, ref.attr.name, r.sequence);
    var k :| k in t && t[k].procedure == p && Var(t[k]) == ref.attr.name && t[k].sequence < r.sequence;
    assert k in keys;
    j :| 0 <= j < |keys| && keys[j] == k;
  }

  /** An access to the output variables that occurs in a row's templates. */
  ghost predicate Occurs(r: Row, n: Expr) {
    exists a, b :: 0 <= a < |r.argv| && 0 <= b < |r.argv[a]| && r.argv[a][b].Output? && n in Nodes(r.argv[a][b].expr)
  }

  lemma {:induction false} PartRefs(token: Token, b: nat, ref: VarRef)
    requires b < |token| && token[b].Output? && ref in Analyze(token[b].expr).refs
    ensures ref in AnalyzeParts(token).refs
  {
    if b > 0 {
      PartRefs(token[1..], b - 1, ref);
    }
  }

  lemma {:induction false} AccessIsReferred(r: Row, n: Expr)
    requires Occurs(r, n) && IsAccess(n) && n.node.Name?
    ensures VarRef(n.node.name, AccessKey(n)) in Refs(r.argv)
  {
    var a, b :| 0 <= a < |r.argv| && 0 <= b < |r.argv[a]| && r.argv[a][b].Output? && n in Nodes(r.argv[a][b].expr);
    var e, ref := r.argv[a][b].expr, VarRef(n.node.name, AccessKey(n));
    var i :| 0 <= i < |Nodes(e)| && Nodes(e)[i] == n;
    assert Yields(Nodes(e), false, i, ref);
    RefsMembers(Nodes(e), false, ref);
    WalkFindsRefs(e, false);
    PartRefs(r.argv[a], b, ref);
    RefsOfRow(r.argv, ref);
  }

  /** What an access under `vars` gives when the variable is bound to `v`: a method of dictionaries shadows a key. */
  ghost function Shadowed(m: Meaning, n: Expr, v: Value): Value {
    if n.Getattr? && m.hasMethod(DictShape, n.attr) then Builtin(DictShape, n.attr) else v
  }

  /**
   Run in order, no command of a sound procedure looks up an unbound output variable: each access under
   `vars` evaluates to what the one earlier command that produces the variable captured in its own step,
   exactly unless it is an attribute access and a method of dictionaries has the variable's name.
   */
  lemma {:induction false} NoUnboundLookup(mach: Machine, base: Context, t: Table, p: int, keys: seq<int>, i: nat,
                                           n: Expr)
    returns (j: nat)
    requires Sound(t, p) && InOrder(t, p, keys) && i < |keys| && t[keys[i]].jinja && AlwaysCaptures(mach)
    requires Occurs(t[keys[i]], n) && IsAccess(n) && n.node == Name(VARS)
    ensures j < i && AccessKey(n) == Key(Var(t[keys[j]]))
    ensures var value := Eval(mach.meaning, ContextAt(mach, base, t, keys, i), n);
            var captured := mach.output(t[keys[j]], ContextAt(mach, base, t, keys, j));
            value == Shadowed(mach.meaning, n, captured) != Undefined
  {
    AccessIsReferred(t[keys[i]], n);
    j := ProducerRunsBefore(t, p, keys, i, VarRef(VARS, AccessKey(n)));
    CapturedIsLookedUp(mach, base, t, p, keys, j, i);
  }

  lemma {:induction false} CapturedIsLookedUp(mach: Machine, base: Context, t: Table, p: int, keys: seq<int>, j: nat,
                                              i: nat)
    requires UniqueNames(t, p) && InOrder(t, p, keys) && j < i <= |keys| && Var(t[keys[j]]) != ""
    ensures var c := ContextAt(mach, base, t, keys, i);
            && VARS in c && ShapeOf(c[VARS]) == DictShape
            && Lookup(c[VARS], Var(t[keys[j]])) == mach.output(t[keys[j]], ContextAt(mach, base, t, keys, j))
  {
    CaptureStays(mach, base, t, p, keys, j, i);
  }

  // ----- A producer and its consumer -----

  predicate IsFreeName(x: string) { IsVarName(x) && x !in ROOTS }

  function Access(x: string): Expr { Getattr(Name(VARS), x) }

  function Producer(x: string): Row { Row(1, 1, false, [[Literal("id")]], "", x, "stdout", "") }

  function Consumer(x: string): Row { Row(1, 2, true, [[Output(Access(x))]], "", "", "", "") }

  function Away(x: string): Row { Producer(x).(procedure := 2) }

  function Both(x: string): Table { map[10 := Producer(x)][20 := Consumer(x)] }

  /** A command without placeholders: a literal one has safe, non-empty tokens. */
  predicate IsPlain(r: Row) {
    && r.forEach == ""
    && (!r.jinja ==> forall i | 0 <= i < |r.argv| ::
          |r.argv[i]| == 1 && r.argv[i][0].Literal? && r.argv[i][0].text != "" && IsSafe(r.argv[i][0].text))
  }

  /** Rules that let plain rows and the capture of standard output through. */
  ghost predicate LetsPlainThrough(rules: Rules) {
    (forall r | IsPlain(r) :: rules.otherOk(r)) && rules.kindOk("stdout", "")
  }

  lemma {:induction false} ConsumerNeeds(x: string)
    requires IsFreeName(x)
    ensures Refs(Consumer(x).argv) == [VarRef(VARS, Key(x))]
    ensures AnalyzeToken(Consumer(x).argv[0]) == Analysis([], [VarRef(VARS, Key(x))])
  {
    var use: Token := [Output(Access(x))];
    assert use[1..] == [] && AnalyzeParts(use[1..]) == CLEAN;
    AnalyzeRefs(use[0].expr);
    assert AnalyzeToken(use).refs == [VarRef(VARS, Key(x))];
    assert [use][1..] == [];
  }

  lemma {:induction false} VarsOfPair(x: string)
    requires IsFreeName(x)
    ensures Var(Producer(x)) == x && Var(Away(x)) == x && Var(Consumer(x)) == ""
    ensures Trim("stdout") == "stdout" && Trim("") == ""
  {
    assert TrimLeft(x) == x && TrimRight(x) == x;
  }

  lemma {:induction false} ProducerIsAccepted(rules: Rules, t: Table, x: string, r: Row)
    requires IsFreeName(x) && (r == Producer(x) || r == Away(x)) && AreSiblings(t, r.procedure, 10, [])
    requires rules.otherOk(r) && rules.kindOk("stdout", "")
    ensures Saves(rules, t, t[10 := r], 10, r, [])
  {
    VarsOfPair(x);
    assert Names([]) == {};
    assert CaptureOk(rules.kindOk, r, {});
  }

  lemma {:induction false} ConsumerIsAccepted(rules: Rules, x: string)
    requires IsFreeName(x) && rules.otherOk(Consumer(x))
    ensures Saves(rules, map[10 := Producer(x)], Both(x), 20, Consumer(x), [Producer(x)])
  {
    var t := map[10 := Producer(x)];
    VarsOfPair(x);
    ConsumerNeeds(x);
    assert AreSiblings(t, 1, 20, [Producer(x)]) by { assert t[10] == Producer(x); }
    ConsumerTokenIsAccepted(rules.params(1), x);
  }

  lemma {:induction false} AccessIsAccepted(scope: Scope, x: string)
    requires IsFreeName(x) && x in scope.vars
    ensures Accepts(scope, Consumer(x).argv[0])
  {
    ConsumerNeeds(x);
    assert Resolves(scope, VarRef(VARS, Key(x)));
  }

  lemma {:induction false} ConsumerTokenIsAccepted(params: set<string>, x: string)
    requires IsFreeName(x)
    ensures AcceptsArgv(Scope(params, ProducedBefore([Producer(x)], 2), false), Consumer(x).argv)
  {
    var scope := Scope(params, ProducedBefore([Producer(x)], 2), false);
    assert x in scope.vars by {
      VarsOfPair(x);
      assert Producer(x) in [Producer(x)];
    }
    AccessIsAccepted(scope, x);
  }

  /** Two accepted creates put the pair into one procedure. */
  lemma {:induction false} PairIsReached(rules: Rules, x: string) returns (run: seq<Table>, saves: seq<Save>)
    requires IsFreeName(x) && LetsPlainThrough(rules)
    ensures IsRun(rules, run, saves) && |saves| == 2 && run[2] == Both(x) && Sound(Both(x), 1)
  {
    var one := map[10 := Producer(x)];
    run, saves := [map[], one, Both(x)], [Save(10, Producer(x), []), Save(20, Consumer(x), [Producer(x)])];
    assert IsPlain(Producer(x)) && IsPlain(Consumer(x));
    assert map[][10 := Producer(x)] == one;
    ProducerIsAccepted(rules, map[], x, Producer(x));
    ConsumerIsAccepted(rules, x);
    RunKeepsSound(rules, run, saves, 2, 1);
  }

  /**
   Without that condition the chain breaks: whatever the variable is called, after two accepted creates an
   accepted edit moves the producer to another procedure and leaves its consumer behind.
   */
  lemma {:induction false} MovingAProducerBreaksTheChain(rules: Rules, x: string)
    returns (run: seq<Table>, saves: seq<Save>, moved: Table)
    requires IsFreeName(x) && LetsPlainThrough(rules)
    ensures IsRun(rules, run, saves) && |saves| == 2
    ensures Sound(run[2], 1) && Saves(rules, run[2], moved, 10, Away(x), []) && !Closed(moved, 1)
  {
    run, saves := PairIsReached(rules, x);
    var both := Both(x);
    assert IsPlain(Away(x));
    assert AreSiblings(both, 2, 10, []);
    ProducerIsAccepted(rules, both, x, Away(x));
    ConsumerNeeds(x);
    VarsOfPair(x);
    moved := both[10 := Away(x)];
    assert NeedsVar(both[20], Var(both[10]));
    MoveOrphans(both, 10, Away(x));
  }

  lemma {:induction false} PairInOrder(x: string)
    ensures InOrder(Both(x), 1, [10, 20]) && Occurs(Consumer(x), Access(x))
  {
    var keys := [10, 20];
    assert 10 in keys && 20 in keys;
    assert Both(x)[keys[0]] == Producer(x) && Both(x)[keys[1]] == Consumer(x);
    var r := Consumer(x);
    assert r.argv[0][0].Output? && Access(x) in Nodes(r.argv[0][0].expr);
  }

  /**
   For every name that a variable may have, two accepted creates reach a procedure whose second command
   reads `vars.x`. It gets the output of the first command exactly when dictionaries have no method `x`.
   */
  lemma {:induction false} AttributeReadsExactly(rules: Rules, mach: Machine, base: Context, x: string)
    returns (run: seq<Table>, saves: seq<Save>)
    requires IsFreeName(x) && LetsPlainThrough(rules)
    ensures IsRun(rules, run, saves) && |saves| == 2 && run[2] == Both(x) && InOrder(run[2], 1, [10, 20])
    ensures Var(run[2][10]) == x && Occurs(run[2][20], Access(x))
    ensures var value := Eval(mach.meaning, ContextAt(mach, base, run[2], [10, 20], 1), Access(x));
            var captured := mach.output(run[2][10], ContextAt(mach, base, run[2], [10, 20], 0));
            && value == Shadowed(mach.meaning, Access(x), captured)
            && (captured.Builtin? || (value == captured <==> !mach.meaning.hasMethod(DictShape, x)))
  {
    run, saves := PairIsReached(rules, x);
    PairInOrder(x);
    VarsOfPair(x);
    CapturedIsLookedUp(mach, base, Both(x), 1, [10, 20], 0, 1);
  }

  /** One such name: the checks accept `items`, and `vars.items` gives the method of the dictionary. */
  lemma {:induction false} ItemsReadsTheMethod(rules: Rules, mach: Machine, base: Context)
    returns (run: seq<Table>, saves: seq<Save>)
    requires LetsPlainThrough(rules) && mach.meaning.hasMethod(DictShape, "items")
    ensures IsRun(rules, run, saves) && |saves| == 2 && InOrder(run[2], 1, [10, 20])
    ensures Var(run[2][10]) == "items" && Occurs(run[2][20], Access("items"))
    ensures Eval(mach.meaning, ContextAt(mach, base, run[2], [10, 20], 1), Access("items"))
            == Builtin(DictShape, "items")
  {
    assert |"items"| == 5;
    run, saves := AttributeReadsExactly(rules, mach, base, "items");
  }
}
