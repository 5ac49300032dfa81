/**
 Jinja tokens of command arguments: the syntax tree, what a token renders to, and the static checks
 that accept it. Filters, tests and operators are left open.
 */
module Templating {

  // ----- Values, contexts and expressions -----

  datatype Value =
    | Undefined
    | Text(s: string)
    | Number(n: int)
    | List(items: seq<Value>)
    | Dict(fields: map<string, Value>)
    | Builtin(shape: Shape, name: string)

  /** The type of a value; its methods shadow keys under attribute access. */
  datatype Shape = NoShape | TextShape | NumberShape | ListShape | DictShape | BuiltinShape

  /** What a node with operands does to them: the callee or the subject is the first operand. */
  datatype Kind = Call | Filter(name: string) | Test(name: string) | Operator(op: string)

  datatype Expr =
    | ConstStr(s: string)
    | ConstInt(n: int)
    | Name(name: string)
    | Getattr(node: Expr, attr: string)
    | Getitem(node: Expr, arg: Expr)
    | Compound(kind: Kind, operands: seq<Expr>)

  /** A parsed token: literal text between expressions. */
  datatype Part = Literal(text: string) | Output(expr: Expr)

  type Token = seq<Part>

  /** The meaning of calls, filters, tests and operators, how a value renders, and the methods of each type. */
  datatype Meaning = Meaning(
    apply: (Kind, seq<Value>) -> Value,
    render: Value -> string,
    hasMethod: (Shape, string) -> bool)

  /** The value of each name in the render context. */
  type Context = map<string, Value>

  function Lookup(v: Value, key: string): Value {
    if v.Dict? && key in v.fields then v.fields[key] else Undefined
  }

  function ShapeOf(v: Value): Shape {
    match v
    case Undefined => NoShape
    case Text(_) => TextShape
    case Number(_) => NumberShape
    case List(_) => ListShape
    case Dict(_) => DictShape
    case Builtin(_, _) => BuiltinShape
  }

  /** A method of the value, not yet called. */
  function Method(m: Meaning, v: Value, name: string): Value {
    if m.hasMethod(ShapeOf(v), name) then Builtin(ShapeOf(v), name) else Undefined
  }

  /** Attribute access: a method shadows a key. */
  function Attribute(m: Meaning, v: Value, name: string): Value {
    if m.hasMethod(ShapeOf(v), name) then Method(m, v, name) else Lookup(v, name)
  }

  /** Subscript access: a key shadows a method. */
  function Index(m: Meaning, v: Value, key: Value): Value {
    match key
    case Text(s) => if Lookup(v, s) != Undefined then Lookup(v, s) else Method(m, v, s)
    case Number(n) => if v.List? && 0 <= n < |v.items| then v.items[n] else Undefined
    case _ => Undefined
  }

  function Eval(m: Meaning, c: Context, e: Expr): Value
    decreases e, 1
  {
    match e
    case ConstStr(s) => Text(s)
    case ConstInt(n) => Number(n)
    case Name(name) => if name in c then c[name] else Undefined
    case Getattr(node, attr) => Attribute(m, Eval(m, c, node), attr)
    case Getitem(node, arg) => Index(m, Eval(m, c, node), Eval(m, c, arg))
    case Compound(kind, operands) => m.apply(kind, EvalAll(m, c, operands))
  }

  function EvalAll(m: Meaning, c: Context, es: seq<Expr>): seq<Value>
    decreases es, 0
  {
    if es == [] then [] else [Eval(m, c, es[0])] + EvalAll(m, c, es[1..])
  }

  function Render(m: Meaning, c: Context, token: Token): string {
    if token == [] then ""
    else
      (match token[0] case Literal(text) => text case Output(e) => m.render(Eval(m, c, e)))
      + Render(m, c, token[1..])
  }

  // ----- The static checks -----

  const ITEM := "item"
  const PARAMS := "params"
  const VARS := "vars"
  const RUNTIME := "runtime"
  const TARGET := "target"
  const ROOTS := {PARAMS, TARGET, VARS, RUNTIME, ITEM}
  const RUNTIME_KEYS := {
    "rpc_ssh_host", "rpc_ssh_port", "rpc_ssh_credential_pk", "rpc_ssh_known_hosts_entry",
    "rpc_ssh_strict_host_key_checking"}
  const ALLOWED_FILTERS := {
    "int", "float", "string", "default", "upper", "lower", "trim", "capitalize", "title", "replace", "truncate",
    "length", "abs", "round", "join"}

  predicate IsSafeChar(ch: char) {
    'A' <= ch <= 'Z' || 'a' <= ch <= 'z' || '0' <= ch <= '9' || ch in "_@%+=:,./-"
  }

  predicate IsSafe(text: string) { forall i | 0 <= i < |text| :: IsSafeChar(text[i]) }

  predicate IsPrivate(attr: string) { attr != "" && attr[0] == '_' }

  /** One first-level reference; `attr` is empty-optional for a whole root. */
  datatype Attr = Whole | Key(name: string)
  datatype VarRef = VarRef(root: string, attr: Attr)

  datatype Error = NotAToken | HasCall | BadFilter | UnsafeText | PrivateAccess

  /** `TokenAnalysis`: the structural errors and the references of a token. */
  datatype Analysis = Analysis(errors: seq<Error>, refs: seq<VarRef>) {
    function Plus(that: Analysis): Analysis { Analysis(errors + that.errors, refs + that.refs) }
  }

  const CLEAN := Analysis([], [])

  function Report(bad: bool, e: Error): Analysis { if bad then Analysis([e], []) else CLEAN }

  /** `_const_str`, as the attribute of a reference. */
  function ConstKey(e: Expr): Attr { if e.ConstStr? then Key(e.s) else Whole }

  function AccessErrors(attr: Attr): Analysis { Report(attr.Key? && IsPrivate(attr.name), PrivateAccess) }

  function KindErrors(kind: Kind): Analysis {
    match kind
    case Call => Report(true, HasCall)
    case Filter(name) => Report(name !in ALLOWED_FILTERS, BadFilter)
    case _ => CLEAN
  }

  /** The walk of `analyze_token` over one expression; a name under an access is referenced with its key. */
  function Analyze(e: Expr): Analysis
    decreases e, 1
  {
    match e
    case ConstStr(s) => Report(!IsSafe(s), UnsafeText)
    case ConstInt(_) => CLEAN
    case Name(name) => Analysis([], [VarRef(name, Whole)])
    case Getattr(node, attr) =>
      AccessErrors(Key(attr)).Plus(if node.Name? then Analysis([], [VarRef(node.name, Key(attr))]) else Analyze(node))
    case Getitem(node, arg) =>
      AccessErrors(ConstKey(arg))
        .Plus(if node.Name? then Analysis([], [VarRef(node.name, ConstKey(arg))]) else Analyze(node))
        .Plus(Analyze(arg))
    case Compound(kind, operands) => KindErrors(kind).Plus(AnalyzeAll(operands))
  }

  function AnalyzeAll(es: seq<Expr>): Analysis
    decreases es, 0
  {
    if es == [] then CLEAN else Analyze(es[0]).Plus(AnalyzeAll(es[1..]))
  }

  function AnalyzeParts(token: Token): Analysis {
    if token == [] then CLEAN
    else
      (match token[0] case Literal(text) => Report(!IsSafe(text), UnsafeText) case Output(e) => Analyze(e))
        .Plus(AnalyzeParts(token[1..]))
  }

  /** `analyze_token`; an empty token is no token. */
  function AnalyzeToken(token: Token): Analysis {
    if token == [] then Report(true, NotAToken) else AnalyzeParts(token)
  }

  /** What a command may refer to. */
  datatype Scope = Scope(params: set<string>, vars: set<string>, forEach: bool)

  /** `_validate_ref`: the reference resolves. */
  predicate Resolves(scope: Scope, ref: VarRef) {
    if ref.root !in ROOTS then false
    else if ref.root == ITEM then scope.forEach
    else
      && ref.attr.Key?
      && (ref.root == PARAMS ==> ref.attr.name in scope.params)
      && (ref.root == VARS ==> ref.attr.name in scope.vars)
      && (ref.root == RUNTIME ==> ref.attr.name in RUNTIME_KEYS)
  }

  /** `validate_jinja_argv` for one token: no structural error, and every reference resolves. */
  predicate Accepts(scope: Scope, token: Token) {
    var a := AnalyzeToken(token);
    a.errors == [] && forall i | 0 <= i < |a.refs| :: Resolves(scope, a.refs[i])
  }

  /** `validate_jinja_argv`. */
  predicate AcceptsArgv(scope: Scope, argv: seq<Token>) {
    argv != [] && forall i | 0 <= i < |argv| :: Accepts(scope, argv[i])
  }

  // ----- The walk of the source: flat passes over all nodes -----

  /** All nodes of an expression, parents first. */
  function Nodes(e: Expr): (r: seq<Expr>)
    ensures r != [] && r[0] == e
    decreases e, 1
  {
    match e
    case ConstStr(_) => [e]
    case ConstInt(_) => [e]
    case Name(_) => [e]
    case Getattr(node, _) => [e] + Nodes(node)
    case Getitem(node, arg) => [e] + Nodes(node) + Nodes(arg)
    case Compound(_, operands) => [e] + NodesAll(operands)
  }

  function NodesAll(es: seq<Expr>): seq<Expr>
    decreases es, 0
  {
    if es == [] then [] else Nodes(es[0]) + NodesAll(es[1..])
  }

  predicate IsAccess(e: Expr) { e.Getattr? || e.Getitem? }

  function AccessKey(e: Expr): Attr
    requires IsAccess(e)
  {
    if e.Getattr? then Key(e.attr) else ConstKey(e.arg)
  }

  /** A call, a filter off the list, an unsafe string literal, or a private key. */
  predicate IsForbidden(e: Expr) {
    || (e.Compound? && (e.kind.Call? || (e.kind.Filter? && e.kind.name !in ALLOWED_FILTERS)))
    || (e.ConstStr? && !IsSafe(e.s))
    || (IsAccess(e) && AccessKey(e).Key? && IsPrivate(AccessKey(e).name))
  }

  predicate NoneForbidden(nodes: seq<Expr>) { forall n | n in nodes :: !IsForbidden(n) }

  lemma {:induction false} NoneForbiddenConcat(a: seq<Expr>, b: seq<Expr>)
    ensures NoneForbidden(a + b) <==> NoneForbidden(a) && NoneForbidden(b)
  {
    assert forall n | n in a :: n in a + b;
    assert forall n | n in b :: n in a + b;
  }

  /** The analysis of an expression is free of errors exactly when no node, at any depth, is forbidden. */
  lemma {:induction false} ErrorsExactly(e: Expr)
    ensures Analyze(e).errors == [] <==> NoneForbidden(Nodes(e))
    decreases e, 1
  {
    assert NoneForbidden([e]) <==> !IsForbidden(e) by { assert e in [e]; }
    match e
    case ConstStr(_) =>
    case ConstInt(_) =>
    case Name(_) =>
    case Getattr(node, _) =>
      ErrorsExactly(node);
      NoneForbiddenConcat([e], Nodes(node));
    case Getitem(node, arg) =>
      ErrorsExactly(node);
      ErrorsExactly(arg);
      NoneForbiddenConcat([e], Nodes(node));
      NoneForbiddenConcat([e] + Nodes(node), Nodes(arg));
    case Compound(_, operands) =>
      ErrorsExactlyAll(operands);
      NoneForbiddenConcat([e], NodesAll(operands));
  }

  lemma {:induction false} ErrorsExactlyAll(es: seq<Expr>)
    ensures AnalyzeAll(es).errors == [] <==> NoneForbidden(NodesAll(es))
    decreases es, 0
  {
    if es != [] {
      ErrorsExactly(es[0]);
      ErrorsExactlyAll(es[1..]);
      NoneForbiddenConcat(Nodes(es[0]), NodesAll(es[1..]));
    }
  }

  /** The references of a node list; a name directly after an access is that access's own node. */
  ghost function RefsOf(nodes: seq<Expr>, afterAccess: bool): seq<VarRef> {
    if nodes == [] then [] else HeadRefs(nodes[0], afterAccess) + RefsOf(nodes[1..], IsAccess(nodes[0]))
  }

  /** The reference that one node of the list makes, if any. */
  ghost function HeadRefs(n: Expr, afterAccess: bool): seq<VarRef> {
    if IsAccess(n) && n.node.Name? then [VarRef(n.node.name, AccessKey(n))]
    else if n.Name? && !afterAccess then [VarRef(n.name, Whole)]
    else []
  }

  ghost predicate EndsInAccess(nodes: seq<Expr>, before: bool) {
    if nodes == [] then before else IsAccess(nodes[|nodes| - 1])
  }

  lemma {:induction false} RefsConcat(a: seq<Expr>, b: seq<Expr>, before: bool)
    ensures RefsOf(a + b, before) == RefsOf(a, before) + RefsOf(b, EndsInAccess(a, before))
  {
    if a == [] {
      assert a + b == b;
    } else {
      assert (a + b)[1..] == a[1..] + b;
      RefsConcat(a[1..], b, IsAccess(a[0]));
    }
  }

  lemma {:induction false} NodesEnd(e: Expr)
    ensures !IsAccess(Nodes(e)[|Nodes(e)| - 1])
    decreases e, 1
  {
    match e
    case ConstStr(_) =>
    case ConstInt(_) =>
    case Name(_) =>
    case Getattr(node, _) => NodesEnd(node);
    case Getitem(_, arg) => NodesEnd(arg);
    case Compound(_, operands) => NodesEndAll(operands);
  }

  lemma {:induction false} NodesEndAll(es: seq<Expr>)
    ensures NodesAll(es) != [] ==> !IsAccess(NodesAll(es)[|NodesAll(es)| - 1])
    decreases es, 0
  {
    if es != [] {
      NodesEnd(es[0]);
      NodesEndAll(es[1..]);
    }
  }

  lemma {:induction false} RefsCons(e: Expr, rest: seq<Expr>, before: bool)
    ensures RefsOf([e] + rest, before) == HeadRefs(e, before) + RefsOf(rest, IsAccess(e))
  {
    assert ([e] + rest)[1..] == rest;
  }

  /** The references of the analysis, case by case. */
  lemma {:induction false} AnalyzeRefs(e: Expr)
    ensures e.ConstStr? || e.ConstInt? ==> Analyze(e).refs == []
    ensures e.Getattr? ==>
              Analyze(e).refs == if e.node.Name? then [VarRef(e.node.name, Key(e.attr))] else Analyze(e.node).refs
    ensures e.Getitem? ==>
              Analyze(e).refs ==
              (if e.node.Name? then [VarRef(e.node.name, ConstKey(e.arg))] else Analyze(e.node).refs)
              + Analyze(e.arg).refs
    ensures e.Compound? ==> Analyze(e).refs == AnalyzeAll(e.operands).refs
  {
  }

  /** The flat walk finds exactly the references of the analysis, in the same order. */
  lemma {:induction false} WalkFindsRefs(e: Expr, before: bool)
    ensures RefsOf(Nodes(e), before) == if e.Name? && before then [] else Analyze(e).refs
    decreases e, 1
  {
    AnalyzeRefs(e);
    if e.Getattr? {
      WalkFindsRefs(e.node, true);
      RefsCons(e, Nodes(e.node), before);
    } else if e.Getitem? {
      WalkFindsRefs(e.node, true);
      WalkFindsRefs(e.arg, false);
      ItemNodes(e, before);
    } else if e.Compound? {
      WalkFindsRefsAll(e.operands);
      RefsCons(e, NodesAll(e.operands), before);
    } else {
      assert Nodes(e) == [e] + [];
      RefsCons(e, [], before);
    }
  }

  lemma {:induction false} ItemNodes(e: Expr, before: bool)
    requires e.Getitem?
    ensures RefsOf(Nodes(e), before) ==
            (if e.node.Name? then [VarRef(e.node.name, AccessKey(e))] else [])
            + RefsOf(Nodes(e.node), true) + RefsOf(Nodes(e.arg), false)
  {
    var rest := Nodes(e.node) + Nodes(e.arg);
    NodesEnd(e.node);
    RefsConcat(Nodes(e.node), Nodes(e.arg), true);
    assert Nodes(e) == [e] + rest;
    RefsCons(e, rest, before);
  }

  lemma {:induction false} WalkFindsRefsAll(es: seq<Expr>)
    ensures RefsOf(NodesAll(es), false) == AnalyzeAll(es).refs
    decreases es, 0
  {
    if es != [] {
      WalkFindsRefs(es[0], false);
      WalkFindsRefsAll(es[1..]);
      NodesEnd(es[0]);
      RefsConcat(Nodes(es[0]), NodesAll(es[1..]), false);
    }
  }

  /** Node `i` of the list gives reference `r`. */
  ghost predicate Yields(nodes: seq<Expr>, before: bool, i: int, r: VarRef) {
    && 0 <= i < |nodes|
    && if IsAccess(nodes[i]) && nodes[i].node.Name? then r == VarRef(nodes[i].node.name, AccessKey(nodes[i]))
       else nodes[i].Name? && !(if i == 0 then before else IsAccess(nodes[i - 1])) && r == VarRef(nodes[i].name, Whole)
  }

  lemma {:induction false} RefsMembers(nodes: seq<Expr>, before: bool, r: VarRef)
    ensures r in RefsOf(nodes, before) <==> exists i :: Yields(nodes, before, i, r)
  {
    if nodes != [] {
      var tail, after := nodes[1..], IsAccess(nodes[0]);
      RefsMembers(tail, after, r);
      if exists i :: Yields(nodes, before, i, r) {
        var i :| Yields(nodes, before, i, r);
        if i > 0 { assert Yields(tail, after, i - 1, r); }
      }
      if exists i :: Yields(tail, after, i, r) {
        var i :| Yields(tail, after, i, r);
        assert Yields(nodes, before, i + 1, r);
      }
      assert Yields(nodes, before, 0, r) <==> r in HeadRefs(nodes[0], before);
    }
  }

  /** An access is directly followed by its own node. */
  ghost predicate Linked(nodes: seq<Expr>) {
    forall i | 0 <= i < |nodes| && IsAccess(nodes[i]) :: i + 1 < |nodes| && nodes[i + 1] == nodes[i].node
  }

  lemma {:induction false} LinkedConcat(a: seq<Expr>, b: seq<Expr>)
    requires Linked(a) && Linked(b)
    ensures Linked(a + b)
  {
  }

  lemma {:induction false} NodesLinked(e: Expr)
    ensures Linked(Nodes(e))
    decreases e, 1
  {
    if e.Getattr? {
      NodesLinked(e.node);
    } else if e.Getitem? {
      NodesLinked(e.node);
      NodesLinked(e.arg);
      LinkedConcat(Nodes(e.node), Nodes(e.arg));
      assert Nodes(e) == [e] + (Nodes(e.node) + Nodes(e.arg));
    } else if e.Compound? {
      NodesLinkedAll(e.operands);
    }
  }

  lemma {:induction false} NodesLinkedAll(es: seq<Expr>)
    ensures Linked(NodesAll(es))
    decreases es, 0
  {
    if es != [] {
      NodesLinked(es[0]);
      NodesLinkedAll(es[1..]);
      LinkedConcat(Nodes(es[0]), NodesAll(es[1..]));
    }
  }

  /** `analyze_token`, its reference passes: accesses first, then the names that no access claimed. */
  method WalkRefs(e: Expr) returns (refs: seq<VarRef>)
    ensures forall r :: r in refs <==> r in Analyze(e).refs
  {
    var nodes := Nodes(e);
    NodesLinked(e);
    refs := [];
    var claimed: set<int> := {};
    for i := 0 to |nodes|
      invariant forall k :: k in claimed <==> 1 <= k <= i && IsAccess(nodes[k - 1]) && nodes[k - 1].node.Name?
      invariant forall r :: r in refs <==>
                  exists k :: 0 <= k < i && IsAccess(nodes[k]) && Yields(nodes, false, k, r) && nodes[k].node.Name?
    {
      if IsAccess(nodes[i]) && nodes[i].node.Name? {
        claimed := claimed + {i + 1};
        refs := refs + [VarRef(nodes[i].node.name, AccessKey(nodes[i]))];
      }
    }
    ghost var first := refs;
    for i := 0 to |nodes|
      invariant forall r :: r in refs <==>
                  r in first || exists k :: 0 <= k < i && nodes[k].Name? && Yields(nodes, false, k, r)
    {
      if nodes[i].Name? && i !in claimed {
        refs := refs + [VarRef(nodes[i].name, Whole)];
      }
    }
    WalkFindsRefs(e, false);
    forall r ensures r in refs <==> r in Analyze(e).refs {
      RefsMembers(nodes, false, r);
    }
  }

  // ----- Exactly what is accepted -----

  /** A command may read this: a declared parameter or variable, a runtime value, the target's fields, or the item. */
  predicate MayRead(scope: Scope, root: string, attr: Attr) {
    || (root == PARAMS && attr.Key? && attr.name in scope.params)
    || (root == VARS && attr.Key? && attr.name in scope.vars)
    || (root == RUNTIME && attr.Key? && attr.name in RUNTIME_KEYS)
    || (root == TARGET && attr.Key?)
    || (root == ITEM && scope.forEach)
  }

  /** A safe literal, or an expression without a forbidden node that reads only what it may. */
  ghost predicate IsAcceptable(scope: Scope, part: Part) {
    match part
    case Literal(text) => IsSafe(text)
    case Output(e) =>
      NoneForbidden(Nodes(e)) && forall i, r | Yields(Nodes(e), false, i, r) :: MayRead(scope, r.root, r.attr)
  }

  lemma {:induction false} ResolvesExactly(scope: Scope, ref: VarRef)
    ensures Resolves(scope, ref) <==> MayRead(scope, ref.root, ref.attr)
  {
    assert PARAMS[0] == 'p' && VARS[0] == 'v' && RUNTIME[0] == 'r' && TARGET[0] == 't' && ITEM[0] == 'i';
  }

  lemma {:induction false} RefsResolveExactly(scope: Scope, e: Expr)
    ensures AllResolve(scope, Analyze(e).refs) <==>
            forall i, r | Yields(Nodes(e), false, i, r) :: MayRead(scope, r.root, r.attr)
  {
    var refs := Analyze(e).refs;
    WalkFindsRefs(e, false);
    forall i, r | Yields(Nodes(e), false, i, r) ensures r in refs { RefsMembers(Nodes(e), false, r); }
    forall k | 0 <= k < |refs| ensures exists i :: Yields(Nodes(e), false, i, refs[k]) {
      RefsMembers(Nodes(e), false, refs[k]);
    }
    forall r ensures Resolves(scope, r) <==> MayRead(scope, r.root, r.attr) { ResolvesExactly(scope, r); }
  }

  ghost predicate PartAccepted(scope: Scope, part: Part) {
    match part
    case Literal(text) => IsSafe(text)
    case Output(e) => Analyze(e).errors == [] && AllResolve(scope, Analyze(e).refs)
  }

  lemma {:induction false} PartsAccepted(scope: Scope, token: Token)
    ensures AnalyzeParts(token).errors == [] && AllResolve(scope, AnalyzeParts(token).refs) <==>
            forall i | 0 <= i < |token| :: PartAccepted(scope, token[i])
  {
    if token != [] {
      var head := match token[0] case Literal(text) => Report(!IsSafe(text), UnsafeText) case Output(e) => Analyze(e);
      PartsAccepted(scope, token[1..]);
      AllResolveConcat(scope, head.refs, AnalyzeParts(token[1..]).refs);
      assert AnalyzeParts(token) == head.Plus(AnalyzeParts(token[1..]));
      assert (forall i | 0 <= i < |token| :: PartAccepted(scope, token[i])) <==>
             PartAccepted(scope, token[0]) && forall i | 0 <= i < |token[1..]| :: PartAccepted(scope, token[1..][i]);
    }
  }

  /** A token is accepted exactly when it is not empty and each of its parts is acceptable. */
  lemma {:induction false} AcceptsExactly(scope: Scope, token: Token)
    ensures Accepts(scope, token) <==> token != [] && forall i | 0 <= i < |token| :: IsAcceptable(scope, token[i])
  {
    PartsAccepted(scope, token);
    forall i | 0 <= i < |token| ensures PartAccepted(scope, token[i]) <==> IsAcceptable(scope, token[i]) {
      if token[i].Output? {
        ErrorsExactly(token[i].expr);
        RefsResolveExactly(scope, token[i].expr);
      }
    }
  }

  // ----- What acceptance means -----

  function Root(c: Context, name: string): Value { if name in c then c[name] else Undefined }

  ghost predicate AgreeOn(a: Value, b: Value, keys: set<string>) {
    ShapeOf(a) == ShapeOf(b) && forall k | k in keys :: Lookup(a, k) == Lookup(b, k)
  }

  /** The contexts agree on everything that the scope lets a token see. */
  ghost predicate Agree(scope: Scope, c: Context, d: Context) {
    && AgreeOn(Root(c, PARAMS), Root(d, PARAMS), scope.params)
    && AgreeOn(Root(c, VARS), Root(d, VARS), scope.vars)
    && AgreeOn(Root(c, RUNTIME), Root(d, RUNTIME), RUNTIME_KEYS)
    && Root(c, TARGET) == Root(d, TARGET)
    && (scope.forEach ==> Root(c, ITEM) == Root(d, ITEM))
  }

  ghost predicate AllResolve(scope: Scope, refs: seq<VarRef>) {
    forall i | 0 <= i < |refs| :: Resolves(scope, refs[i])
  }

  lemma {:induction false} AllResolveConcat(scope: Scope, a: seq<VarRef>, b: seq<VarRef>)
    ensures AllResolve(scope, a + b) <==> AllResolve(scope, a) && AllResolve(scope, b)
  {
    assert forall i | 0 <= i < |a| :: (a + b)[i] == a[i];
    assert forall i | 0 <= i < |b| :: (a + b)[|a| + i] == b[i];
  }

  /** A resolved reference reads the same in both contexts. */
  lemma {:induction false} ResolvedKeyAgrees(scope: Scope, c: Context, d: Context, root: string, attr: Attr)
    requires Agree(scope, c, d) && Resolves(scope, VarRef(root, attr))
    ensures attr == Whole ==> Root(c, root) == Root(d, root)
    ensures attr.Key? ==> Lookup(Root(c, root), attr.name) == Lookup(Root(d, root), attr.name)
    ensures ShapeOf(Root(c, root)) == ShapeOf(Root(d, root))
  {
  }

  lemma {:induction false} EvalAgrees(m: Meaning, scope: Scope, c: Context, d: Context, e: Expr)
    requires Agree(scope, c, d) && AllResolve(scope, Analyze(e).refs)
    ensures Eval(m, c, e) == Eval(m, d, e)
    decreases e, 1
  {
    AnalyzeRefs(e);
    if e.Name? {
      assert Analyze(e).refs[0] == VarRef(e.name, Whole);
      ResolvedKeyAgrees(scope, c, d, e.name, Whole);
    } else if e.Getattr? {
      if e.node.Name? {
        assert Analyze(e).refs[0] == VarRef(e.node.name, Key(e.attr));
        ResolvedKeyAgrees(scope, c, d, e.node.name, Key(e.attr));
      } else {
        EvalAgrees(m, scope, c, d, e.node);
      }
    } else if e.Getitem? {
      var head := if e.node.Name? then [VarRef(e.node.name, ConstKey(e.arg))] else Analyze(e.node).refs;
      AllResolveConcat(scope, head, Analyze(e.arg).refs);
      EvalAgrees(m, scope, c, d, e.arg);
      if e.node.Name? {
        assert head[0] == VarRef(e.node.name, ConstKey(e.arg));
        ItemAgrees(m, scope, c, d, e);
      } else {
        EvalAgrees(m, scope, c, d, e.node);
      }
    } else if e.Compound? {
      EvalAllAgrees(m, scope, c, d, e.operands);
    }
  }

  lemma {:induction false} ItemAgrees(m: Meaning, scope: Scope, c: Context, d: Context, e: Expr)
    requires Agree(scope, c, d) && e.Getitem? && e.node.Name? && Resolves(scope, VarRef(e.node.name, ConstKey(e.arg)))
    requires Eval(m, c, e.arg) == Eval(m, d, e.arg)
    ensures Eval(m, c, e) == Eval(m, d, e)
  {
    ResolvedKeyAgrees(scope, c, d, e.node.name, ConstKey(e.arg));
  }

  lemma {:induction false} EvalAllAgrees(m: Meaning, scope: Scope, c: Context, d: Context, es: seq<Expr>)
    requires Agree(scope, c, d) && AllResolve(scope, AnalyzeAll(es).refs)
    ensures EvalAll(m, c, es) == EvalAll(m, d, es)
    decreases es, 0
  {
    if es != [] {
      AllResolveConcat(scope, Analyze(es[0]).refs, AnalyzeAll(es[1..]).refs);
      EvalAgrees(m, scope, c, d, es[0]);
      EvalAllAgrees(m, scope, c, d, es[1..]);
    }
  }

  lemma {:induction false} PartsAgree(m: Meaning, scope: Scope, c: Context, d: Context, token: Token)
    requires Agree(scope, c, d) && AllResolve(scope, AnalyzeParts(token).refs)
    ensures Render(m, c, token) == Render(m, d, token)
  {
    if token != [] {
      var head := if token[0].Output? then Analyze(token[0].expr).refs else [];
      assert AnalyzeParts(token).refs == head + AnalyzeParts(token[1..]).refs;
      AllResolveConcat(scope, head, AnalyzeParts(token[1..]).refs);
      if token[0].Output? { EvalAgrees(m, scope, c, d, token[0].expr); }
      PartsAgree(m, scope, c, d, token[1..]);
    }
  }

  /** Non-interference: an accepted token renders alike in all contexts that agree on what it may see. */
  lemma {:induction false} AcceptedIsNonInterfering(m: Meaning, scope: Scope, c: Context, d: Context, token: Token)
    requires Accepts(scope, token) && Agree(scope, c, d)
    ensures Render(m, c, token) == Render(m, d, token)
  {
    PartsAgree(m, scope, c, d, token);
  }

  /** An accepted token holds no call, no filter off the list, no private key and no unsafe text, at any depth. */
  lemma {:induction false} AcceptedIsTame(scope: Scope, token: Token, i: nat)
    requires Accepts(scope, token) && i < |token|
    ensures if token[i].Literal? then IsSafe(token[i].text) else NoneForbidden(Nodes(token[i].expr))
  {
    PartErrors(token, i);
    if token[i].Output? { ErrorsExactly(token[i].expr); }
  }

  lemma {:induction false} PartErrors(token: Token, i: nat)
    requires AnalyzeParts(token).errors == [] && i < |token|
    ensures if token[i].Literal? then IsSafe(token[i].text) else Analyze(token[i].expr).errors == []
  {
    if i > 0 {
      PartErrors(token[1..], i - 1);
    }
  }
}
