/**
 The expressions of the FinSH shell, what they mean, and the child/sibling tree
 in which the parser hands them to the compiler.
 */
module FinshTree {
  import opened Options
  import opened FinshWords

  /** What an identifier resolves to: a shell variable, a system variable or a system call. */
  datatype Symbol =
    | Variable(address: Word)
    | SystemVariable(address: Word)
    | SystemCall(entry: Word)

  datatype Expr =
    | Const(value: Word)
    | Id(symbol: Symbol)
    | Binary(op: Operator, left: Expr, right: Expr)
    | Not(arg: Expr)
    | Assign(target: Expr, source: Expr)
    | PreInc(arg: Expr)
    | PreDec(arg: Expr)
    | PostInc(arg: Expr)
    | PostDec(arg: Expr)
    | Deref(arg: Expr)
    | AddressOf(arg: Expr)
    | Call(callee: Expr, args: seq<Expr>)

  // ----- direct evaluation -----

  /** A system call takes its address, its arguments and the memory. */
  type Syscalls = (Word, seq<Word>, Memory) -> Option<(Word, Memory)>

  type Outcome = Option<(Word, Memory)>

  function StoreResult(m: Memory, a: Word, v: Word, result: Word): (r: Outcome) {
    match Store(m, a, v)
    case None => None
    case Some(m') => Some((result, m'))
  }

  /** The value of an expression and the memory it leaves. */
  function Eval(sys: Syscalls, e: Expr, m: Memory): (r: Outcome)
    decreases e, 1
  {
    match e
    case Const(v) => Some((v, m))
    case Id(SystemCall(entry)) => Some((entry, m))
    case Id(symbol) =>
      var v :- Load(m, symbol.address);
      Some((v, m))
    case Binary(op, left, right) =>
      var (a, m1) :- Eval(sys, left, m);
      var (b, m2) :- Eval(sys, right, m1);
      var v :- Apply(op, a, b);
      Some((v, m2))
    case Not(arg) =>
      var (a, m1) :- Eval(sys, arg, m);
      Some((Complement(a), m1))
    case Assign(target, source) =>
      var (a, m1) :- Locate(sys, target, m);
      var (v, m2) :- Eval(sys, source, m1);
      StoreResult(m2, a, v, v)
    case PreInc(arg) => Bump(sys, arg, Add, m, true)
    case PreDec(arg) => Bump(sys, arg, Sub, m, true)
    case PostInc(arg) => Bump(sys, arg, Add, m, false)
    case PostDec(arg) => Bump(sys, arg, Sub, m, false)
    case Deref(arg) =>
      var (a, m1) :- Eval(sys, arg, m);
      var v :- Load(m1, a);
      Some((v, m1))
    case AddressOf(arg) => Locate(sys, arg, m)
    case Call(callee, args) =>
      var (entry, m1) :- Eval(sys, callee, m);
      var (values, m2) :- EvalList(sys, args, m1);
      sys(entry, values, m2)
  }

  /** The address an assignable expression stands for. */
  function Locate(sys: Syscalls, e: Expr, m: Memory): (r: Outcome)
    decreases e, 0
  {
    match e
    case Id(SystemCall(_)) => None
    case Id(symbol) => Some((symbol.address, m))
    case Deref(arg) => Eval(sys, arg, m)
    case _ => None
  }

  /** ++ and --: the new value of the variable, or the one it had before. */
  function Bump(sys: Syscalls, e: Expr, op: Operator, m: Memory, updated: bool): (r: Outcome)
    decreases e, 1
  {
    var (a, m1) :- Locate(sys, e, m);
    var before :- Load(m1, a);
    var after :- Apply(op, before, 1);
    StoreResult(m1, a, after, if updated then after else before)
  }

  function EvalList(sys: Syscalls, es: seq<Expr>, m: Memory): (r: Option<(seq<Word>, Memory)>)
    ensures r.Some? ==> |r.value.0| == |es|
    decreases es, 0
  {
    if es == [] then Some(([], m))
    else
      var (v, m1) :- Eval(sys, es[0], m);
      var (vs, m2) :- EvalList(sys, es[1..], m1);
      Some(([v] + vs, m2))
  }

  /** A line of statements: each starts in the memory the last one left; the last value counts. */
  function EvalLine(sys: Syscalls, es: seq<Expr>, m: Memory): (r: Outcome)
    requires es != []
  {
    var (v, m1) :- Eval(sys, es[0], m);
    if |es| == 1 then Some((v, m1)) else EvalLine(sys, es[1..], m1)
  }

  // ----- what evaluation does -----

  /** The left operand is evaluated first, and the operator computes what C says. */
  lemma BinaryMeans(sys: Syscalls, op: Operator, left: Expr, right: Expr, m: Memory)
    requires Eval(sys, Binary(op, left, right), m).Some?
    ensures var a := Eval(sys, left, m);
            && a.Some?
            && var b := Eval(sys, right, a.value.1);
               && b.Some? && Eval(sys, Binary(op, left, right), m).value.1 == b.value.1
               && Computes(op, a.value.0, b.value.0, Eval(sys, Binary(op, left, right), m).value.0)
  {
    var a := Eval(sys, left, m).value;
    ApplyComputes(op, a.0, Eval(sys, right, a.1).value.0);
  }

  /** Only the word at `a` differs, and it is `v`. */
  ghost predicate Holds(before: Memory, after: Memory, a: Word, v: Word) {
    && Load(after, a) == Some(v) && after.Keys == before.Keys
    && forall x :: x in before && !(a <= x < a + 4) ==> after[x] == before[x]
  }

  /** After an assignment the target holds the value, and nothing else changes. */
  lemma AssignMeans(sys: Syscalls, target: Expr, source: Expr, m: Memory)
    requires Eval(sys, Assign(target, source), m).Some?
    ensures var place := Locate(sys, target, m);
            && place.Some?
            && var value := Eval(sys, source, place.value.1);
               && value.Some? && Eval(sys, Assign(target, source), m).value.0 == value.value.0
               && Holds(value.value.1, Eval(sys, Assign(target, source), m).value.1, place.value.0, value.value.0)
  {
    var place := Locate(sys, target, m).value;
    var value := Eval(sys, source, place.1).value;
    LoadAfterStore(value.1, place.0, value.0);
  }

  /** `r` is what ++ or -- does to the word `before` at `a`, and its value is the new one or that before. */
  ghost predicate Steps(m: Memory, a: Word, before: Word, up: bool, updated: bool, r: (Word, Memory)) {
    exists after: Word ::
      && Holds(m, r.1, a, after) && Wrap(if up then after - 1 else after + 1) == before
      && r.0 == if updated then after else before
  }

  lemma BumpMeans(sys: Syscalls, e: Expr, op: Operator, m: Memory, updated: bool)
    requires (op.Add? || op.Sub?) && Bump(sys, e, op, m, updated).Some?
    ensures var place := Locate(sys, e, m);
            && place.Some? && Load(place.value.1, place.value.0).Some?
            && Steps(place.value.1, place.value.0, Load(place.value.1, place.value.0).value, op.Add?, updated,
                     Bump(sys, e, op, m, updated).value)
  {
    var place := Locate(sys, e, m).value;
    var before := Load(place.1, place.0).value;
    var after := Apply(op, before, 1).value;
    ApplyComputes(op, before, 1);
    LoadAfterStore(place.1, place.0, after);
    assert Holds(place.1, Bump(sys, e, op, m, updated).value.1, place.0, after);
  }

  /** ++ and -- leave one more or one less; the prefix form gives that value, the postfix form the one before. */
  lemma StepMeans(sys: Syscalls, e: Expr, m: Memory)
    requires (e.PreInc? || e.PreDec? || e.PostInc? || e.PostDec?) && Eval(sys, e, m).Some?
    ensures var place := Locate(sys, e.arg, m);
            && place.Some? && Load(place.value.1, place.value.0).Some?
            && Steps(place.value.1, place.value.0, Load(place.value.1, place.value.0).value,
                     e.PreInc? || e.PostInc?, e.PreInc? || e.PreDec?, Eval(sys, e, m).value)
  {
    match e
    case PreInc(arg) => BumpMeans(sys, arg, Add, m, true);
    case PreDec(arg) => BumpMeans(sys, arg, Sub, m, true);
    case PostInc(arg) => BumpMeans(sys, arg, Add, m, false);
    case PostDec(arg) => BumpMeans(sys, arg, Sub, m, false);
  }

  // ----- the child/sibling tree -----

  datatype Kind =
    | NodeConst(value: Word)
    | NodeId(symbol: Symbol)
    | NodeOp(op: Operator)
    | NodeNot
    | NodeFunc
    | NodeAssign
    | NodePreInc
    | NodePreDec
    | NodeInc
    | NodeDec
    | NodeGetValue
    | NodeGetAddr

  /** The operand widths that occur in this model. */
  datatype DataType = Void | Dword

  /** `isAddress` is the address bit of the node's identifier type, `data` its data type. */
  datatype Tree =
    | Null
    | Node(kind: Kind, isAddress: bool, data: DataType, child: Tree, sibling: Tree)

  function Fresh(kind: Kind, child: Tree, sibling: Tree): (t: Tree) {
    Node(kind, false, Void, child, sibling)
  }

  function KindOf(e: Expr): (kind: Kind) {
    match e
    case Const(v) => NodeConst(v)
    case Id(symbol) => NodeId(symbol)
    case Binary(op, _, _) => NodeOp(op)
    case Not(_) => NodeNot
    case Assign(_, _) => NodeAssign
    case PreInc(_) => NodePreInc
    case PreDec(_) => NodePreDec
    case PostInc(_) => NodeInc
    case PostDec(_) => NodeDec
    case Deref(_) => NodeGetValue
    case AddressOf(_) => NodeGetAddr
    case Call(_, _) => NodeFunc
  }

  /** The operands of `e` as a chain of siblings. */
  function Operands(e: Expr): (t: Tree)
    decreases e, 0
  {
    match e
    case Const(_) => Null
    case Id(_) => Null
    case Binary(_, left, right) => Lower(left, Lower(right, Null))
    case Assign(target, source) => Lower(target, Lower(source, Null))
    case Call(callee, args) => Lower(callee, LowerList(args))
    case _ => Lower(e.arg, Null)
  }

  /** The tree that the parser builds for `e`, followed by `sibling`. */
  function Lower(e: Expr, sibling: Tree): (t: Tree)
    decreases e, 1
  {
    Fresh(KindOf(e), Operands(e), sibling)
  }

  function LowerList(es: seq<Expr>): (t: Tree)
    ensures t.Null? <==> es == []
    decreases es, 0
  {
    if es == [] then Null else Lower(es[0], LowerList(es[1..]))
  }

  /** No two expressions have the same tree. */
  lemma {:induction false} LowerOnce(a: Expr, b: Expr, s: Tree, t: Tree)
    requires Lower(a, s) == Lower(b, t)
    ensures a == b && s == t
    decreases a, 0
  {
    match a
    case Const(_) =>
    case Id(_) =>
    case Binary(_, left, right) =>
      LowerOnce(left, b.left, Lower(right, Null), Lower(b.right, Null));
      LowerOnce(right, b.right, Null, Null);
    case Assign(target, source) =>
      LowerOnce(target, b.target, Lower(source, Null), Lower(b.source, Null));
      LowerOnce(source, b.source, Null, Null);
    case Call(callee, args) =>
      LowerOnce(callee, b.callee, LowerList(args), LowerList(b.args));
      ListOnce(args, b.args);
    case _ => LowerOnce(a.arg, b.arg, Null, Null);
  }

  lemma {:induction false} ListOnce(a: seq<Expr>, b: seq<Expr>)
    requires LowerList(a) == LowerList(b)
    ensures a == b
    decreases a, 1
  {
    if a != [] {
      LowerOnce(a[0], b[0], LowerList(a[1..]), LowerList(b[1..]));
      ListOnce(a[1..], b[1..]);
      assert a == [a[0]] + a[1..] && b == [b[0]] + b[1..];
    }
  }

  function NodeCount(t: Tree): (n: nat) {
    match t
    case Null => 0
    case Node(_, _, _, child, sibling) => 1 + NodeCount(child) + NodeCount(sibling)
  }

  function Siblings(t: Tree): (n: nat) {
    match t
    case Null => 0
    case Node(_, _, _, _, sibling) => 1 + Siblings(sibling)
  }

  // ----- the 32-bit fragment -----

  /** The data type the compiler gives to the node of `e`. */
  function TypeOf(e: Expr): (d: DataType) {
    match e
    case Const(_) => Dword
    case Id(symbol) => if symbol.SystemCall? then Void else Dword
    case Binary(_, left, _) => TypeOf(left)
    case Assign(target, _) => TypeOf(target)
    case Call(callee, _) => TypeOf(callee)
    case _ => TypeOf(e.arg)
  }

  predicate IsVariable(e: Expr) {
    e.Id? && e.symbol.Variable?
  }

  predicate Assignable(e: Expr) {
    (e.Id? && !e.symbol.SystemCall?) || e.Deref?
  }

  /** What the compiler supports: every operator finds a 32-bit first operand. */
  predicate Supported(e: Expr) {
    match e
    case Const(_) => true
    case Id(_) => true
    case Binary(_, left, right) => Supported(left) && Supported(right) && TypeOf(left) == Dword
    case Not(arg) => Supported(arg) && TypeOf(arg) == Dword
    case Assign(target, source) =>
      Assignable(target) && Supported(target) && Supported(source) && TypeOf(target) == Dword
    case Deref(arg) => Supported(arg) && TypeOf(arg) == Dword
    case AddressOf(arg) => Assignable(arg) && Supported(arg)
    case Call(callee, args) =>
      Supported(callee) && |args| <= 16 && forall i :: 0 <= i < |args| ==> Supported(args[i])
    case _ => IsVariable(e.arg)
  }
}
