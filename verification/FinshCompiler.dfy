/** The address/value pass, the code generator, and the proof that the code does what the tree means. */
module FinshCompiler {
  import opened Options
  import opened FinshWords
  import opened FinshTree
  import opened FinshVm

  // ----- the type check pass -----

  /** Marks every node as address or value and gives it the data type of its first child. */
  function Mark(t: Tree, isAddr: bool): (r: Tree)
    ensures r.Null? <==> t.Null?
    ensures t.Node? ==> r.kind == t.kind && Siblings(r) == Siblings(t)
  {
    match t
    case Null => Null
    case Node(kind, isAddress, data, child, sibling) =>
      var down :=
        if kind.NodeAssign? || kind.NodePreInc? || kind.NodePreDec? || kind.NodeGetAddr? then true
        else if kind.NodeGetValue? && isAddr then false
        else isAddr;
      var child' := Mark(child, down);
      var sibling' := Mark(sibling, false);
      var mark := if IsSyscall(kind) then isAddress else isAddress || isAddr;
      var data' := if child'.Node? then child'.data else LeafType(kind, data);
      Node(kind, mark, data', child', sibling')
  }

  predicate IsSyscall(kind: Kind) {
    kind.NodeId? && kind.symbol.SystemCall?
  }

  function LeafType(kind: Kind, data: DataType): (d: DataType) {
    match kind
    case NodeConst(_) => Dword
    case NodeId(symbol) => if symbol.SystemCall? then data else Dword
    case _ => data
  }

  // ----- code generation -----

  /** The address of the variable below an increment. */
  function VariableOf(child: Tree): (a: Option<Word>) {
    if child.Node? && child.kind.NodeId? && child.kind.symbol.Variable? then
      Some(child.kind.symbol.address)
    else None
  }

  /** What the switch of the compiler emits for a node after its children. */
  function Emitted(t: Tree): (code: seq<Instr>)
    requires t.Node?
  {
    match t.kind
    case NodeConst(v) => [Push(v)]
    case NodeId(symbol) =>
      if symbol.SystemCall? then [Push(symbol.entry)]
      else if t.isAddress then [Push(symbol.address)]
      else [PushValue(symbol.address)]
    case NodeOp(op) => if t.data == Dword then [Operate(op)] else []
    case NodeNot => if t.data == Dword then [Invert] else []
    case NodeFunc => if t.child.Null? then [] else [Invoke((Siblings(t.child) - 1) % 256)]
    case NodeAssign =>
      if t.child.Node? && (t.child.kind.NodeId? || t.child.kind.NodeGetValue?) && t.child.data == Dword then
        [Put, Fetch]
      else []
    case NodePreInc => EmittedPre(t, Add)
    case NodePreDec => EmittedPre(t, Sub)
    case NodeInc => EmittedPost(t, Add)
    case NodeDec => EmittedPost(t, Sub)
    case NodeGetValue => if !t.isAddress && t.data == Dword then [Fetch] else []
    case NodeGetAddr => []
  }

  function EmittedPre(t: Tree, op: Operator): (code: seq<Instr>)
    requires t.Node?
  {
    match VariableOf(t.child)
    case None => []
    case Some(a) =>
      if t.data == Dword then
        [PushValue(a), Push(1), Operate(op), Put, Fetch]
      else []
  }

  function EmittedPost(t: Tree, op: Operator): (code: seq<Instr>)
    requires t.Node?
  {
    match VariableOf(t.child)
    case None => []
    case Some(a) =>
      if t.data == Dword then
        [Push(a), PushValue(a), Push(1), Operate(op), Put, Pop]
      else []
  }

  /** The children first, then the node, then its siblings. */
  function Compile(t: Tree): (code: seq<Instr>) {
    match t
    case Null => []
    case Node(_, _, _, child, sibling) => Compile(child) + Emitted(t) + Compile(sibling)
  }

  // ----- the code of an expression -----

  /** The code of a supported expression, form by form, as a value or as an address. */
  ghost function Code(e: Expr, isAddr: bool): (code: seq<Instr>)
    decreases e, 0
  {
    match e
    case Const(v) => [Push(v)]
    case Id(symbol) =>
      if symbol.SystemCall? then [Push(symbol.entry)]
      else if isAddr then [Push(symbol.address)]
      else [PushValue(symbol.address)]
    case Binary(op, left, right) => Code(left, false) + Code(right, false) + [Operate(op)]
    case Not(arg) => Code(arg, false) + [Invert]
    case Assign(target, source) => Code(target, true) + Code(source, false) + [Put, Fetch]
    case PreInc(arg) => CodePre(arg, Add)
    case PreDec(arg) => CodePre(arg, Sub)
    case PostInc(arg) => CodePost(arg, Add)
    case PostDec(arg) => CodePost(arg, Sub)
    case Deref(arg) => if isAddr then Code(arg, false) else Code(arg, false) + [Fetch]
    case AddressOf(arg) => Code(arg, true)
    case Call(callee, args) => Code(callee, false) + CodeList(args) + [Invoke(|args| % 256)]
  }

  ghost function CodePre(arg: Expr, op: Operator): (code: seq<Instr>) {
    if IsVariable(arg) then
      var a := arg.symbol.address;
      [Push(a), PushValue(a), Push(1), Operate(op), Put, Fetch]
    else []
  }

  ghost function CodePost(arg: Expr, op: Operator): (code: seq<Instr>) {
    if IsVariable(arg) then
      var a := arg.symbol.address;
      [PushValue(a), Push(a), PushValue(a), Push(1), Operate(op), Put, Pop]
    else []
  }

  ghost function CodeList(es: seq<Expr>): (code: seq<Instr>)
    decreases es, 1
  {
    if es == [] then [] else Code(es[0], false) + CodeList(es[1..])
  }

  /** The number of nodes of an expression. */
  ghost function Size(e: Expr): (n: nat)
    ensures n >= 1
    decreases e, 0
  {
    match e
    case Const(_) => 1
    case Id(_) => 1
    case Binary(_, left, right) => 1 + Size(left) + Size(right)
    case Assign(target, source) => 1 + Size(target) + Size(source)
    case Call(callee, args) => 1 + Size(callee) + SizeList(args)
    case _ => 1 + Size(e.arg)
  }

  ghost function SizeList(es: seq<Expr>): (n: nat)
    decreases es, 1
  {
    if es == [] then 0 else Size(es[0]) + SizeList(es[1..])
  }

  // ----- the tree passes produce that code -----

  lemma {:induction false} SizeIsNodeCount(e: Expr, sibling: Tree)
    ensures NodeCount(Lower(e, sibling)) == Size(e) + NodeCount(sibling)
    decreases e, 0
  {
    match e
    case Const(_) =>
    case Id(_) =>
    case Binary(_, left, right) =>
      SizeIsNodeCount(left, Lower(right, Null));
      SizeIsNodeCount(right, Null);
    case Assign(target, source) =>
      SizeIsNodeCount(target, Lower(source, Null));
      SizeIsNodeCount(source, Null);
    case Call(callee, args) =>
      SizeIsNodeCount(callee, LowerList(args));
      SizeListIsNodeCount(args);
    case _ => SizeIsNodeCount(e.arg, Null);
  }

  lemma {:induction false} SizeListIsNodeCount(es: seq<Expr>)
    ensures NodeCount(LowerList(es)) == SizeList(es)
    decreases es, 1
  {
    if es != [] {
      SizeIsNodeCount(es[0], LowerList(es[1..]));
      SizeListIsNodeCount(es[1..]);
    }
  }

  /** The address bit that the pass hands from the node of `e` to its first operand. */
  ghost function Down(e: Expr, isAddr: bool): (b: bool) {
    match e
    case Assign(_, _) => true
    case PreInc(_) => true
    case PreDec(_) => true
    case AddressOf(_) => true
    case Deref(_) => false
    case _ => isAddr
  }

  lemma MarkNode(e: Expr, sibling: Tree, isAddr: bool)
    ensures var t := Mark(Lower(e, sibling), isAddr);
            && t.Node?
            && t.kind == KindOf(e)
            && t.child == Mark(Operands(e), Down(e, isAddr))
            && t.sibling == Mark(sibling, false)
            && t.isAddress == (isAddr && !IsSyscall(KindOf(e)))
            && t.data == (if t.child.Node? then t.child.data else LeafType(KindOf(e), Void))
            && Compile(t) == Compile(t.child) + Emitted(t) + Compile(t.sibling)
  {
  }

  lemma {:induction false} MarkedType(e: Expr, sibling: Tree, isAddr: bool)
    ensures Mark(Lower(e, sibling), isAddr).Node?
    ensures Mark(Lower(e, sibling), isAddr).data == TypeOf(e)
    decreases e
  {
    MarkNode(e, sibling, isAddr);
    match e
    case Const(_) =>
    case Id(_) =>
    case Binary(_, left, right) => MarkedType(left, Lower(right, Null), isAddr);
    case Assign(target, source) => MarkedType(target, Lower(source, Null), true);
    case Call(callee, args) => MarkedType(callee, LowerList(args), isAddr);
    case _ => MarkedType(e.arg, Null, Down(e, isAddr));
  }

  /** The marked tree of a supported expression compiles to its code, then that of its siblings. */
  lemma {:induction false} TreeCode(e: Expr, sibling: Tree, isAddr: bool)
    requires Supported(e) && (isAddr ==> Assignable(e))
    ensures Compile(Mark(Lower(e, sibling), isAddr)) == Code(e, isAddr) + Compile(Mark(sibling, false))
    decreases e, 1
  {
    MarkNode(e, sibling, isAddr);
    EmittedOwn(e, sibling, isAddr);
    OperandsCode(e, isAddr);
  }

  lemma {:induction false} EmittedOwn(e: Expr, sibling: Tree, isAddr: bool)
    requires Supported(e) && (isAddr ==> Assignable(e))
    ensures Mark(Lower(e, sibling), isAddr).Node?
    ensures Emitted(Mark(Lower(e, sibling), isAddr)) == Own(e, isAddr)
  {
    MarkNode(e, sibling, isAddr);
    MarkedType(e, sibling, isAddr);
    match e
    case Const(_) =>
    case Id(_) =>
    case Binary(_, left, right) => MarkNode(left, Lower(right, Null), isAddr);
    case Assign(target, source) =>
      MarkNode(target, Lower(source, Null), true);
      MarkedType(target, Lower(source, Null), true);
    case Call(callee, args) =>
      MarkNode(callee, LowerList(args), isAddr);
      SiblingsOfList(args);
    case Not(_) =>
    case Deref(_) =>
    case AddressOf(_) =>
    case _ => EmittedStep(e, sibling, isAddr);
  }

  lemma EmittedStep(e: Expr, sibling: Tree, isAddr: bool)
    requires e.PreInc? || e.PreDec? || e.PostInc? || e.PostDec?
    requires IsVariable(e.arg)
    ensures Mark(Lower(e, sibling), isAddr).Node?
    ensures Emitted(Mark(Lower(e, sibling), isAddr)) == Own(e, isAddr)
  {
    var t := Mark(Lower(e, sibling), isAddr);
    MarkNode(e, sibling, isAddr);
    MarkedType(e, sibling, isAddr);
    MarkNode(e.arg, Null, Down(e, isAddr));
    assert VariableOf(t.child) == Some(e.arg.symbol.address);
  }

  /** The operands' code followed by what the node itself emits. */
  lemma {:induction false} OperandsCode(e: Expr, isAddr: bool)
    requires Supported(e) && (isAddr ==> Assignable(e))
    ensures Compile(Mark(Operands(e), Down(e, isAddr))) + Own(e, isAddr) == Code(e, isAddr)
    decreases e, 0
  {
    assert Compile(Null) == [] && Mark(Null, false) == Null;
    match e
    case Const(v) => assert Compile(Mark(Null, isAddr)) == [];
    case Id(symbol) => assert Compile(Mark(Null, isAddr)) == [];
    case Binary(op, left, right) =>
      TreeCode(left, Lower(right, Null), false);
      TreeCode(right, Null, false);
      JoinEmpty(Code(right, false));
    case Assign(target, source) =>
      TreeCode(target, Lower(source, Null), true);
      TreeCode(source, Null, false);
      JoinEmpty(Code(source, false));
    case Call(callee, args) =>
      TreeCode(callee, LowerList(args), false);
      ListCode(args);
    case _ => OperandCode(e, isAddr);
  }

  lemma {:induction false} OperandCode(e: Expr, isAddr: bool)
    requires Supported(e) && (isAddr ==> Assignable(e))
    requires !e.Const? && !e.Id? && !e.Binary? && !e.Assign? && !e.Call?
    ensures Compile(Mark(Operands(e), Down(e, isAddr))) + Own(e, isAddr) == Code(e, isAddr)
    decreases e.arg, 2
  {
    var down := Down(e, isAddr);
    assert Compile(Mark(Null, false)) == [];
    TreeCode(e.arg, Null, down);
    JoinEmpty(Code(e.arg, down));
    OwnBehind(e, isAddr);
    assert Operands(e) == Lower(e.arg, Null);
  }

  lemma OwnBehind(e: Expr, isAddr: bool)
    requires Supported(e) && (isAddr ==> Assignable(e))
    requires !e.Const? && !e.Id? && !e.Binary? && !e.Assign? && !e.Call?
    ensures Code(e.arg, Down(e, isAddr)) + Own(e, isAddr) == Code(e, isAddr)
  {
    JoinEmpty(Code(e, isAddr));
  }

  lemma {:induction false} ListCode(es: seq<Expr>)
    requires forall i :: 0 <= i < |es| ==> Supported(es[i])
    ensures Compile(Mark(LowerList(es), false)) == CodeList(es)
    decreases es, 2
  {
    if es == [] {
      assert Compile(Mark(Null, false)) == [];
    } else {
      TreeCode(es[0], LowerList(es[1..]), false);
      ListCode(es[1..]);
    }
  }

  /** What the node of a supported expression emits itself. */
  ghost function Own(e: Expr, isAddr: bool): (code: seq<Instr>) {
    match e
    case Const(v) => [Push(v)]
    case Id(_) => Code(e, isAddr)
    case Binary(op, _, _) => [Operate(op)]
    case Not(_) => [Invert]
    case Assign(_, _) => [Put, Fetch]
    case Deref(_) => if isAddr then [] else [Fetch]
    case AddressOf(_) => []
    case Call(_, args) => [Invoke(|args| % 256)]
    case PreInc(arg) => OwnPre(arg, Add)
    case PreDec(arg) => OwnPre(arg, Sub)
    case PostInc(arg) => OwnPost(arg, Add)
    case PostDec(arg) => OwnPost(arg, Sub)
  }

  ghost function OwnPre(arg: Expr, op: Operator): (code: seq<Instr>) {
    if IsVariable(arg) then
      [PushValue(arg.symbol.address), Push(1), Operate(op), Put, Fetch]
    else []
  }

  ghost function OwnPost(arg: Expr, op: Operator): (code: seq<Instr>) {
    if IsVariable(arg) then
      [Push(arg.symbol.address), PushValue(arg.symbol.address), Push(1), Operate(op), Put, Pop]
    else []
  }

  lemma SiblingsOfList(es: seq<Expr>)
    ensures Siblings(LowerList(es)) == |es|
  {
  }

  // ----- the theorem -----

  /** The state after pushing the value of a successful evaluation. */
  ghost function Pushed(outcome: Outcome, stack: seq<Word>): (r: Option<State>) {
    match outcome
    case None => None
    case Some((v, m)) => Some(State(stack + [v], m))
  }

  ghost function PushedList(outcome: Option<(seq<Word>, Memory)>, stack: seq<Word>): (r: Option<State>) {
    match outcome
    case None => None
    case Some((vs, m)) => Some(State(stack + vs, m))
  }

  lemma RunOne(sys: Syscalls, i: Instr, s: State)
    ensures Run(sys, [i], s) == Perform(sys, i, s)
  {
    assert [i][1..] == [];
  }

  lemma RunFirst(sys: Syscalls, i: Instr, more: seq<Instr>, s: State)
    ensures Run(sys, [i] + more, s)
            == match Perform(sys, i, s)
               case None => None
               case Some(s') => Run(sys, more, s')
  {
    RunOne(sys, i, s);
    RunJoin(sys, [i], more, s);
  }

  lemma PerformBinary(sys: Syscalls, op: Operator, stack: seq<Word>, a: Word, b: Word, m: Memory)
    ensures Perform(sys, Operate(op), State(stack + [a] + [b], m))
            == match Apply(op, a, b)
               case None => None
               case Some(v) => Some(State(stack + [v], m))
  {
    var full := stack + [a] + [b];
    assert full[..|full| - 2] == stack;
  }

  lemma PerformInvoke(sys: Syscalls, stack: seq<Word>, entry: Word, vs: seq<Word>, m: Memory)
    requires |vs| <= CALL_MAX
    ensures Perform(sys, Invoke(|vs|), State(stack + [entry] + vs, m)) == Pushed(sys(entry, vs, m), stack)
  {
    var full := stack + [entry] + vs;
    assert full[..|stack|] == stack && full[|stack|] == entry && full[|stack| + 1..] == vs;
  }

  /** Store through an address on the stack, then fetch what was stored: the value stays. */
  lemma PutFetch(sys: Syscalls, stack: seq<Word>, a: Word, v: Word, m: Memory)
    ensures Run(sys, [Put, Fetch], State(stack + [a] + [v], m)) == Pushed(StoreResult(m, a, v, v), stack)
  {
    var full := stack + [a] + [v];
    assert full[..|full| - 1] == stack + [a];
    assert (stack + [a])[..|stack|] == stack;
    assert [Put, Fetch] == [Put] + [Fetch];
    RunFirst(sys, Put, [Fetch], State(full, m));
    if Mapped(m, a) {
      RunOne(sys, Fetch, State(stack + [a], Store(m, a, v).value));
      LoadAfterStore(m, a, v);
    }
  }

  /** An instruction that replaces the value which `code` pushed. */
  lemma RunBehind(sys: Syscalls, code: seq<Instr>, outcome: Outcome, i: Instr, stack: seq<Word>, m: Memory)
    requires i == Invert || i == Fetch
    requires Run(sys, code, State(stack, m)) == Pushed(outcome, stack)
    ensures Run(sys, code + [i], State(stack, m))
            == match outcome
               case None => None
               case Some((a, m1)) =>
                 if i == Invert then Some(State(stack + [Complement(a)], m1))
                 else match Load(m1, a)
                      case None => None
                      case Some(v) => Some(State(stack + [v], m1))
  {
    RunJoin(sys, code, [i], State(stack, m));
    match outcome
    case None =>
    case Some((a, m1)) =>
      assert (stack + [a])[..|stack|] == stack;
      RunOne(sys, i, State(stack + [a], m1));
  }

  /**
   Running the code of a supported expression, on any stack with room for its nodes and
   two more slots, faults exactly when direct evaluation has no result; otherwise it
   leaves the memory of direct evaluation and pushes its value on an unchanged stack.
   */
  lemma {:induction false} CompileCorrect(sys: Syscalls, e: Expr, stack: seq<Word>, m: Memory)
    requires Supported(e)
    requires |stack| + Size(e) + 2 <= STACK_MAX
    ensures Run(sys, Code(e, false), State(stack, m)) == Pushed(Eval(sys, e, m), stack)
    decreases e, 2
  {
    match e
    case Const(v) => RunOne(sys, Push(v), State(stack, m));
    case Id(symbol) =>
      RunOne(sys, Code(e, false)[0], State(stack, m));
    case Binary(op, left, right) => BinaryCorrect(sys, op, left, right, stack, m);
    case Not(arg) =>
      CompileCorrect(sys, arg, stack, m);
      RunBehind(sys, Code(arg, false), Eval(sys, arg, m), Invert, stack, m);
    case Assign(target, source) => AssignCorrect(sys, target, source, stack, m);
    case PreInc(arg) => PreCorrect(sys, arg, Add, stack, m);
    case PreDec(arg) => PreCorrect(sys, arg, Sub, stack, m);
    case PostInc(arg) => PostCorrect(sys, arg, Add, stack, m);
    case PostDec(arg) => PostCorrect(sys, arg, Sub, stack, m);
    case Deref(arg) =>
      CompileCorrect(sys, arg, stack, m);
      RunBehind(sys, Code(arg, false), Eval(sys, arg, m), Fetch, stack, m);
    case AddressOf(arg) => LocateCorrect(sys, arg, stack, m);
    case Call(callee, args) => CallCorrect(sys, callee, args, stack, m);
  }

  /** The code of an assignable expression compiled as an address pushes its location. */
  lemma {:induction false} LocateCorrect(sys: Syscalls, e: Expr, stack: seq<Word>, m: Memory)
    requires Supported(e) && Assignable(e)
    requires |stack| + Size(e) + 2 <= STACK_MAX
    ensures Run(sys, Code(e, true), State(stack, m)) == Pushed(Locate(sys, e, m), stack)
    decreases e, 1
  {
    if e.Id? {
      RunOne(sys, Push(e.symbol.address), State(stack, m));
    } else {
      CompileCorrect(sys, e.arg, stack, m);
    }
  }

  lemma {:induction false} BinaryCorrect(
    sys: Syscalls, op: Operator, left: Expr, right: Expr, stack: seq<Word>, m: Memory)
    requires Supported(Binary(op, left, right))
    requires |stack| + Size(Binary(op, left, right)) + 2 <= STACK_MAX
    ensures Run(sys, Code(Binary(op, left, right), false), State(stack, m))
            == Pushed(Eval(sys, Binary(op, left, right), m), stack)
    decreases Binary(op, left, right), 1
  {
    RunJoin(sys, Code(left, false) + Code(right, false), [Operate(op)], State(stack, m));
    RunJoin(sys, Code(left, false), Code(right, false), State(stack, m));
    CompileCorrect(sys, left, stack, m);
    match Eval(sys, left, m)
    case None =>
    case Some((a, m1)) =>
      CompileCorrect(sys, right, stack + [a], m1);
      match Eval(sys, right, m1)
      case None =>
      case Some((b, m2)) =>
        RunOne(sys, Operate(op), State(stack + [a] + [b], m2));
        PerformBinary(sys, op, stack, a, b, m2);
  }

  lemma {:induction false} AssignCorrect(sys: Syscalls, target: Expr, source: Expr, stack: seq<Word>, m: Memory)
    requires Supported(Assign(target, source))
    requires |stack| + Size(Assign(target, source)) + 2 <= STACK_MAX
    ensures Run(sys, Code(Assign(target, source), false), State(stack, m))
            == Pushed(Eval(sys, Assign(target, source), m), stack)
    decreases Assign(target, source), 1
  {
    RunJoin(sys, Code(target, true) + Code(source, false), [Put, Fetch], State(stack, m));
    RunJoin(sys, Code(target, true), Code(source, false), State(stack, m));
    LocateCorrect(sys, target, stack, m);
    match Locate(sys, target, m)
    case None =>
    case Some((a, m1)) =>
      CompileCorrect(sys, source, stack + [a], m1);
      match Eval(sys, source, m1)
      case None =>
      case Some((v, m2)) => PutFetch(sys, stack, a, v, m2);
  }

  /** Load a variable, add or subtract one: both operands are on the stack only for a moment. */
  lemma RunStep(sys: Syscalls, a: Word, op: Operator, more: seq<Instr>, stack: seq<Word>, m: Memory)
    requires |stack| + 2 <= STACK_MAX
    ensures Run(sys, [PushValue(a), Push(1), Operate(op)] + more, State(stack, m))
            == match Load(m, a)
               case None => None
               case Some(before) =>
                 match Apply(op, before, 1)
                 case None => None
                 case Some(after) => Run(sys, more, State(stack + [after], m))
  {
    assert [PushValue(a), Push(1), Operate(op)] + more == [PushValue(a)] + ([Push(1)] + ([Operate(op)] + more));
    RunFirst(sys, PushValue(a), [Push(1)] + ([Operate(op)] + more), State(stack, m));
    match Load(m, a)
    case None =>
    case Some(before) =>
      RunFirst(sys, Push(1), [Operate(op)] + more, State(stack + [before], m));
      RunFirst(sys, Operate(op), more, State(stack + [before] + [1], m));
      PerformBinary(sys, op, stack, before, 1, m);
  }

  /** ++x and --x: the address is pushed first, the value is computed above it. */
  lemma PreCorrect(sys: Syscalls, arg: Expr, op: Operator, stack: seq<Word>, m: Memory)
    requires IsVariable(arg) && |stack| + 3 <= STACK_MAX
    ensures Run(sys, CodePre(arg, op), State(stack, m)) == Pushed(Bump(sys, arg, op, m, true), stack)
  {
    var a := arg.symbol.address;
    assert CodePre(arg, op) == [Push(a)] + ([PushValue(a), Push(1), Operate(op)] + [Put, Fetch]);
    RunFirst(sys, Push(a), [PushValue(a), Push(1), Operate(op)] + [Put, Fetch], State(stack, m));
    RunStep(sys, a, op, [Put, Fetch], stack + [a], m);
    match Load(m, a)
    case None =>
    case Some(before) =>
      match Apply(op, before, 1)
      case None =>
      case Some(after) => PutFetch(sys, stack, a, after, m);
  }

  /** x++ and x--: the old value is pushed first and stays when the rest is popped. */
  lemma PostCorrect(sys: Syscalls, arg: Expr, op: Operator, stack: seq<Word>, m: Memory)
    requires IsVariable(arg) && |stack| + 4 <= STACK_MAX
    ensures Run(sys, CodePost(arg, op), State(stack, m)) == Pushed(Bump(sys, arg, op, m, false), stack)
  {
    var a := arg.symbol.address;
    var tail := [PushValue(a), Push(1), Operate(op)] + [Put, Pop];
    assert CodePost(arg, op) == [PushValue(a)] + ([Push(a)] + tail);
    RunFirst(sys, PushValue(a), [Push(a)] + tail, State(stack, m));
    match Load(m, a)
    case None =>
    case Some(before) =>
      RunFirst(sys, Push(a), tail, State(stack + [before], m));
      RunStep(sys, a, op, [Put, Pop], stack + [before] + [a], m);
      match Apply(op, before, 1)
      case None =>
      case Some(after) => PutPop(sys, stack + [before], a, after, m);
  }

  lemma PutPop(sys: Syscalls, stack: seq<Word>, a: Word, v: Word, m: Memory)
    ensures Run(sys, [Put, Pop], State(stack + [a] + [v], m))
            == match Store(m, a, v)
               case None => None
               case Some(m') => Some(State(stack, m'))
  {
    var full := stack + [a] + [v];
    assert full[..|full| - 1] == stack + [a];
    assert (stack + [a])[..|stack|] == stack;
    assert [Put, Pop] == [Put] + [Pop];
    RunFirst(sys, Put, [Pop], State(full, m));
    if Mapped(m, a) {
      RunOne(sys, Pop, State(stack + [a], Store(m, a, v).value));
    }
  }

  lemma {:induction false} CallCorrect(sys: Syscalls, callee: Expr, args: seq<Expr>, stack: seq<Word>, m: Memory)
    requires Supported(Call(callee, args))
    requires |stack| + Size(Call(callee, args)) + 2 <= STACK_MAX
    ensures Run(sys, Code(Call(callee, args), false), State(stack, m))
            == Pushed(Eval(sys, Call(callee, args), m), stack)
    decreases Call(callee, args), 1
  {
    RunJoin(sys, Code(callee, false) + CodeList(args), [Invoke(|args|)], State(stack, m));
    RunJoin(sys, Code(callee, false), CodeList(args), State(stack, m));
    CompileCorrect(sys, callee, stack, m);
    match Eval(sys, callee, m)
    case None =>
    case Some((entry, m1)) =>
      ListCorrect(sys, args, stack + [entry], m1);
      match EvalList(sys, args, m1)
      case None =>
      case Some((vs, m2)) =>
        RunOne(sys, Invoke(|args|), State(stack + [entry] + vs, m2));
        PerformInvoke(sys, stack, entry, vs, m2);
  }

  /** Arguments are pushed left to right. */
  lemma {:induction false} ListCorrect(sys: Syscalls, es: seq<Expr>, stack: seq<Word>, m: Memory)
    requires forall i :: 0 <= i < |es| ==> Supported(es[i])
    requires |stack| + SizeList(es) + 2 <= STACK_MAX
    ensures Run(sys, CodeList(es), State(stack, m)) == PushedList(EvalList(sys, es, m), stack)
    decreases es, 0
  {
    if es == [] {
      assert stack + [] == stack;
    } else {
      RunJoin(sys, Code(es[0], false), CodeList(es[1..]), State(stack, m));
      CompileCorrect(sys, es[0], stack, m);
      match Eval(sys, es[0], m)
      case None =>
      case Some((v, m1)) =>
        ListCorrect(sys, es[1..], stack + [v], m1);
        match EvalList(sys, es[1..], m1)
        case None =>
        case Some((vs, m2)) => JoinThree(stack, [v], vs);
    }
  }
}
