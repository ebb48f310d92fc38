/** How long the code of a line is, and when it outgrows the text segment. */
module FinshSizes {
  import opened Options
  import opened FinshWords
  import opened FinshTree
  import opened FinshVm
  import opened FinshCompiler
  import opened FinshShell

  /** The bytes of code that each kind of node adds to those of its operands. */
  ghost function Length(e: Expr, isAddr: bool): (n: nat)
    decreases e, 0
  {
    match e
    case Const(_) => 5
    case Id(_) => 5
    case Binary(_, left, right) => Length(left, false) + Length(right, false) + 1
    case Not(arg) => Length(arg, false) + 1
    case Assign(target, source) => Length(target, true) + Length(source, false) + 2
    case PreInc(_) => 18
    case PreDec(_) => 18
    case PostInc(_) => 23
    case PostDec(_) => 23
    case Deref(arg) => Length(arg, false) + (if isAddr then 0 else 1)
    case AddressOf(arg) => Length(arg, true)
    case Call(callee, args) => Length(callee, false) + ListLength(args) + 2
  }

  ghost function ListLength(es: seq<Expr>): (n: nat)
    decreases es, 1
  {
    if es == [] then 0 else Length(es[0], false) + ListLength(es[1..])
  }

  lemma JoinLength(a: seq<Instr>, b: seq<Instr>)
    ensures |Assemble(a + b)| == |Assemble(a)| + |Assemble(b)|
  {
    AssembleJoin(a, b);
  }

  lemma OneLength(i: Instr)
    ensures |Assemble([i])| == |Bytes(i)|
  {
    AssembleOne(i);
  }

  lemma StepCodeLength(arg: Expr, op: Operator)
    requires IsVariable(arg)
    ensures |Assemble(CodePre(arg, op))| == 18 && |Assemble(CodePost(arg, op))| == 23
  {
    var a := arg.symbol.address;
    StepLength(a, op);
    OneLength(Push(a));
    OneLength(PushValue(a));
    JoinLength([Push(a)], [PushValue(a), Push(1), Operate(op), Put, Fetch]);
    JoinLength([PushValue(a)], [Push(a), PushValue(a), Push(1), Operate(op), Put, Pop]);
    assert CodePre(arg, op) == [Push(a)] + [PushValue(a), Push(1), Operate(op), Put, Fetch];
    assert CodePost(arg, op) == [PushValue(a)] + [Push(a), PushValue(a), Push(1), Operate(op), Put, Pop];
  }

  lemma ThreeLength(a: seq<Instr>, b: seq<Instr>, c: seq<Instr>)
    ensures |Assemble(a + b + c)| == |Assemble(a)| + |Assemble(b)| + |Assemble(c)|
  {
    JoinLength(a, b);
    JoinLength(a + b, c);
  }

  /** The code of an expression has exactly the length that its nodes say. */
  lemma {:induction false} CodeLength(e: Expr, isAddr: bool)
    requires Supported(e)
    ensures |Assemble(Code(e, isAddr))| == Length(e, isAddr)
    decreases e, 2
  {
    match e
    case Const(v) => OneLength(Push(v));
    case Id(symbol) => OneLength(Code(e, isAddr)[0]);
    case Binary(_, _, _) => TwoOperands(e, isAddr);
    case Not(_) => OneOperand(e, isAddr);
    case Assign(_, _) => TwoOperands(e, isAddr);
    case PreInc(arg) => StepCodeLength(arg, Add);
    case PreDec(arg) => StepCodeLength(arg, Sub);
    case PostInc(arg) => StepCodeLength(arg, Add);
    case PostDec(arg) => StepCodeLength(arg, Sub);
    case Deref(_) => OneOperand(e, isAddr);
    case AddressOf(arg) => CodeLength(arg, true);
    case Call(_, _) => CallLength(e);
  }

  lemma {:induction false} TwoOperands(e: Expr, isAddr: bool)
    requires Supported(e) && (e.Binary? || e.Assign?)
    ensures |Assemble(Code(e, isAddr))| == Length(e, isAddr)
    decreases e, 1
  {
    if e.Binary? {
      CodeLength(e.left, false);
      CodeLength(e.right, false);
      OneLength(Operate(e.op));
      ThreeLength(Code(e.left, false), Code(e.right, false), [Operate(e.op)]);
    } else {
      CodeLength(e.target, true);
      CodeLength(e.source, false);
      AssembleTwo(Put, Fetch);
      ThreeLength(Code(e.target, true), Code(e.source, false), [Put, Fetch]);
    }
  }

  lemma {:induction false} OneOperand(e: Expr, isAddr: bool)
    requires Supported(e) && (e.Not? || e.Deref?)
    ensures |Assemble(Code(e, isAddr))| == Length(e, isAddr)
    decreases e, 1
  {
    var own := if e.Not? then Invert else Fetch;
    CodeLength(e.arg, false);
    OneLength(own);
    JoinLength(Code(e.arg, false), [own]);
  }

  lemma {:induction false} CallLength(e: Expr)
    requires Supported(e) && e.Call?
    ensures |Assemble(Code(e, false))| == |Assemble(Code(e, true))| == Length(e, false)
    decreases e, 1
  {
    var own := Invoke(|e.args| % 256);
    CodeLength(e.callee, false);
    CodeListLength(e.args);
    OneLength(own);
    ThreeLength(Code(e.callee, false), CodeList(e.args), [own]);
    assert Code(e, false) == Code(e.callee, false) + CodeList(e.args) + [own] == Code(e, true);
  }

  lemma {:induction false} CodeListLength(es: seq<Expr>)
    requires forall i :: 0 <= i < |es| ==> Supported(es[i])
    ensures |Assemble(CodeList(es))| == ListLength(es)
    decreases es, 0
  {
    if es != [] {
      CodeLength(es[0], false);
      CodeListLength(es[1..]);
      JoinLength(Code(es[0], false), CodeList(es[1..]));
    }
  }

  /** Between two statements there is one byte. */
  ghost function LineLength(es: seq<Expr>): (n: nat)
    requires es != []
  {
    ListLength(es) + |es| - 1
  }

  lemma {:induction false} LineLengthIs(es: seq<Expr>)
    requires es != [] && forall i :: 0 <= i < |es| ==> Supported(es[i])
    ensures |LineBytes(LowerList(es))| == LineLength(es)
    decreases |es|
  {
    var first, rest := Code(es[0], false), es[1..];
    var last := LineCode(Mark(LowerList(rest), false));
    var between := if |es| == 1 then [] else [Pop];
    LineCodeOf(es);
    CodeLength(es[0], false);
    ThreeLength(first, between, last);
    assert |Assemble(between)| == if |es| == 1 then 0 else 1 by {
      OneLength(Pop);
    }
    if |es| == 1 {
      assert rest == [] && last == [] && ListLength(rest) == 0;
    } else {
      LineLengthIs(rest);
    }
    assert ListLength(es) == Length(es[0], false) + ListLength(rest);
  }

  // ----- a line that does not fit -----

  ghost function Copies(e: Expr, n: nat): (es: seq<Expr>)
    ensures |es| == n && forall i :: 0 <= i < n ==> es[i] == e
  {
    if n == 0 then [] else [e] + Copies(e, n - 1)
  }

  lemma {:induction false} CopiesSize(e: Expr, n: nat)
    requires Size(e) == 2 && Length(e, false) == 23
    ensures SizeList(Copies(e, n)) == 2 * n && ListLength(Copies(e, n)) == 23 * n
  {
    if n > 0 {
      CopiesSize(e, n - 1);
      assert Copies(e, n)[1..] == Copies(e, n - 1);
    }
  }

  /**
   Eight increments of a variable fill the node table and no more, but their code takes 191
   bytes, which the text segment does not have.
   */
  lemma EightIncrements(x: Word)
    ensures var es := Copies(PostInc(Id(Variable(x))), 8);
            && (forall i :: 0 <= i < |es| ==> Supported(es[i]))
            && NodeCount(LowerList(es)) == 16 && |LineBytes(LowerList(es))| == 191 && TEXT_MAX == 128
  {
    var e := PostInc(Id(Variable(x)));
    CopiesSize(e, 8);
    SizeListIsNodeCount(Copies(e, 8));
    LineLengthIs(Copies(e, 8));
  }
}
