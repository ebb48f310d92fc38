/** The shell's global state: compiling a line into the text segment and running it there. */
module FinshShell {
  import opened Options
  import opened FinshWords
  import opened FinshTree
  import opened FinshVm
  import opened FinshCompiler

  // ----- a line of statements -----

  function StatementCode(t: Tree): (code: seq<Instr>)
    requires t.Node?
  {
    Compile(t.(sibling := Null)) + (if t.sibling.Null? then [] else [Pop])
  }

  /** The statements one after the other, with a pop between two of them. */
  function LineCode(t: Tree): (code: seq<Instr>) {
    match t
    case Null => []
    case Node(_, _, _, _, sibling) => StatementCode(t) + LineCode(sibling)
  }

  /** The code of a line whose tree is `root`, as bytes. */
  function LineBytes(root: Tree): (code: seq<Byte>) {
    Assemble(LineCode(Mark(root, false)))
  }

  lemma LineCodeOf(es: seq<Expr>)
    requires es != [] && Supported(es[0])
    ensures LineCode(Mark(LowerList(es), false))
            == Code(es[0], false) + (if |es| == 1 then [] else [Pop]) + LineCode(Mark(LowerList(es[1..]), false))
  {
    var t := Mark(LowerList(es), false);
    MarkNode(es[0], LowerList(es[1..]), false);
    MarkNode(es[0], Null, false);
    assert t.(sibling := Null) == Mark(Lower(es[0], Null), false);
    TreeCode(es[0], Null, false);
    JoinEmpty(Code(es[0], false));
  }

  ghost predicate FitsStack(es: seq<Expr>) {
    forall i :: 0 <= i < |es| ==> Supported(es[i]) && Size(es[i]) + 2 <= STACK_MAX
  }

  /**
   A line starts and ends every statement but the last with an empty stack, and
   leaves the last value alone in slot 0.
   */
  lemma {:induction false} LineCorrect(sys: Syscalls, es: seq<Expr>, m: Memory)
    requires es != [] && FitsStack(es)
    ensures Run(sys, LineCode(Mark(LowerList(es), false)), State([], m)) == Pushed(EvalLine(sys, es, m), [])
    decreases |es|
  {
    LineCodeOf(es);
    CompileCorrect(sys, es[0], [], m);
    if |es| == 1 {
      assert LineCode(Mark(LowerList(es[1..]), false)) == [];
      JoinEmpty(Code(es[0], false));
    } else {
      var more := LineCode(Mark(LowerList(es[1..]), false));
      RunStatement(sys, Code(es[0], false), Eval(sys, es[0], m), more, m);
      match Eval(sys, es[0], m)
      case None =>
      case Some((v, m1)) => LineCorrect(sys, es[1..], m1);
    }
  }

  /** A statement with more behind it leaves the stack empty again. */
  lemma RunStatement(sys: Syscalls, code: seq<Instr>, outcome: Outcome, more: seq<Instr>, m: Memory)
    requires Run(sys, code, State([], m)) == Pushed(outcome, [])
    ensures Run(sys, code + [Pop] + more, State([], m))
            == match outcome
               case None => None
               case Some(p) => Run(sys, more, State([], p.1))
  {
    JoinThree(code, [Pop], more);
    RunJoin(sys, code, [Pop] + more, State([], m));
    match outcome
    case None =>
    case Some((v, m1)) =>
      assert ([] + [v])[..0] == [];
      RunFirst(sys, Pop, more, State([] + [v], m1));
  }

  function Zeros(n: nat): (zeros: seq<Byte>)
    ensures |zeros| == n && forall i :: 0 <= i < n ==> zeros[i] == 0
  {
    seq(n, _ => 0)
  }

  /** The whole cleared text segment with the line at its front. */
  lemma SegmentCorrect(sys: Syscalls, es: seq<Expr>, n: nat, m: Memory)
    requires es != [] && FitsStack(es)
    ensures Exec(sys, LineBytes(LowerList(es)) + Zeros(n), State([], m)) == Pushed(EvalLine(sys, es, m), [])
  {
    LineCorrect(sys, es, m);
    ExecAssembled(sys, LineCode(Mark(LowerList(es), false)), Zeros(n), State([], m));
    match EvalLine(sys, es, m)
    case None =>
    case Some((v, m')) => ExecNoops(sys, Zeros(n), State([] + [v], m'));
  }

  /** The sixteen nodes of the node table keep every statement within the stack. */
  lemma {:induction false} SixteenNodesFit(es: seq<Expr>)
    requires NodeCount(LowerList(es)) <= 16
    requires forall i :: 0 <= i < |es| ==> Supported(es[i])
    ensures FitsStack(es)
  {
    if es != [] {
      SizeIsNodeCount(es[0], LowerList(es[1..]));
      SixteenNodesFit(es[1..]);
      forall i | 0 <= i < |es|
        ensures Size(es[i]) + 2 <= STACK_MAX
      {
        assert i > 0 ==> es[i] == es[1..][i - 1];
      }
    }
  }

  lemma LineRuns(sys: Syscalls, root: Tree, es: seq<Expr>, n: nat, m: Memory)
    requires es != [] && root == LowerList(es) && NodeCount(root) <= 16
    requires forall i :: 0 <= i < |es| ==> Supported(es[i])
    ensures Exec(sys, LineBytes(root) + Zeros(n), State([], m)) == Pushed(EvalLine(sys, es, m), [])
  {
    SixteenNodesFit(es);
    SegmentCorrect(sys, es, n, m);
  }

  // ----- the compiler and the machine in place -----

  /** `text` with `code` written over it from `pc` on. */
  ghost function Patched(text: seq<Byte>, pc: nat, code: seq<Byte>): (r: seq<Byte>)
    requires pc + |code| <= |text|
    ensures |r| == |text|
  {
    text[..pc] + code + text[pc + |code|..]
  }

  lemma AssembleOne(i: Instr)
    ensures Assemble([i]) == Bytes(i)
  {
    assert [i][1..] == [];
  }

  lemma AssembleTwo(i: Instr, j: Instr)
    ensures Assemble([i, j]) == Bytes(i) + Bytes(j)
  {
    assert [i, j] == [i] + [j];
    AssembleJoin([i], [j]);
    AssembleOne(i);
    AssembleOne(j);
  }

  lemma AssembleNode(t: Tree)
    requires t.Node?
    ensures Assemble(Compile(t))
            == Assemble(Compile(t.child)) + Assemble(Emitted(t)) + Assemble(Compile(t.sibling))
  {
    AssembleJoin(Compile(t.child) + Emitted(t), Compile(t.sibling));
    AssembleJoin(Compile(t.child), Emitted(t));
  }

  lemma StepLength(a: Word, op: Operator)
    ensures |Assemble([PushValue(a), Push(1), Operate(op), Put, Fetch])| == 13
    ensures |Assemble([Push(a), PushValue(a), Push(1), Operate(op), Put, Pop])| == 18
  {
    AssembleTwo(PushValue(a), Push(1));
    AssembleTwo(Put, Fetch);
    AssembleTwo(Put, Pop);
    AssembleOne(Operate(op));
    AssembleOne(Push(a));
    AssembleJoin([PushValue(a), Push(1)], [Operate(op)]);
    AssembleJoin([PushValue(a), Push(1)] + [Operate(op)], [Put, Fetch]);
    AssembleJoin([PushValue(a), Push(1)] + [Operate(op)], [Put, Pop]);
    AssembleJoin([Push(a)], [PushValue(a), Push(1)] + [Operate(op)] + [Put, Pop]);
    assert [PushValue(a), Push(1)] + [Operate(op)] + [Put, Fetch] == [PushValue(a), Push(1), Operate(op), Put, Fetch];
    assert [Push(a)] + ([PushValue(a), Push(1)] + [Operate(op)] + [Put, Pop])
        == [Push(a), PushValue(a), Push(1), Operate(op), Put, Pop];
  }

  lemma PatchNothing(text: seq<Byte>, pc: nat)
    requires pc <= |text|
    ensures Assemble([]) == [] && Patched(text, pc, []) == text
  {
  }

  lemma PatchTwice(text: seq<Byte>, pc: nat, a: seq<Byte>, b: seq<Byte>)
    requires pc + |a| + |b| <= |text|
    ensures Patched(Patched(text, pc, a), pc + |a|, b) == Patched(text, pc, a + b)
  {
  }

  class Shell {
    const text: array<Byte>
    const stack: array<Word>
    var compilePc: nat
    var pc: nat
    var sp: nat
    var mem: Memory

    constructor (m: Memory)
      ensures Valid() && mem == m
    {
      text := new Byte[TEXT_MAX];
      stack := new Word[STACK_MAX];
      compilePc, pc, sp := 0, 0, 0;
      mem := m;
    }

    ghost predicate Valid()
      reads this
    {
      && text as object != stack as object
      && text.Length == TEXT_MAX
      && stack.Length == STACK_MAX
      && compilePc <= TEXT_MAX
      && pc <= TEXT_MAX
      && sp <= STACK_MAX
    }

    /** The machine's state as the instruction semantics sees it. */
    ghost function View(): (s: State)
      requires Valid()
      reads this, stack
    {
      State(stack[..sp], mem)
    }

    method CodeByte(x: Byte)
      requires Valid() && compilePc < TEXT_MAX
      modifies this`compilePc, text
      ensures Valid() && compilePc == old(compilePc) + 1
      ensures text[..] == Patched(old(text[..]), old(compilePc), [x])
    {
      text[compilePc] := x;
      compilePc := compilePc + 1;
    }

    method CodeDword(x: Word)
      requires Valid() && compilePc + 4 <= TEXT_MAX
      modifies this`compilePc, text
      ensures Valid() && compilePc == old(compilePc) + 4
      ensures text[..] == Patched(old(text[..]), old(compilePc), Encode32(x))
    {
      text[compilePc] := x % 256;
      text[compilePc + 1] := x / 256 % 256;
      text[compilePc + 2] := x / 65536 % 256;
      text[compilePc + 3] := x / 16777216;
      compilePc := compilePc + 4;
    }

    /** An opcode with a 32-bit operand. */
    method CodeLoad(op: Byte, x: Word)
      requires Valid() && compilePc + 5 <= TEXT_MAX
      modifies this`compilePc, text
      ensures Valid() && compilePc == old(compilePc) + 5
      ensures text[..] == Patched(old(text[..]), old(compilePc), [op] + Encode32(x))
    {
      CodeByte(op);
      CodeDword(x);
      PatchTwice(old(text[..]), old(compilePc), [op], Encode32(x));
    }

    method CodeTwo(x: Byte, y: Byte)
      requires Valid() && compilePc + 2 <= TEXT_MAX
      modifies this`compilePc, text
      ensures Valid() && compilePc == old(compilePc) + 2
      ensures text[..] == Patched(old(text[..]), old(compilePc), [x, y])
    {
      CodeByte(x);
      CodeByte(y);
    }

    method CodeInstr(i: Instr)
      requires Valid() && compilePc + |Bytes(i)| <= TEXT_MAX
      modifies this`compilePc, text
      ensures Valid() && compilePc == old(compilePc) + |Bytes(i)|
      ensures text[..] == Patched(old(text[..]), old(compilePc), Bytes(i))
    {
      match i
      case Push(v) => CodeLoad(OP_LD_DWORD, v);
      case PushValue(a) => CodeLoad(OP_LD_VALUE_DWORD, a);
      case Invoke(n) => CodeTwo(OP_SYSCALL, n);
      case Noop => CodeByte(OP_NOOP);
      case Operate(op) => CodeByte(OpcodeOf(op));
      case Invert => CodeByte(OP_BITWISE_DWORD);
      case Fetch => CodeByte(OP_LD_VALUE_DWORD_STACK);
      case Put => CodeByte(OP_ST_DWORD);
      case Pop => CodeByte(OP_POP);
    }

    /** The next instruction behind those already emitted over `before` from `start` on. */
    method CodeNext(i: Instr, ghost before: seq<Byte>, ghost start: nat, ghost done: seq<Instr>)
      returns (ghost more: seq<Instr>)
      requires Valid() && Emits(before, start, done)
      requires compilePc + |Bytes(i)| <= TEXT_MAX
      modifies this`compilePc, text
      ensures Valid() && compilePc == old(compilePc) + |Bytes(i)|
      ensures more == done + [i] && Emits(before, start, more)
    {
      CodeInstr(i);
      AssembleJoin(done, [i]);
      AssembleOne(i);
      PatchTwice(before, start, Assemble(done), Bytes(i));
      more := done + [i];
    }

    /** The text is `before` with the instructions written over it from `start` on. */
    ghost predicate Emits(before: seq<Byte>, start: nat, done: seq<Instr>)
      reads this, text
    {
      && |before| == TEXT_MAX
      && compilePc == start + |Assemble(done)| <= TEXT_MAX
      && text[..] == Patched(before, start, Assemble(done))
    }

    /** The variable plus or minus one, stored, and then the address fetched or popped. */
    method EmitCompute(a: Word, op: Operator, last: Instr)
      requires last == Fetch || last == Pop
      requires Valid() && compilePc + 13 <= TEXT_MAX
      modifies this`compilePc, text
      ensures Valid()
      ensures Emits(old(text[..]), old(compilePc), [PushValue(a), Push(1), Operate(op), Put, last])
    {
      ghost var loads, stores := [PushValue(a), Push(1)], [Operate(op), Put, last];
      EmitLoads(a);
      EmitStore(op, last);
      AssembleJoin(loads, stores);
      assert loads + stores == [PushValue(a), Push(1), Operate(op), Put, last];
      PatchTwice(old(text[..]), old(compilePc), Assemble(loads), Assemble(stores));
    }

    method EmitLoads(a: Word)
      requires Valid() && compilePc + 10 <= TEXT_MAX
      modifies this`compilePc, text
      ensures Valid() && compilePc == old(compilePc) + 10
      ensures Emits(old(text[..]), old(compilePc), [PushValue(a), Push(1)])
    {
      CodeInstr(PushValue(a));
      CodeInstr(Push(1));
      AssembleTwo(PushValue(a), Push(1));
      PatchTwice(old(text[..]), old(compilePc), Bytes(PushValue(a)), Bytes(Push(1)));
    }

    method EmitStore(op: Operator, last: Instr)
      requires last == Fetch || last == Pop
      requires Valid() && compilePc + 3 <= TEXT_MAX
      modifies this`compilePc, text
      ensures Valid()
      ensures Emits(old(text[..]), old(compilePc), [Operate(op), Put, last])
    {
      ghost var before, start := text[..], compilePc;
      ghost var done := CodeNext(Operate(op), before, start, []);
      done := CodeNext(Put, before, start, done);
      done := CodeNext(last, before, start, done);
      assert done == [Operate(op), Put, last];
    }

    method EmitPost(a: Word, op: Operator)
      requires Valid() && compilePc + 18 <= TEXT_MAX
      modifies this`compilePc, text
      ensures Valid()
      ensures Emits(old(text[..]), old(compilePc), [Push(a), PushValue(a), Push(1), Operate(op), Put, Pop])
    {
      ghost var more := [PushValue(a), Push(1), Operate(op), Put, Pop];
      CodeInstr(Push(a));
      EmitCompute(a, op, Pop);
      AssembleOne(Push(a));
      AssembleJoin([Push(a)], more);
      assert [Push(a)] + more == [Push(a), PushValue(a), Push(1), Operate(op), Put, Pop];
      PatchTwice(old(text[..]), old(compilePc), Bytes(Push(a)), Assemble(more));
    }

    /** A node that emits a single instruction. */
    method EmitOne(ghost t: Tree, i: Instr)
      requires t.Node? && Emitted(t) == [i]
      requires Valid() && compilePc + |Assemble(Emitted(t))| <= TEXT_MAX
      modifies this`compilePc, text
      ensures Valid() && compilePc == old(compilePc) + |Assemble(Emitted(t))|
      ensures text[..] == Patched(old(text[..]), old(compilePc), Assemble(Emitted(t)))
    {
      AssembleOne(i);
      CodeInstr(i);
    }

    /** The switch on the node type. */
    method EmitNode(t: Tree)
      requires t.Node?
      requires Valid() && compilePc + |Assemble(Emitted(t))| <= TEXT_MAX
      modifies this`compilePc, text
      ensures Valid() && compilePc == old(compilePc) + |Assemble(Emitted(t))|
      ensures text[..] == Patched(old(text[..]), old(compilePc), Assemble(Emitted(t)))
    {
      PatchNothing(text[..], compilePc);
      match t.kind
      case NodeConst(v) => EmitOne(t, Push(v));
      case NodeId(symbol) =>
        if symbol.SystemCall? {
          EmitOne(t, Push(symbol.entry));
        } else if t.isAddress {
          EmitOne(t, Push(symbol.address));
        } else {
          EmitOne(t, PushValue(symbol.address));
        }
      case NodeOp(op) => if t.data == Dword { EmitOne(t, Operate(op)); }
      case NodeNot => if t.data == Dword { EmitOne(t, Invert); }
      case NodeFunc =>
        if t.child.Node? {
          var parameters := CountSiblings(t.child.sibling);
          EmitOne(t, Invoke(parameters % 256));
        }
      case NodeAssign => EmitAssign(t);
      case NodeGetValue => if !t.isAddress && t.data == Dword { EmitOne(t, Fetch); }
      case NodeGetAddr =>
      case _ => EmitStep(t);
    }

    method EmitAssign(t: Tree)
      requires t.Node? && t.kind.NodeAssign?
      requires Valid() && compilePc + |Assemble(Emitted(t))| <= TEXT_MAX
      modifies this`compilePc, text
      ensures Valid() && compilePc == old(compilePc) + |Assemble(Emitted(t))|
      ensures text[..] == Patched(old(text[..]), old(compilePc), Assemble(Emitted(t)))
    {
      if t.child.Node? && (t.child.kind.NodeId? || t.child.kind.NodeGetValue?) && t.child.data == Dword {
        AssembleTwo(Put, Fetch);
        CodeInstr(Put);
        CodeInstr(Fetch);
        PatchTwice(old(text[..]), old(compilePc), Bytes(Put), Bytes(Fetch));
      }
    }

    /** ++ and -- in front of a variable and behind it. */
    method EmitStep(t: Tree)
      requires t.Node? && (t.kind.NodePreInc? || t.kind.NodePreDec? || t.kind.NodeInc? || t.kind.NodeDec?)
      requires Valid() && compilePc + |Assemble(Emitted(t))| <= TEXT_MAX
      modifies this`compilePc, text
      ensures Valid() && compilePc == old(compilePc) + |Assemble(Emitted(t))|
      ensures text[..] == Patched(old(text[..]), old(compilePc), Assemble(Emitted(t)))
    {
      if VariableOf(t.child).Some? && t.data == Dword {
        var a := VariableOf(t.child).value;
        StepLength(a, Add);
        StepLength(a, Sub);
        match t.kind
        case NodePreInc => EmitCompute(a, Add, Fetch);
        case NodePreDec => EmitCompute(a, Sub, Fetch);
        case NodeInc => EmitPost(a, Add);
        case NodeDec => EmitPost(a, Sub);
      }
    }

    /** The recursive compiler: child, node, sibling. */
    method CompileTree(t: Tree)
      requires Valid() && compilePc + |Assemble(Compile(t))| <= TEXT_MAX
      modifies this`compilePc, text
      ensures Valid() && compilePc == old(compilePc) + |Assemble(Compile(t))|
      ensures text[..] == Patched(old(text[..]), old(compilePc), Assemble(Compile(t)))
      decreases t
    {
      if t.Node? {
        ghost var before, start := text[..], compilePc;
        AssembleNode(t);
        CompileTree(t.child);
        EmitNode(t);
        PatchTwice(before, start, Assemble(Compile(t.child)), Assemble(Emitted(t)));
        CompileTree(t.sibling);
        PatchTwice(before, start, Assemble(Compile(t.child)) + Assemble(Emitted(t)), Assemble(Compile(t.sibling)));
      }
    }

    method ClearText()
      requires Valid()
      modifies text
      ensures text[..] == Zeros(TEXT_MAX)
    {
      var i := 0;
      while i < TEXT_MAX
        invariant 0 <= i <= TEXT_MAX
        invariant forall k :: 0 <= k < i ==> text[k] == 0
      {
        text[i] := 0;
        i := i + 1;
      }
    }

    /** Compile a whole line into the cleared text segment. */
    method CompilerRun(root: Tree)
      requires Valid() && |LineBytes(root)| <= TEXT_MAX
      modifies this`compilePc, text, stack
      ensures Valid()
      ensures compilePc == |LineBytes(root)|
      ensures text[..] == LineBytes(root) + Zeros(TEXT_MAX - compilePc)
      ensures stack[0] == 0
    {
      var statements := Mark(root, false);
      ClearText();
      stack[0] := 0;
      compilePc := 0;
      CompileStatements(statements);
      assert Zeros(TEXT_MAX)[compilePc..] == Zeros(TEXT_MAX - compilePc);
    }

    /** The loop over the statements, which cuts each one off its siblings. */
    method CompileStatements(statements: Tree)
      requires Valid() && compilePc == 0 && |Assemble(LineCode(statements))| <= TEXT_MAX
      modifies this`compilePc, text
      ensures Valid() && compilePc == |Assemble(LineCode(statements))|
      ensures text[..] == Patched(old(text[..]), 0, Assemble(LineCode(statements)))
    {
      ghost var before, line := text[..], Assemble(LineCode(statements));
      ghost var done: seq<Byte> := [];
      var sibling := statements;
      while sibling.Node?
        invariant Valid() && compilePc == |done|
        invariant line == done + Assemble(LineCode(sibling))
        invariant text[..] == Patched(before, 0, done)
        decreases sibling
      {
        ghost var code, more := Assemble(StatementCode(sibling)), Assemble(LineCode(sibling.sibling));
        AssembleJoin(StatementCode(sibling), LineCode(sibling.sibling));
        JoinThree(done, code, more);
        CompileStatement(sibling);
        PatchTwice(before, 0, done, code);
        done := done + code;
        sibling := sibling.sibling;
      }
      JoinEmpty(done);
    }

    /** One statement, and a pop when another one follows. */
    method CompileStatement(t: Tree)
      requires t.Node?
      requires Valid() && compilePc + |Assemble(StatementCode(t))| <= TEXT_MAX
      modifies this`compilePc, text
      ensures Valid() && compilePc == old(compilePc) + |Assemble(StatementCode(t))|
      ensures text[..] == Patched(old(text[..]), old(compilePc), Assemble(StatementCode(t)))
    {
      var current := t.(sibling := Null);
      if t.sibling.Null? {
        JoinEmpty(Compile(current));
        CompileTree(current);
      } else {
        AssembleJoin(Compile(current), [Pop]);
        AssembleOne(Pop);
        CompileTree(current);
        CodeInstr(Pop);
        PatchTwice(old(text[..]), old(compilePc), Assemble(Compile(current)), Bytes(Pop));
      }
    }

    // ----- the operations of the machine -----

    method OpBinary(op: Operator)
      requires Valid() && sp >= 2 && Apply(op, stack[sp - 2], stack[sp - 1]).Some?
      modifies this`sp, stack
      ensures Valid() && sp == old(sp) - 1
      ensures stack[..sp] == old(stack[..sp - 2] + [Apply(op, stack[sp - 2], stack[sp - 1]).value])
      ensures Computes(op, old(stack[sp - 2]), old(stack[sp - 1]), stack[sp - 1])
    {
      ApplyComputes(op, stack[sp - 2], stack[sp - 1]);
      stack[sp - 2] := Apply(op, stack[sp - 2], stack[sp - 1]).value;
      sp := sp - 1;
    }

    method OpNot()
      requires Valid() && sp >= 1
      modifies stack
      ensures stack[..sp] == old(stack[..sp - 1] + [Complement(stack[sp - 1])])
    {
      stack[sp - 1] := Complement(stack[sp - 1]);
    }

    method OpLoadConst()
      requires Valid() && pc + 4 <= TEXT_MAX && sp < STACK_MAX
      modifies this`sp, this`pc, stack
      ensures Valid() && sp == old(sp) + 1 && pc == old(pc) + 4
      ensures stack[..sp] == old(stack[..sp] + [Decode32(text[pc], text[pc + 1], text[pc + 2], text[pc + 3])])
    {
      stack[sp] := Decode32(text[pc], text[pc + 1], text[pc + 2], text[pc + 3]);
      sp := sp + 1;
      pc := pc + 4;
    }

    method OpLoadValue()
      requires Valid() && pc + 4 <= TEXT_MAX && sp < STACK_MAX
      requires Load(mem, Decode32(text[pc], text[pc + 1], text[pc + 2], text[pc + 3])).Some?
      modifies this`sp, this`pc, stack
      ensures Valid() && sp == old(sp) + 1 && pc == old(pc) + 4
      ensures stack[..sp]
              == old(stack[..sp] + [Load(mem, Decode32(text[pc], text[pc + 1], text[pc + 2], text[pc + 3])).value])
    {
      var a := Decode32(text[pc], text[pc + 1], text[pc + 2], text[pc + 3]);
      stack[sp] := Load(mem, a).value;
      sp := sp + 1;
      pc := pc + 4;
    }

    method OpLoadValueStack()
      requires Valid() && sp >= 1 && Load(mem, stack[sp - 1]).Some?
      modifies stack
      ensures stack[..sp] == old(stack[..sp - 1] + [Load(mem, stack[sp - 1]).value])
    {
      stack[sp - 1] := Load(mem, stack[sp - 1]).value;
    }

    /** The address stays on the stack; only the value is taken off. */
    method OpStore()
      requires Valid() && sp >= 2 && Store(mem, stack[sp - 2], stack[sp - 1]).Some?
      modifies this`sp, this`mem
      ensures Valid() && sp == old(sp) - 1
      ensures Store(old(mem), stack[sp - 1], stack[sp]) == Some(mem)
    {
      mem := Store(mem, stack[sp - 2], stack[sp - 1]).value;
      sp := sp - 1;
    }

    /** The arguments come off the stack last to first, then the function; the result replaces them. */
    method OpCall(sys: Syscalls)
      requires Valid() && pc < TEXT_MAX && text[pc] < sp && text[pc] <= CALL_MAX
      requires var base := sp - text[pc] - 1; sys(stack[base], stack[base + 1..sp], mem).Some?
      modifies this`sp, this`pc, this`mem, stack
      ensures Valid() && pc == old(pc) + 1
      ensures var base := old(sp - text[pc] - 1);
              var result := sys(old(stack[base]), old(stack[base + 1..sp]), old(mem)).value;
              sp == base + 1 && stack[..sp] == old(stack[..base]) + [result.0] && mem == result.1
    {
      var parameters := text[pc];
      pc := pc + 1;
      var args: seq<Word> := [];
      var i := 0;
      sp := sp - 1;
      while i < parameters
        invariant 0 <= i <= parameters
        invariant sp == old(sp) - 1 - i && pc == old(pc) + 1
        invariant args == stack[sp + 1..old(sp)]
        modifies this`sp
      {
        args := [stack[sp]] + args;
        sp := sp - 1;
        i := i + 1;
      }
      assert args == old(stack[..])[sp + 1..old(sp)];
      var (r, m) := sys(stack[sp], args, mem).value;
      mem := m;
      stack[sp] := r;
      sp := sp + 1;
    }

    /** One entry of the operation table, after its opcode has been fetched. */
    method Execute(sys: Syscalls, op: Byte)
      requires Valid() && 0 < pc && op == text[pc - 1]
      requires Decode(text[pc - 1..]).Some?
      requires Perform(sys, Decode(text[pc - 1..]).value.0, View()).Some?
      modifies this`sp, this`pc, this`mem, stack
      ensures Valid() && pc == old(pc) - 1 + old(Decode(text[pc - 1..]).value.1)
      ensures Some(View()) == old(Perform(sys, Decode(text[pc - 1..]).value.0, View()))
    {
      if op == OP_NOOP {
      } else if OperatorOf(op).Some? {
        assert View().stack[..sp - 2] == stack[..sp - 2];
        OpBinary(OperatorOf(op).value);
      } else if op == OP_SYSCALL {
        ExecuteCall(sys, op);
      } else if op == OP_ST_DWORD {
        assert View().stack[..sp - 1] == stack[..sp - 1];
        OpStore();
      } else if op == OP_POP {
        assert View().stack[..sp - 1] == stack[..sp - 1];
        sp := sp - 1;
      } else {
        ExecuteLoad(sys, op);
      }
    }

    method ExecuteCall(sys: Syscalls, op: Byte)
      requires Valid() && 0 < pc && op == text[pc - 1] == OP_SYSCALL
      requires Decode(text[pc - 1..]).Some?
      requires Perform(sys, Decode(text[pc - 1..]).value.0, View()).Some?
      modifies this`sp, this`pc, this`mem, stack
      ensures Valid() && pc == old(pc) - 1 + old(Decode(text[pc - 1..]).value.1)
      ensures Some(View()) == old(Perform(sys, Decode(text[pc - 1..]).value.0, View()))
    {
      ghost var base := sp - text[pc] - 1;
      assert View().stack[..base] == stack[..base];
      assert View().stack[base + 1..] == stack[base + 1..sp];
      OpCall(sys);
    }

    method ExecuteLoad(sys: Syscalls, op: Byte)
      requires Valid() && 0 < pc && op == text[pc - 1]
      requires op != OP_NOOP && OperatorOf(op).None? && op != OP_SYSCALL && op != OP_ST_DWORD && op != OP_POP
      requires Decode(text[pc - 1..]).Some?
      requires Perform(sys, Decode(text[pc - 1..]).value.0, View()).Some?
      modifies this`sp, this`pc, stack
      ensures Valid() && pc == old(pc) - 1 + old(Decode(text[pc - 1..]).value.1)
      ensures Some(View()) == old(Perform(sys, Decode(text[pc - 1..]).value.0, View()))
    {
      assert sp >= 1 ==> View().stack[..sp - 1] == stack[..sp - 1];
      if op == OP_BITWISE_DWORD {
        OpNot();
      } else if op == OP_LD_DWORD {
        OpLoadConst();
      } else if op == OP_LD_VALUE_DWORD {
        OpLoadValue();
      } else {
        OpLoadValueStack();
      }
    }

    /** The fetch loop over the text segment. */
    method VmRun(sys: Syscalls)
      requires Valid() && Exec(sys, text[..], State([], mem)).Some?
      modifies this`sp, this`pc, this`mem, stack
      ensures Valid() && pc == TEXT_MAX
      ensures View() == old(Exec(sys, text[..], State([], mem)).value)
    {
      sp, pc := 0, 0;
      assert text[0..] == text[..];
      while pc < TEXT_MAX
        invariant Valid()
        invariant Exec(sys, text[pc..], View()) == old(Exec(sys, text[..], State([], mem)))
        decreases TEXT_MAX - pc
      {
        ghost var code := text[pc..];
        ghost var k := Decode(code).value.1;
        var op := text[pc];
        pc := pc + 1;
        Execute(sys, op);
        assert code[k..] == text[pc..];
      }
    }

    /**
     A line whose statements are supported, whose tree fits the node table and whose
     code fits the text segment runs to the end whenever it has a value, leaves that
     value in slot 0 of the stack, and changes memory exactly as evaluating it does.
     */
    method RunLine(sys: Syscalls, root: Tree, ghost es: seq<Expr>)
      requires Valid() && es != [] && root == LowerList(es)
      requires NodeCount(root) <= 16 && |LineBytes(root)| <= TEXT_MAX
      requires forall i :: 0 <= i < |es| ==> Supported(es[i])
      requires EvalLine(sys, es, mem).Some?
      modifies this, text, stack
      ensures Valid() && sp == 1
      ensures EvalLine(sys, es, old(mem)) == Some((stack[0], mem))
    {
      CompilerRun(root);
      LineRuns(sys, root, es, TEXT_MAX - compilePc, mem);
      assert Exec(sys, text[..], State([], mem)) == Pushed(EvalLine(sys, es, mem), []);
      VmRun(sys);
      assert stack[0] == stack[..sp][0];
    }
  }

  method CountSiblings(t: Tree) returns (n: nat)
    ensures n == Siblings(t)
  {
    n := 0;
    var rest := t;
    while rest.Node?
      invariant n + Siblings(rest) == Siblings(t)
      decreases rest
    {
      n := n + 1;
      rest := rest.sibling;
    }
  }
}
