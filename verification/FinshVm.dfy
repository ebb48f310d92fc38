/** The byte code of the FinSH virtual machine and what running it does. */
module FinshVm {
  import opened Options
  import opened FinshWords
  import opened FinshTree

  const STACK_MAX: nat := 64
  const TEXT_MAX: nat := 128
  const CALL_MAX: nat := 16

  const OP_NOOP: Byte := 0x00
  const OP_BITWISE_DWORD: Byte := 0x1B
  const OP_LD_DWORD: Byte := 0x24
  const OP_LD_VALUE_DWORD: Byte := 0x27
  const OP_ST_DWORD: Byte := 0x2A
  const OP_POP: Byte := 0x2B
  const OP_SYSCALL: Byte := 0x2C
  const OP_LD_VALUE_DWORD_STACK: Byte := 0x2F

  function OpcodeOf(op: Operator): (b: Byte) {
    match op
    case Add => 0x03
    case Sub => 0x06
    case Div => 0x09
    case Mod => 0x0C
    case Mul => 0x0F
    case And => 0x12
    case Or => 0x15
    case Xor => 0x18
    case Shl => 0x1E
    case Shr => 0x21
  }

  function OperatorOf(b: Byte): (op: Option<Operator>)
    ensures op.Some? ==> OpcodeOf(op.value) == b
  {
    if b == 0x03 then Some(Add)
    else if b == 0x06 then Some(Sub)
    else if b == 0x09 then Some(Div)
    else if b == 0x0C then Some(Mod)
    else if b == 0x0F then Some(Mul)
    else if b == 0x12 then Some(And)
    else if b == 0x15 then Some(Or)
    else if b == 0x18 then Some(Xor)
    else if b == 0x1E then Some(Shl)
    else if b == 0x21 then Some(Shr)
    else None
  }

  /** The stack below the stack pointer, and the memory outside the machine. */
  datatype State = State(stack: seq<Word>, mem: Memory)

  // ----- instructions -----

  datatype Instr =
    | Noop
    | Operate(op: Operator)
    | Invert
    | Push(value: Word)
    | PushValue(address: Word)
    | Fetch
    | Put
    | Pop
    | Invoke(parameters: Byte)

  function Bytes(i: Instr): (code: seq<Byte>)
    ensures code != []
  {
    match i
    case Noop => [OP_NOOP]
    case Operate(op) => [OpcodeOf(op)]
    case Invert => [OP_BITWISE_DWORD]
    case Push(v) => [OP_LD_DWORD] + Encode32(v)
    case PushValue(a) => [OP_LD_VALUE_DWORD] + Encode32(a)
    case Fetch => [OP_LD_VALUE_DWORD_STACK]
    case Put => [OP_ST_DWORD]
    case Pop => [OP_POP]
    case Invoke(n) => [OP_SYSCALL, n]
  }

  /** The instruction at the front of the code and the number of bytes it takes. */
  function Decode(code: seq<Byte>): (r: Option<(Instr, nat)>)
    requires code != []
    ensures r.Some? ==> 0 < r.value.1 <= |code|
  {
    var op := code[0];
    if op == OP_NOOP then Some((Noop, 1))
    else if OperatorOf(op).Some? then Some((Operate(OperatorOf(op).value), 1))
    else if op == OP_BITWISE_DWORD then Some((Invert, 1))
    else if op == OP_LD_DWORD then
      if |code| < 5 then None else Some((Push(Decode32(code[1], code[2], code[3], code[4])), 5))
    else if op == OP_LD_VALUE_DWORD then
      if |code| < 5 then None else Some((PushValue(Decode32(code[1], code[2], code[3], code[4])), 5))
    else if op == OP_LD_VALUE_DWORD_STACK then Some((Fetch, 1))
    else if op == OP_ST_DWORD then Some((Put, 1))
    else if op == OP_POP then Some((Pop, 1))
    else if op == OP_SYSCALL then
      if |code| < 2 then None else Some((Invoke(code[1]), 2))
    else None
  }

  lemma DecodeBytes(i: Instr, rest: seq<Byte>)
    ensures Decode(Bytes(i) + rest) == Some((i, |Bytes(i)|))
  {
    var code := Bytes(i) + rest;
    match i
    case Push(v) =>
      DecodeEncode(v);
      assert code[1] == Encode32(v)[0] && code[2] == Encode32(v)[1];
      assert code[3] == Encode32(v)[2] && code[4] == Encode32(v)[3];
    case PushValue(a) =>
      DecodeEncode(a);
      assert code[1] == Encode32(a)[0] && code[2] == Encode32(a)[1];
      assert code[3] == Encode32(a)[2] && code[4] == Encode32(a)[3];
    case Operate(op) => assert OperatorOf(code[0]) == Some(op);
    case _ =>
  }

  /** What one instruction does. Leaving the stack, or what C leaves undefined, is a fault. */
  function Perform(sys: Syscalls, i: Instr, s: State): (r: Option<State>) {
    var n := |s.stack|;
    match i
    case Noop => Some(s)
    case Operate(op) =>
      if n < 2 then None
      else
        var v :- Apply(op, s.stack[n - 2], s.stack[n - 1]);
        Some(s.(stack := s.stack[..n - 2] + [v]))
    case Invert =>
      if n < 1 then None
      else Some(s.(stack := s.stack[..n - 1] + [Complement(s.stack[n - 1])]))
    case Push(v) => if n >= STACK_MAX then None else Some(s.(stack := s.stack + [v]))
    case PushValue(a) =>
      if n >= STACK_MAX then None
      else
        var v :- Load(s.mem, a);
        Some(s.(stack := s.stack + [v]))
    case Fetch =>
      if n < 1 then None
      else
        var v :- Load(s.mem, s.stack[n - 1]);
        Some(s.(stack := s.stack[..n - 1] + [v]))
    case Put =>
      if n < 2 then None
      else
        var m :- Store(s.mem, s.stack[n - 2], s.stack[n - 1]);
        Some(State(s.stack[..n - 1], m))
    case Pop => if n < 1 then None else Some(s.(stack := s.stack[..n - 1]))
    case Invoke(k) =>
      if n <= k || k > CALL_MAX then None
      else
        var base := n - k - 1;
        var (v, m) :- sys(s.stack[base], s.stack[base + 1..], s.mem);
        Some(State(s.stack[..base] + [v], m))
  }

  /** The stack holds 64 words, and a call takes at most 16 arguments; what needs more is a fault. */
  lemma Limits(sys: Syscalls, s: State, v: Word, k: Byte)
    ensures Perform(sys, Push(v), s) == None <==> |s.stack| >= 64
    ensures |s.stack| >= 64 ==> Perform(sys, PushValue(v), s) == None
    ensures k > 16 || k >= |s.stack| ==> Perform(sys, Invoke(k), s) == None
  {
  }

  /** Run the code to its end. There are no jumps, so every run ends. */
  function Exec(sys: Syscalls, code: seq<Byte>, s: State): (r: Option<State>)
    decreases |code|
  {
    if code == [] then Some(s)
    else
      var (i, k) :- Decode(code);
      var s' :- Perform(sys, i, s);
      Exec(sys, code[k..], s')
  }

  // ----- runs of instructions -----

  function Run(sys: Syscalls, prog: seq<Instr>, s: State): (r: Option<State>) {
    if prog == [] then Some(s)
    else
      var s' :- Perform(sys, prog[0], s);
      Run(sys, prog[1..], s')
  }

  function Assemble(prog: seq<Instr>): (code: seq<Byte>) {
    if prog == [] then [] else Bytes(prog[0]) + Assemble(prog[1..])
  }

  lemma {:induction false} AssembleJoin(a: seq<Instr>, b: seq<Instr>)
    ensures Assemble(a + b) == Assemble(a) + Assemble(b)
  {
    if a == [] {
      assert [] + b == b;
    } else {
      var first := Bytes(a[0]);
      assert (a + b)[1..] == a[1..] + b;
      AssembleJoin(a[1..], b);
      JoinThree(first, Assemble(a[1..]), Assemble(b));
    }
  }

  lemma {:induction false} RunJoin(sys: Syscalls, a: seq<Instr>, b: seq<Instr>, s: State)
    ensures Run(sys, a + b, s)
            == match Run(sys, a, s)
               case None => None
               case Some(s') => Run(sys, b, s')
    decreases |a|
  {
    if a == [] {
      assert [] + b == b;
    } else {
      assert (a + b)[1..] == a[1..] + b;
      match Perform(sys, a[0], s)
      case None =>
      case Some(s') => RunJoin(sys, a[1..], b, s');
    }
  }

  /** Bytes assembled from instructions do what the instructions do, and then the rest runs. */
  lemma {:induction false} ExecAssembled(sys: Syscalls, prog: seq<Instr>, rest: seq<Byte>, s: State)
    ensures Exec(sys, Assemble(prog) + rest, s)
            == match Run(sys, prog, s)
               case None => None
               case Some(s') => Exec(sys, rest, s')
    decreases |prog|
  {
    if prog == [] {
      assert Assemble(prog) + rest == rest;
    } else {
      var more := Assemble(prog[1..]) + rest;
      var code := Assemble(prog) + rest;
      assert code == Bytes(prog[0]) + more;
      DecodeBytes(prog[0], more);
      assert code[|Bytes(prog[0])|..] == more;
      match Perform(sys, prog[0], s)
      case None =>
      case Some(s') => ExecAssembled(sys, prog[1..], rest, s');
    }
  }

  /** The cleared part of the text segment does nothing. */
  lemma {:induction false} ExecNoops(sys: Syscalls, code: seq<Byte>, s: State)
    requires forall i :: 0 <= i < |code| ==> code[i] == OP_NOOP
    ensures Exec(sys, code, s) == Some(s)
    decreases |code|
  {
    if code != [] {
      assert Decode(code) == Some((Noop, 1));
      ExecNoops(sys, code[1..], s);
    }
  }
}
