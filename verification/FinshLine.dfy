/** From the tokens of a line to its value: the parser, the compiler and the machine together. */
module FinshLine {
  import opened Options
  import opened FinshWords
  import opened FinshTree
  import opened FinshVm
  import opened FinshCompiler
  import opened FinshParser
  import opened FinshShell

  /** The node table has sixteen entries. */
  const NODE_MAX: nat := 16

  /**
   A line of supported statements, written without grouping parentheses and small enough
   for the node table, is parsed, compiled and run to the value of its last statement,
   which is all that is left on the stack, with the memory its evaluation leaves.
   */
  lemma PrintedLineRuns(sys: Syscalls, es: seq<Expr>, n: nat, m: Memory)
    requires es != [] && SizeList(es) <= NODE_MAX
    requires forall i :: 0 <= i < |es| ==> Plain(es[i]) && Supported(es[i])
    ensures ParseLine(PrintLine(es), NODE_MAX).Some?
    ensures Exec(sys, LineBytes(ParseLine(PrintLine(es), NODE_MAX).value) + Zeros(n), State([], m))
            == Pushed(EvalLine(sys, es, m), [])
  {
    LineRoundTrip(es, NODE_MAX);
    SizeListIsNodeCount(es);
    LineRuns(sys, LowerList(es), es, n, m);
  }

  /**
   Whatever the tokens of a line are, if they parse at all then the tree stands for some
   statements, and where those are supported the line runs to their value; an empty line
   leaves the stack empty and the memory as it was.
   */
  lemma ParsedLineRuns(sys: Syscalls, ts: Tokens, n: nat, m: Memory) returns (es: seq<Expr>)
    requires ParseLine(ts, NODE_MAX).Some?
    ensures ParseLine(ts, NODE_MAX) == Some(LowerList(es))
    ensures (forall i :: 0 <= i < |es| ==> Supported(es[i])) ==>
              Exec(sys, LineBytes(LowerList(es)) + Zeros(n), State([], m))
              == if es == [] then Some(State([], m)) else Pushed(EvalLine(sys, es, m), [])
  {
    es := LineStands(ts, NODE_MAX);
    if es == [] {
      assert LineBytes(LowerList(es)) + Zeros(n) == Zeros(n);
      ExecNoops(sys, Zeros(n), State([], m));
    } else if forall i :: 0 <= i < |es| ==> Supported(es[i]) {
      SizeListIsNodeCount(es);
      LineRuns(sys, LowerList(es), es, n, m);
    }
  }
}
