/** The shell's recursive-descent parser, from tokens to the child/sibling tree. */
module FinshParser {
  import opened Options
  import opened FinshWords
  import opened FinshTree
  import opened FinshCompiler

  /** Names are looked up when their node is made; here a token carries what was found. */
  datatype Token =
    | Name(symbol: Symbol) | Number(value: Word) | Operation(op: Operator)
    | Tilde | PlusPlus | MinusMinus | Equals | LeftParen | RightParen | Comma | Semicolon | Bad

  /** Tokens to come. */
  datatype Tokens = End | Next(first: Token, after: Tokens)

  function Count(ts: Tokens): (n: nat) {
    if ts.End? then 0 else 1 + Count(ts.after)
  }

  /** How tightly a token binds what stands before it; negative if it ends an expression. */
  function Level(t: Token): (p: int)
    ensures -1 <= p <= 8
  {
    match t
    case Operation(op) => OperatorLevel(op)
    case Equals => 0
    case PlusPlus => 8
    case MinusMinus => 8
    case LeftParen => 8
    case _ => -1
  }

  function OperatorLevel(op: Operator): (p: nat)
    ensures 1 <= p <= 6
  {
    match op
    case Or => 1
    case Xor => 2
    case And => 3
    case Shl => 4
    case Shr => 4
    case Add => 5
    case Sub => 5
    case Mul => 6
    case Div => 6
    case Mod => 6
  }

  /** What a parsing function leaves: a tree, the tokens behind it, and the node entries still free. */
  datatype Parsed = Parsed(tree: Tree, rest: Tokens, room: nat)

  /** A node over one or two operands, which takes a free entry of the node table. */
  function Make(kind: Kind, first: Tree, second: Tree, rest: Tokens, room: nat): (r: Option<Parsed>)
    ensures r.Some? ==> r.value.rest == rest && r.value.tree.Node? && r.value.tree.sibling == Null
  {
    if room == 0 || first.Null? then None
    else Some(Parsed(Fresh(kind, first.(sibling := second), Null), rest, room - 1))
  }

  function Leaf(kind: Kind, rest: Tokens, room: nat): (r: Option<Parsed>)
    ensures r.Some? ==> r.value.rest == rest && r.value.tree.Node? && r.value.tree.sibling == Null
  {
    if room == 0 then None else Some(Parsed(Fresh(kind, Null, Null), rest, room - 1))
  }

  /** What a prefix token makes of its operand. */
  function Prefix(t: Token): (kind: Option<Kind>) {
    match t
    case Tilde => Some(NodeNot)
    case PlusPlus => Some(NodePreInc)
    case MinusMinus => Some(NodePreDec)
    case Operation(op) => if op == Mul then Some(NodeGetValue) else if op == And then Some(NodeGetAddr) else None
    case _ => None
  }

  /**
   The expression at the front that binds at least as tightly as level `p`: 0 is
   assignment, 1 to 6 the binary operators, 7 the prefix operators, 8 postfix, 9 primary.
   */
  function Parse(p: nat, ts: Tokens, room: nat): (r: Option<Parsed>)
    requires p <= 9
    ensures r.Some? ==> Count(r.value.rest) < Count(ts) && r.value.tree.Node? && r.value.tree.sibling == Null
    decreases Count(ts), 10 - p, 0
  {
    if p == 0 then
      var left :- Parse(1, ts, room);
      if left.rest.Next? && left.rest.first == Equals then
        var right :- Parse(0, left.rest.after, left.room);
        Make(NodeAssign, left.tree, right.tree, right.rest, right.room)
      else Some(left)
    else if p <= 6 then
      var left :- Parse(p + 1, ts, room);
      Tail(p, left)
    else if p == 7 then Unary(ts, room)
    else if p == 8 then
      var left :- Parse(9, ts, room);
      PostTail(left)
    else Primary(ts, room)
  }

  /** A parenthesis at the front is taken to open a cast, and no token of this model names a type. */
  function Unary(ts: Tokens, room: nat): (r: Option<Parsed>)
    ensures r.Some? ==> Count(r.value.rest) < Count(ts) && r.value.tree.Node? && r.value.tree.sibling == Null
    decreases Count(ts), 2, 1
  {
    if ts.End? || ts.first == LeftParen then None
    else if ts.first == Operation(Add) then Parse(7, ts.after, room)
    else if ts.first == Operation(Sub) then
      var arg :- Parse(7, ts.after, room);
      var zero :- Leaf(NodeConst(0), arg.rest, arg.room);
      Make(NodeOp(Sub), zero.tree, arg.tree, zero.rest, zero.room)
    else
      match Prefix(ts.first)
      case None => Parse(8, ts, room)
      case Some(kind) =>
        var arg :- Parse(7, ts.after, room);
        Make(kind, arg.tree, Null, arg.rest, arg.room)
  }

  function Primary(ts: Tokens, room: nat): (r: Option<Parsed>)
    ensures r.Some? ==> Count(r.value.rest) < Count(ts) && r.value.tree.Node? && r.value.tree.sibling == Null
    decreases Count(ts), 0, 0
  {
    if ts.End? then None
    else
      match ts.first
      case Name(symbol) => Leaf(NodeId(symbol), ts.after, room)
      case Number(value) => Leaf(NodeConst(value), ts.after, room)
      case LeftParen =>
        var inner :- Parse(0, ts.after, room);
        if inner.rest.End? || inner.rest.first != RightParen then None
        else Some(inner.(rest := inner.rest.after))
      case _ => None
  }

  /** The loop over the operators of level `p`, which groups them to the left. */
  function Tail(p: nat, left: Parsed): (r: Option<Parsed>)
    requires 1 <= p <= 6 && left.tree.Node? && left.tree.sibling == Null
    ensures r.Some? ==> Count(r.value.rest) <= Count(left.rest) && r.value.tree.Node? && r.value.tree.sibling == Null
    decreases Count(left.rest), 10, 0
  {
    if left.rest.Next? && Level(left.rest.first) == p then
      var right :- Parse(p + 1, left.rest.after, left.room);
      var both :- Make(NodeOp(left.rest.first.op), left.tree, right.tree, right.rest, right.room);
      Tail(p, both)
    else Some(left)
  }

  /** The loop over what may follow a primary expression. */
  function PostTail(left: Parsed): (r: Option<Parsed>)
    requires left.tree.Node? && left.tree.sibling == Null
    ensures r.Some? ==> Count(r.value.rest) <= Count(left.rest) && r.value.tree.Node? && r.value.tree.sibling == Null
    decreases Count(left.rest), 10, 0
  {
    if left.rest.End? then Some(left)
    else
      match left.rest.first
      case PlusPlus =>
        var more :- Make(NodeInc, left.tree, Null, left.rest.after, left.room);
        PostTail(more)
      case MinusMinus =>
        var more :- Make(NodeDec, left.tree, Null, left.rest.after, left.room);
        PostTail(more)
      case LeftParen =>
        var args :- Arguments(left.rest.after, left.room);
        var more :- Make(NodeFunc, left.tree, args.tree, args.rest, args.room);
        PostTail(more)
      case _ => Some(left)
  }

  /** Arguments up to the closing parenthesis, as a chain of siblings. */
  function Arguments(ts: Tokens, room: nat): (r: Option<Parsed>)
    ensures r.Some? ==> Count(r.value.rest) < Count(ts)
    decreases Count(ts), 12, 0
  {
    if ts.End? then None
    else if ts.first == RightParen then Some(Parsed(Null, ts.after, room))
    else List(ts, room)
  }

  function List(ts: Tokens, room: nat): (r: Option<Parsed>)
    ensures r.Some? ==> Count(r.value.rest) < Count(ts) && r.value.tree.Node?
    decreases Count(ts), 11, 0
  {
    var first :- Parse(0, ts, room);
    if first.rest.End? then None
    else if first.rest.first == RightParen then Some(Parsed(first.tree, first.rest.after, first.room))
    else if first.rest.first == Comma then
      var more :- List(first.rest.after, first.room);
      Some(Parsed(first.tree.(sibling := more.tree), more.rest, more.room))
    else None
  }

  // ----- printing -----

  /** The level of an expression's outermost operator. */
  function LevelOf(e: Expr): (p: nat)
    ensures p <= 9
  {
    match e
    case Const(_) => 9
    case Id(_) => 9
    case PostInc(_) => 8
    case PostDec(_) => 8
    case Call(_, _) => 8
    case Binary(op, _, _) => OperatorLevel(op)
    case Assign(_, _) => 0
    case _ => 7
  }

  /** The operands bind tightly enough to be written without parentheses. */
  predicate Plain(e: Expr) {
    match e
    case Const(_) => true
    case Id(_) => true
    case PostInc(arg) => Plain(arg) && LevelOf(arg) >= 8
    case PostDec(arg) => Plain(arg) && LevelOf(arg) >= 8
    case Call(callee, args) =>
      Plain(callee) && LevelOf(callee) >= 8 && forall i :: 0 <= i < |args| ==> Plain(args[i])
    case Binary(op, left, right) =>
      Plain(left) && Plain(right) && LevelOf(left) >= OperatorLevel(op) && LevelOf(right) > OperatorLevel(op)
    case Assign(target, source) => Plain(target) && Plain(source) && LevelOf(target) >= 1
    case _ => Plain(e.arg) && LevelOf(e.arg) >= 7
  }

  function PrefixToken(e: Expr): (t: Token) {
    match e
    case Not(_) => Tilde
    case PreInc(_) => PlusPlus
    case PreDec(_) => MinusMinus
    case Deref(_) => Operation(Mul)
    case _ => Operation(And)
  }

  /** The tokens of an expression, in front of others. */
  function Print(e: Expr, rest: Tokens): (ts: Tokens)
    ensures ts.Next?
    decreases e, 0
  {
    match e
    case Const(v) => Next(Number(v), rest)
    case Id(symbol) => Next(Name(symbol), rest)
    case PostInc(arg) => Print(arg, Next(PlusPlus, rest))
    case PostDec(arg) => Print(arg, Next(MinusMinus, rest))
    case Call(callee, args) => Print(callee, Next(LeftParen, PrintList(args, rest)))
    case Binary(op, left, right) => Print(left, Next(Operation(op), Print(right, rest)))
    case Assign(target, source) => Print(target, Next(Equals, Print(source, rest)))
    case _ => Next(PrefixToken(e), Print(e.arg, rest))
  }

  /** Arguments and the closing parenthesis. */
  function PrintList(es: seq<Expr>, rest: Tokens): (ts: Tokens)
    ensures ts.Next?
    decreases es, 1
  {
    if es == [] then Next(RightParen, rest)
    else if |es| == 1 then Print(es[0], Next(RightParen, rest))
    else Print(es[0], Next(Comma, PrintList(es[1..], rest)))
  }

  // ----- parsing what was printed -----

  /** The token at the front, if any, does not go on with an expression of level `p`. */
  predicate Stops(p: nat, rest: Tokens) {
    rest.End? || Level(rest.first) < p
  }

  ghost function Done(e: Expr, rest: Tokens, room: nat): (r: Parsed)
    requires Size(e) <= room
  {
    Parsed(Lower(e, Null), rest, room - Size(e))
  }

  /** A tight expression starts with a name or a number. */
  lemma {:induction false} StartsPrimary(e: Expr, rest: Tokens)
    requires Plain(e) && LevelOf(e) >= 8
    ensures Print(e, rest).first.Name? || Print(e, rest).first.Number?
  {
    match e
    case Const(_) =>
    case Id(_) =>
    case PostInc(arg) => StartsPrimary(arg, Next(PlusPlus, rest));
    case PostDec(arg) => StartsPrimary(arg, Next(MinusMinus, rest));
    case Call(callee, args) => StartsPrimary(callee, Next(LeftParen, PrintList(args, rest)));
  }

  /** No expression starts with a closing parenthesis, a semicolon or a bad token. */
  lemma {:induction false} NotParen(e: Expr, rest: Tokens)
    ensures Print(e, rest).first !in {RightParen, Semicolon, Bad}
  {
    match e
    case Const(_) =>
    case Id(_) =>
    case PostInc(arg) => NotParen(arg, Next(PlusPlus, rest));
    case PostDec(arg) => NotParen(arg, Next(MinusMinus, rest));
    case Call(callee, args) => NotParen(callee, Next(LeftParen, PrintList(args, rest)));
    case Binary(op, left, right) => NotParen(left, Next(Operation(op), Print(right, rest)));
    case Assign(target, source) => NotParen(target, Next(Equals, Print(source, rest)));
    case _ =>
  }

  /** Parsing at the expression's own level or below takes exactly its tokens. */
  lemma {:induction false} ParsePrinted(e: Expr, p: nat, rest: Tokens, room: nat)
    requires Plain(e) && p <= LevelOf(e) && Stops(p, rest) && Size(e) <= room
    ensures Parse(p, Print(e, rest), room) == Some(Done(e, rest, room))
    decreases e, 10 - p, 1
  {
    if p == 0 {
      ParseAssign(e, rest, room);
    } else if p <= 6 {
      ParseOperand(e, p, rest, room);
    } else if p == 7 {
      ParseUnary(e, rest, room);
    } else if p == 8 {
      ParsePostfix(e, rest, room);
    } else {
      ParsePrimary(e, rest, room);
    }
  }

  lemma ParsePrimary(e: Expr, rest: Tokens, room: nat)
    requires LevelOf(e) == 9 && room > 0
    ensures Size(e) == 1 && Parse(9, Print(e, rest), room) == Some(Done(e, rest, room))
  {
    assert Operands(e) == Null;
  }

  /** The node made over the operands' trees is the tree of the expression. */
  lemma MadeTwo(e: Expr, rest: Tokens, room: nat)
    requires (e.Binary? || e.Assign?) && room > 0
    ensures var (first, second) := if e.Binary? then (e.left, e.right) else (e.target, e.source);
            && Make(KindOf(e), Lower(first, Null), Lower(second, Null), rest, room)
               == Some(Parsed(Lower(e, Null), rest, room - 1))
            && Size(e) == 1 + Size(first) + Size(second)
  {
    if e.Binary? {
      assert Operands(e) == Lower(e.left, Lower(e.right, Null));
    } else {
      assert Operands(e) == Lower(e.target, Lower(e.source, Null));
    }
  }

  lemma MadeOne(e: Expr, rest: Tokens, room: nat)
    requires (LevelOf(e) == 7 || e.PostInc? || e.PostDec?) && room > 0
    ensures Make(KindOf(e), Lower(e.arg, Null), Null, rest, room) == Some(Parsed(Lower(e, Null), rest, room - 1))
    ensures Size(e) == 1 + Size(e.arg)
  {
    assert Operands(e) == Lower(e.arg, Null);
  }

  lemma MadeCall(e: Expr, rest: Tokens, room: nat)
    requires e.Call? && room > 0
    ensures Make(NodeFunc, Lower(e.callee, Null), LowerList(e.args), rest, room)
            == Some(Parsed(Lower(e, Null), rest, room - 1))
    ensures Size(e) == 1 + Size(e.callee) + SizeList(e.args)
  {
    assert Operands(e) == Lower(e.callee, LowerList(e.args));
  }

  /** Up to the operators of its level, an expression is parsed as the left operand of what follows. */
  lemma {:induction false} ParseOperand(e: Expr, p: nat, rest: Tokens, room: nat)
    requires Plain(e) && 1 <= p <= 6 && p <= LevelOf(e) && Stops(p + 1, rest) && Size(e) <= room
    ensures Parse(p, Print(e, rest), room) == Tail(p, Done(e, rest, room))
    decreases e, 10 - p, 0
  {
    if LevelOf(e) == p {
      var after := Next(Operation(e.op), Print(e.right, rest));
      MadeTwo(e, rest, room - Size(e.left) - Size(e.right));
      ParseOperand(e.left, p, after, room);
      ParsePrinted(e.right, p + 1, rest, room - Size(e.left));
      TailStep(p, Done(e.left, after, room), Done(e.right, rest, room - Size(e.left)), Done(e, rest, room));
    } else {
      ParsePrinted(e, p + 1, rest, room);
      TailStart(p, Print(e, rest), room, Done(e, rest, room));
    }
  }

  lemma TailStart(p: nat, ts: Tokens, room: nat, left: Parsed)
    requires 1 <= p <= 6 && left.tree.Node? && left.tree.sibling == Null && Parse(p + 1, ts, room) == Some(left)
    ensures Parse(p, ts, room) == Tail(p, left)
  {
  }

  lemma TailStep(p: nat, left: Parsed, right: Parsed, both: Parsed)
    requires 1 <= p <= 6 && left.tree.Node? && left.tree.sibling == Null
    requires left.rest.Next? && Level(left.rest.first) == p
    requires Parse(p + 1, left.rest.after, left.room) == Some(right)
    requires Make(NodeOp(left.rest.first.op), left.tree, right.tree, right.rest, right.room) == Some(both)
    ensures Tail(p, left) == Tail(p, both)
  {
  }

  lemma {:induction false} ParseAssign(e: Expr, rest: Tokens, room: nat)
    requires Plain(e) && Stops(0, rest) && Size(e) <= room
    ensures Parse(0, Print(e, rest), room) == Some(Done(e, rest, room))
    decreases e, 10, 0
  {
    if e.Assign? {
      AssignPrinted(e, rest);
      AssignDone(e, e.target, e.source, rest, room);
    } else {
      ParsePrinted(e, 1, rest, room);
      AssignPass(Print(e, rest), room, Done(e, rest, room));
    }
  }

  lemma AssignPrinted(e: Expr, rest: Tokens)
    requires Plain(e) && e.Assign?
    ensures Plain(e.target) && Plain(e.source) && LevelOf(e.target) >= 1
    ensures Print(e, rest) == Print(e.target, Next(Equals, Print(e.source, rest)))
    ensures Size(e) == 1 + Size(e.target) + Size(e.source)
  {
    MadeTwo(e, rest, 1);
  }

  lemma {:induction false} AssignDone(e: Expr, target: Expr, source: Expr, rest: Tokens, room: nat)
    requires e == Assign(target, source) && Stops(0, rest) && Size(e) == 1 + Size(target) + Size(source) <= room
    requires Plain(target) && Plain(source) && LevelOf(target) >= 1
    ensures Parse(0, Print(target, Next(Equals, Print(source, rest))), room) == Some(Done(e, rest, room))
    decreases e, 0, 0
  {
    var left := Done(target, Next(Equals, Print(source, rest)), room);
    ParsePrinted(target, 1, left.rest, room);
    ParsePrinted(source, 0, rest, left.room);
    MadeTwo(e, rest, left.room - Size(source));
    AssignStep(Print(target, left.rest), room, left, Done(source, rest, left.room), Done(e, rest, room));
  }

  lemma AssignPass(ts: Tokens, room: nat, left: Parsed)
    requires Parse(1, ts, room) == Some(left) && (left.rest.Next? ==> left.rest.first != Equals)
    ensures Parse(0, ts, room) == Some(left)
  {
  }

  lemma AssignStep(ts: Tokens, room: nat, left: Parsed, right: Parsed, both: Parsed)
    requires Parse(1, ts, room) == Some(left) && left.rest.Next? && left.rest.first == Equals
    requires Parse(0, left.rest.after, left.room) == Some(right)
    requires Make(NodeAssign, left.tree, right.tree, right.rest, right.room) == Some(both)
    ensures Parse(0, ts, room) == Some(both)
  {
  }

  lemma {:induction false} ParseUnary(e: Expr, rest: Tokens, room: nat)
    requires Plain(e) && LevelOf(e) >= 7 && Stops(7, rest) && Size(e) <= room
    ensures Parse(7, Print(e, rest), room) == Some(Done(e, rest, room))
    decreases e, 3, 0
  {
    if LevelOf(e) == 7 {
      ParsePrefix(e, rest, room);
    } else {
      StartsPrimary(e, rest);
      ParsePrinted(e, 8, rest, room);
      UnaryPass(Print(e, rest), room);
    }
  }

  lemma {:induction false} ParsePrefix(e: Expr, rest: Tokens, room: nat)
    requires Plain(e) && LevelOf(e) == 7 && Stops(7, rest) && Size(e) <= room
    ensures Parse(7, Print(e, rest), room) == Some(Done(e, rest, room))
    decreases e, 2, 0
  {
    PrefixPrinted(e, rest);
    PrefixDone(e, e.arg, rest, room, room - Size(e.arg));
  }

  lemma {:induction false} PrefixDone(e: Expr, arg: Expr, rest: Tokens, room: nat, left: nat)
    requires LevelOf(e) == 7 && e.arg == arg && Prefix(PrefixToken(e)) == Some(KindOf(e))
    requires Plain(arg) && LevelOf(arg) >= 7 && Stops(7, rest) && Size(arg) + left == room && left > 0
    ensures Parse(7, Next(PrefixToken(e), Print(arg, rest)), room) == Some(Parsed(Lower(e, Null), rest, left - 1))
    decreases e, 1, 0
  {
    ParsePrinted(arg, 7, rest, room);
    PrefixMade(e, arg, Print(arg, rest), rest, room, left);
  }

  lemma PrefixPrinted(e: Expr, rest: Tokens)
    requires Plain(e) && LevelOf(e) == 7
    ensures Plain(e.arg) && LevelOf(e.arg) >= 7
    ensures Print(e, rest) == Next(PrefixToken(e), Print(e.arg, rest))
    ensures Prefix(PrefixToken(e)) == Some(KindOf(e)) && Size(e) == 1 + Size(e.arg)
  {
  }

  lemma PrefixMade(e: Expr, arg: Expr, ts: Tokens, rest: Tokens, room: nat, left: nat)
    requires LevelOf(e) == 7 && e.arg == arg && left > 0 && Prefix(PrefixToken(e)) == Some(KindOf(e))
    requires Parse(7, ts, room) == Some(Parsed(Lower(arg, Null), rest, left))
    ensures Parse(7, Next(PrefixToken(e), ts), room) == Some(Parsed(Lower(e, Null), rest, left - 1))
  {
    MadeOne(e, rest, left);
    UnaryStep(Next(PrefixToken(e), ts), room, KindOf(e), Parsed(Lower(arg, Null), rest, left),
              Parsed(Lower(e, Null), rest, left - 1));
  }

  lemma UnaryPass(ts: Tokens, room: nat)
    requires ts.Next? && (ts.first.Name? || ts.first.Number?)
    ensures Parse(7, ts, room) == Parse(8, ts, room)
  {
  }

  lemma UnaryStep(ts: Tokens, room: nat, kind: Kind, arg: Parsed, made: Parsed)
    requires ts.Next? && Prefix(ts.first) == Some(kind)
    requires Parse(7, ts.after, room) == Some(arg) && Make(kind, arg.tree, Null, arg.rest, arg.room) == Some(made)
    ensures Parse(7, ts, room) == Some(made)
  {
  }

  lemma {:induction false} ParsePostfix(e: Expr, rest: Tokens, room: nat)
    requires Plain(e) && LevelOf(e) >= 8 && Size(e) <= room
    ensures Parse(8, Print(e, rest), room) == PostTail(Done(e, rest, room))
    decreases e, 2, 0
  {
    match e
    case Const(_) => ParsePrimary(e, rest, room);
    case Id(_) => ParsePrimary(e, rest, room);
    case PostInc(arg) =>
      MadeOne(e, rest, room - Size(arg));
      ParsePostfix(arg, Next(PlusPlus, rest), room);
    case PostDec(arg) =>
      MadeOne(e, rest, room - Size(arg));
      ParsePostfix(arg, Next(MinusMinus, rest), room);
    case Call(_, _) => ParseCall(e, rest, room);
  }

  lemma {:induction false} ParseCall(e: Expr, rest: Tokens, room: nat)
    requires Plain(e) && e.Call? && Size(e) <= room
    ensures Parse(8, Print(e, rest), room) == PostTail(Done(e, rest, room))
    decreases e, 1, 0
  {
    CallPrinted(e, rest);
    CallDone(e, e.callee, e.args, rest, room, room - Size(e) + 1);
  }

  lemma CallPrinted(e: Expr, rest: Tokens)
    requires Plain(e) && e.Call?
    ensures Plain(e.callee) && LevelOf(e.callee) >= 8 && (forall i :: 0 <= i < |e.args| ==> Plain(e.args[i]))
    ensures Print(e, rest) == Print(e.callee, Next(LeftParen, PrintList(e.args, rest)))
    ensures Size(e) == 1 + Size(e.callee) + SizeList(e.args)
  {
    MadeCall(e, rest, 1);
  }

  lemma {:induction false} CallDone(e: Expr, callee: Expr, args: seq<Expr>, rest: Tokens, room: nat, left: nat)
    requires e == Call(callee, args) && left > 0 && Size(callee) + SizeList(args) + left == room
    requires Plain(callee) && LevelOf(callee) >= 8 && (forall i :: 0 <= i < |args| ==> Plain(args[i]))
    ensures Parse(8, Print(callee, Next(LeftParen, PrintList(args, rest))), room)
            == PostTail(Parsed(Lower(e, Null), rest, left - 1))
    decreases e, 0, 1
  {
    var after := Next(LeftParen, PrintList(args, rest));
    var called := Done(callee, after, room);
    ParsePostfix(callee, after, room);
    ParseArguments(args, rest, called.room);
    CallMade(callee, args, called, rest, left);
  }

  lemma CallMade(callee: Expr, args: seq<Expr>, called: Parsed, rest: Tokens, left: nat)
    requires left > 0 && called.tree == Lower(callee, Null)
    requires called.rest.Next? && called.rest.first == LeftParen
    requires Arguments(called.rest.after, called.room) == Some(Parsed(LowerList(args), rest, left))
    ensures PostTail(called) == PostTail(Parsed(Lower(Call(callee, args), Null), rest, left - 1))
  {
    var e := Call(callee, args);
    MadeCall(e, rest, left);
    CallStep(called, Parsed(LowerList(args), rest, left), Parsed(Lower(e, Null), rest, left - 1));
  }

  lemma CallStep(left: Parsed, args: Parsed, more: Parsed)
    requires left.tree.Node? && left.tree.sibling == Null && left.rest.Next? && left.rest.first == LeftParen
    requires Arguments(left.rest.after, left.room) == Some(args)
    requires Make(NodeFunc, left.tree, args.tree, args.rest, args.room) == Some(more)
    ensures PostTail(left) == PostTail(more)
  {
  }

  lemma {:induction false} ParseArguments(es: seq<Expr>, rest: Tokens, room: nat)
    requires (forall i :: 0 <= i < |es| ==> Plain(es[i])) && SizeList(es) <= room
    ensures Arguments(PrintList(es, rest), room) == Some(Parsed(LowerList(es), rest, room - SizeList(es)))
    decreases es, 1, 0
  {
    if es != [] {
      NotParen(es[0], if |es| == 1 then Next(RightParen, rest) else Next(Comma, PrintList(es[1..], rest)));
      ParseList(es, rest, room);
    }
  }

  lemma {:induction false} ParseList(es: seq<Expr>, rest: Tokens, room: nat)
    requires es != [] && (forall i :: 0 <= i < |es| ==> Plain(es[i])) && SizeList(es) <= room
    ensures List(PrintList(es, rest), room) == Some(Parsed(LowerList(es), rest, room - SizeList(es)))
    decreases es, 0, 0
  {
    ListUnfolds(es, rest);
    if |es| == 1 {
      ParseLast(es[0], rest, room);
    } else {
      var tail, left := es[1..], room - Size(es[0]);
      ParseList(tail, rest, left);
      ParseOthers(es[0], LowerList(tail), PrintList(tail, rest), rest, room, left, left - SizeList(tail));
    }
  }

  lemma {:induction false} ParseOthers(e: Expr, tree: Tree, others: Tokens, rest: Tokens, room: nat, left: nat,
                                       spare: nat)
    requires Plain(e) && Size(e) + left == room && List(others, left) == Some(Parsed(tree, rest, spare))
    ensures List(Print(e, Next(Comma, others)), room) == Some(Parsed(Lower(e, tree), rest, spare))
    decreases e, 12, 0
  {
    ParseThen(e, others, room, left, Parsed(tree, rest, spare));
  }

  lemma {:induction false} ParseLast(e: Expr, rest: Tokens, room: nat)
    requires Plain(e) && Size(e) <= room
    ensures List(Print(e, Next(RightParen, rest)), room) == Some(Done(e, rest, room))
    decreases e, 11, 0
  {
    ParsePrinted(e, 0, Next(RightParen, rest), room);
    ListEnd(Print(e, Next(RightParen, rest)), room, Done(e, Next(RightParen, rest), room));
  }

  lemma {:induction false} ParseThen(e: Expr, others: Tokens, room: nat, left: nat, more: Parsed)
    requires Plain(e) && Size(e) + left == room && List(others, left) == Some(more)
    ensures List(Print(e, Next(Comma, others)), room) == Some(Parsed(Lower(e, more.tree), more.rest, more.room))
    decreases e, 11, 0
  {
    var first := Done(e, Next(Comma, others), room);
    ParsePrinted(e, 0, first.rest, room);
    Attached(e, more.tree);
    ListGoesOn(Print(e, first.rest), room, first, more);
  }

  /** A tree with siblings behind it. */
  lemma Attached(e: Expr, more: Tree)
    ensures Lower(e, Null).Node? && Lower(e, Null).(sibling := more) == Lower(e, more)
  {
  }

  /** A list by its first element and the others. */
  lemma ListUnfolds(es: seq<Expr>, rest: Tokens)
    requires es != []
    ensures var tail := es[1..];
            && SizeList(es) == Size(es[0]) + SizeList(tail)
            && LowerList(es) == Lower(es[0], LowerList(tail))
            && (|es| == 1 ==> SizeList(tail) == 0 && LowerList(tail) == Null)
            && PrintList(es, rest)
               == Print(es[0], if |es| == 1 then Next(RightParen, rest) else Next(Comma, PrintList(tail, rest)))
  {
    assert |es| == 1 ==> es[1..] == [];
  }

  lemma ListEnd(ts: Tokens, room: nat, first: Parsed)
    requires Parse(0, ts, room) == Some(first) && first.rest.Next? && first.rest.first == RightParen
    ensures List(ts, room) == Some(first.(rest := first.rest.after))
  {
  }

  lemma ListGoesOn(ts: Tokens, room: nat, first: Parsed, more: Parsed)
    requires Parse(0, ts, room) == Some(first) && first.rest.Next? && first.rest.first == Comma
    requires List(first.rest.after, first.room) == Some(more)
    ensures first.tree.Node? && List(ts, room) == Some(Parsed(first.tree.(sibling := more.tree), more.rest, more.room))
  {
  }

  /** In parentheses an expression is parsed as a primary one exactly if the parenthesis is closed behind it. */
  lemma GroupedPrimary(ts: Tokens, room: nat)
    ensures var inner := Parse(0, ts, room);
            Parse(9, Next(LeftParen, ts), room)
            == if inner.Some? && inner.value.rest.Next? && inner.value.rest.first == RightParen
               then Some(inner.value.(rest := inner.value.rest.after)) else None
  {
  }

  // ----- precedence -----

  /** The rows of C's table of binary operators, from the top. */
  function TableRow(op: Operator): (row: nat) {
    if op in {Mul, Div, Mod} then 0
    else if op in {Add, Sub} then 1
    else if op in {Shl, Shr} then 2
    else if op == And then 3
    else if op == Xor then 4
    else 5
  }

  /** Of two operators the one higher in the table takes the middle operand; in one row the left one does. */
  lemma Precedence(first: Operator, second: Operator, a: Expr, b: Expr, c: Expr, rest: Tokens, room: nat)
    requires (a.Id? || a.Const?) && (b.Id? || b.Const?) && (c.Id? || c.Const?) && Stops(0, rest) && room >= 5
    ensures var e := if TableRow(second) < TableRow(first) then Binary(first, a, Binary(second, b, c))
                     else Binary(second, Binary(first, a, b), c);
            Parse(0, Print(a, Next(Operation(first), Print(b, Next(Operation(second), Print(c, rest))))), room)
            == Some(Parsed(Lower(e, Null), rest, room - 5))
  {
    RowsAreLevels(first, second);
    if TableRow(second) < TableRow(first) {
      Nested(first, a, Binary(second, b, c), rest, room);
    } else {
      Nested(second, Binary(first, a, b), c, rest, room);
    }
  }

  lemma RowsAreLevels(x: Operator, y: Operator)
    ensures TableRow(x) < TableRow(y) <==> OperatorLevel(x) > OperatorLevel(y)
  {
  }

  lemma Nested(op: Operator, left: Expr, right: Expr, rest: Tokens, room: nat)
    requires Plain(left) && Plain(right) && LevelOf(left) >= OperatorLevel(op) && LevelOf(right) > OperatorLevel(op)
    requires Stops(0, rest) && Size(left) + Size(right) == 4 && room >= 5
    ensures Parse(0, Print(left, Next(Operation(op), Print(right, rest))), room)
            == Some(Parsed(Lower(Binary(op, left, right), Null), rest, room - 5))
  {
    var e := Binary(op, left, right);
    MadeTwo(e, rest, 1);
    ParsePrinted(e, 0, rest, room);
  }

  // ----- a line of statements -----

  /** No more statements: the end of the line, or a token that is none. */
  predicate LineEnds(ts: Tokens) {
    ts.End? || ts.first == Bad
  }

  function Behind(ts: Tokens): (r: Tokens)
    ensures Count(r) <= Count(ts)
  {
    if ts.End? then End else ts.after
  }

  /**
   Statements, each ended by a semicolon, as a chain of siblings. A line that starts with a
   semicolon is empty, whatever follows.
   */
  function ParseLine(ts: Tokens, room: nat): (r: Option<Tree>)
    decreases Count(ts), 0
  {
    if LineEnds(ts) || ts.first == Semicolon then Some(Null)
    else
      var first :- Parse(0, ts, room);
      if first.rest.End? || first.rest.first != Semicolon then None
      else
        var more :- MoreStatements(first.rest.after, first.room);
        Some(first.tree.(sibling := more))
  }

  /** Behind the first statement an empty one takes the token that follows it along. */
  function MoreStatements(ts: Tokens, room: nat): (r: Option<Tree>)
    decreases Count(ts), 1
  {
    if ts.Next? && ts.first == Semicolon then MoreStatements(Behind(ts.after), room) else ParseLine(ts, room)
  }

  function PrintLine(es: seq<Expr>): (ts: Tokens)
    requires es != []
    ensures ts.Next?
  {
    Print(es[0], Next(Semicolon, if |es| == 1 then End else PrintLine(es[1..])))
  }

  /** A line that was printed is parsed to the tree it was printed from, if the node table holds it. */
  lemma {:induction false} LineRoundTrip(es: seq<Expr>, room: nat)
    requires es != [] && (forall i :: 0 <= i < |es| ==> Plain(es[i])) && SizeList(es) <= room
    ensures ParseLine(PrintLine(es), room) == Some(LowerList(es))
    decreases |es|
  {
    var tail, left := es[1..], room - Size(es[0]);
    ListUnfolds(es, End);
    StatementThen(es[0], if |es| == 1 then End else PrintLine(tail), room);
    if |es| > 1 {
      LineStart(tail);
      LineRoundTrip(tail, left);
    }
  }

  lemma LineStart(es: seq<Expr>)
    requires es != []
    ensures PrintLine(es).first !in {Semicolon, Bad}
  {
    NotParen(es[0], Next(Semicolon, if |es| == 1 then End else PrintLine(es[1..])));
  }

  // ----- empty statements -----

  /** The chain of a statement and those that were parsed behind it. */
  function Chained(e: Expr, more: Option<Tree>): (r: Option<Tree>) {
    match more
    case None => None
    case Some(others) => Some(Lower(e, others))
  }

  /** A statement and what is behind its semicolon. */
  lemma StatementThen(e: Expr, others: Tokens, room: nat)
    requires Plain(e) && Size(e) <= room
    ensures ParseLine(Print(e, Next(Semicolon, others)), room) == Chained(e, MoreStatements(others, room - Size(e)))
  {
    var after := Next(Semicolon, others);
    ParsePrinted(e, 0, after, room);
    NotParen(e, after);
    FirstThen(e, Print(e, after), others, room, room - Size(e));
  }

  lemma FirstThen(e: Expr, ts: Tokens, others: Tokens, room: nat, left: nat)
    requires ts.Next? && ts.first !in {Semicolon, Bad}
    requires Parse(0, ts, room) == Some(Parsed(Lower(e, Null), Next(Semicolon, others), left))
    ensures ParseLine(ts, room) == Chained(e, MoreStatements(others, left))
  {
    var more := MoreStatements(others, left);
    if more.Some? {
      Attached(e, more.value);
    }
  }

  /** Semicolons in front of tokens. */
  function Semicolons(n: nat, ts: Tokens): (r: Tokens) {
    if n == 0 then ts else Next(Semicolon, Semicolons(n - 1, ts))
  }

  /** Behind a statement, extra semicolons take each other along; one that is left over takes the next token. */
  lemma {:induction false} ExtraSemicolons(n: nat, ts: Tokens, room: nat)
    ensures MoreStatements(Semicolons(n, ts), room) == MoreStatements(if n % 2 == 0 then ts else Behind(ts), room)
    decreases n
  {
    if n > 0 {
      SemicolonTakes(Semicolons(n - 1, ts), room);
    }
    if n >= 2 {
      ExtraSemicolons(n - 2, ts, room);
    }
  }

  lemma SemicolonTakes(ts: Tokens, room: nat)
    ensures MoreStatements(Next(Semicolon, ts), room) == MoreStatements(Behind(ts), room)
  {
  }

  /** An odd number of extra semicolons between two statements hides the token the second begins with. */
  lemma EmptyStatement(e: Expr, n: nat, ts: Tokens, room: nat)
    requires Plain(e) && Size(e) <= room
    ensures ParseLine(Print(e, Next(Semicolon, Semicolons(n, ts))), room)
            == Chained(e, MoreStatements(if n % 2 == 0 then ts else Behind(ts), room - Size(e)))
  {
    StatementThen(e, Semicolons(n, ts), room);
    ExtraSemicolons(n, ts, room - Size(e));
  }

  /** A line whose statement `i` has `extra[i]` semicolons more than it needs. */
  function PrintSpaced(es: seq<Expr>, extra: seq<nat>): (ts: Tokens)
    requires es != [] && |extra| == |es|
    ensures ts.Next?
  {
    var others := if |es| == 1 then End else PrintSpaced(es[1..], extra[1..]);
    Print(es[0], Next(Semicolon, Semicolons(extra[0], others)))
  }

  lemma SpacedStart(es: seq<Expr>, extra: seq<nat>)
    requires es != [] && |extra| == |es|
    ensures PrintSpaced(es, extra).first !in {Semicolon, Bad}
  {
    var others := if |es| == 1 then End else PrintSpaced(es[1..], extra[1..]);
    NotParen(es[0], Next(Semicolon, Semicolons(extra[0], others)));
  }

  /**
   Extra semicolons do no harm if every statement but the last has an even number of them: the line
   is parsed to the tree of its statements.
   */
  lemma {:induction false} SpacedRoundTrip(es: seq<Expr>, extra: seq<nat>, room: nat)
    requires es != [] && |extra| == |es| && (forall i :: 0 <= i < |es| ==> Plain(es[i])) && SizeList(es) <= room
    requires forall i :: 0 <= i < |es| - 1 ==> extra[i] % 2 == 0
    ensures ParseLine(PrintSpaced(es, extra), room) == Some(LowerList(es))
    decreases |es|
  {
    var tail, left := es[1..], room - Size(es[0]);
    ListUnfolds(es, End);
    if |es| == 1 {
      EmptyStatement(es[0], extra[0], End, room);
    } else {
      SpacedRoundTrip(tail, extra[1..], left);
      SpacedStart(tail, extra[1..]);
      EmptyStatement(es[0], extra[0], PrintSpaced(tail, extra[1..]), room);
    }
  }

  /** On a whole line an odd number can be harmless: a hidden 0 in front of a minus comes back as the one of a sign. */
  lemma OddHarmless(a: Symbol, b: Symbol, room: nat)
    requires room >= 4
    ensures var es := [Id(a), Binary(Sub, Const(0), Id(b))];
            ParseLine(PrintSpaced(es, [1, 0]), room) == Some(LowerList(es))
  {
    var second, end := Binary(Sub, Const(0), Id(b)), Next(Semicolon, End);
    var hidden := Next(Operation(Sub), Next(Name(b), end));
    Negated(b, end, room - 1);
    FirstThen(second, hidden, End, room - 1, room - 4);
    assert Print(second, end) == Next(Number(0), hidden);
    HiddenSame(Id(a), second, Next(Number(0), hidden), room);
  }

  /** A line whose second statement is the same without its first token. */
  lemma HiddenSame(e: Expr, second: Expr, ts: Tokens, room: nat)
    requires Plain(e) && Size(e) <= room && ts == Print(second, Next(Semicolon, End))
    requires ts.after.Next? && ts.after.first != Semicolon
    requires ParseLine(ts.after, room - Size(e)) == Some(Lower(second, Null))
    ensures ParseLine(PrintSpaced([e, second], [1, 0]), room) == Some(LowerList([e, second]))
  {
    SpacedTwo(e, second, ts);
    EmptyStatement(e, 1, ts, room);
  }

  lemma SpacedTwo(e: Expr, second: Expr, ts: Tokens)
    requires ts == Print(second, Next(Semicolon, End))
    ensures PrintSpaced([e, second], [1, 0]) == Print(e, Next(Semicolon, Semicolons(1, ts)))
    ensures LowerList([e, second]) == Lower(e, Lower(second, Null))
  {
    assert [e, second][1..] == [second] && [1, 0][1..] == [0] && [second][1..] == [];
    assert PrintSpaced([second], [0]) == Print(second, Next(Semicolon, Semicolons(0, End)));
  }

  lemma Negated(b: Symbol, rest: Tokens, room: nat)
    requires room >= 3 && Stops(0, rest)
    ensures Parse(0, Next(Operation(Sub), Next(Name(b), rest)), room)
            == Some(Parsed(Lower(Binary(Sub, Const(0), Id(b)), Null), rest, room - 3))
  {
    var ts, e := Next(Operation(Sub), Next(Name(b), rest)), Binary(Sub, Const(0), Id(b));
    var done := Parsed(Lower(e, Null), rest, room - 3);
    ParsePrinted(Id(b), 7, rest, room);
    SignMinus(Next(Name(b), rest), room, Id(b), rest, room - 1);
    UpTo(ts, room, done, 1);
    AssignPass(ts, room, done);
  }

  /** A minus in front of an operand stands for 0 minus the operand. */
  lemma SignMinus(ts: Tokens, room: nat, e: Expr, rest: Tokens, left: nat)
    requires left >= 2 && Parse(7, ts, room) == Some(Parsed(Lower(e, Null), rest, left))
    ensures Parse(7, Next(Operation(Sub), ts), room)
            == Some(Parsed(Lower(Binary(Sub, Const(0), e), Null), rest, left - 2))
  {
    MadeTwo(Binary(Sub, Const(0), e), rest, left - 1);
  }

  /** A plus in front of an operand does nothing. */
  lemma SignPlus(ts: Tokens, room: nat)
    ensures Parse(7, Next(Operation(Add), ts), room) == Parse(7, ts, room)
  {
  }

  /** What is parsed at level 7 and is followed by no operator is parsed alike above it. */
  lemma {:induction false} UpTo(ts: Tokens, room: nat, done: Parsed, p: nat)
    requires 1 <= p <= 7 && Parse(7, ts, room) == Some(done) && Stops(0, done.rest)
    requires done.tree.Node? && done.tree.sibling == Null
    ensures Parse(p, ts, room) == Some(done)
    decreases 7 - p
  {
    if p < 7 {
      UpTo(ts, room, done, p + 1);
      TailStart(p, ts, room, done);
    }
  }

  /** A token that is none ends the line, whatever follows. */
  lemma BadEndsLine(ts: Tokens, room: nat)
    ensures ParseLine(Next(Bad, ts), room) == Some(Null) && MoreStatements(Next(Bad, ts), room) == Some(Null)
    ensures ParseLine(End, room) == Some(Null) && MoreStatements(End, room) == Some(Null)
    ensures ParseLine(Next(Semicolon, ts), room) == Some(Null)
  {
  }

  /** Two names with an empty statement between them: the second name is not in the tree. */
  lemma NameHidden(a: Symbol, b: Symbol, room: nat)
    requires room > 0
    ensures ParseLine(Next(Name(a), Next(Semicolon, Next(Semicolon, Next(Name(b), Next(Semicolon, End))))), room)
            == Some(Lower(Id(a), Null))
  {
    var last := Next(Name(b), Next(Semicolon, End));
    EmptyStatement(Id(a), 1, last, room);
    assert Semicolons(1, last) == Next(Semicolon, last);
    ExtraSemicolons(1, End, room - 1);
  }

  // ----- whatever is parsed stands for an expression -----

  /** The tree stands for `e`, and as many node entries were taken as it has nodes. */
  ghost predicate Stands(r: Parsed, room: nat, e: Expr) {
    r.tree == Lower(e, Null) && r.room + Size(e) == room
  }

  /** A token behind which an operand has to follow, or may if one has to in front of it. */
  predicate Expects(t: Token, operand: bool) {
    match t
    case Name(_) => false
    case Number(_) => false
    case RightParen => false
    case PlusPlus => operand
    case MinusMinus => operand
    case _ => true
  }

  /** No sign, opening parenthesis, semicolon or bad token stands where an operand is expected. */
  predicate Unsigned(ts: Tokens, operand: bool) {
    ts.Next? ==>
      && (operand ==> ts.first !in {Operation(Add), Operation(Sub), LeftParen, Semicolon, Bad})
      && Unsigned(ts.after, Expects(ts.first, operand))
  }

  /** Tokens without signs were taken for the expression that is printed like them. */
  predicate Grouped(ts: Tokens, p: nat, e: Expr, rest: Tokens) {
    Unsigned(ts, true) ==> Plain(e) && LevelOf(e) >= p && ts == Print(e, rest) && Unsigned(rest, false)
  }

  /** The same of tokens that stand behind an expression and go on with it. */
  predicate Extended(first: Expr, ts: Tokens, p: nat, e: Expr, rest: Tokens) {
    Plain(first) && LevelOf(first) >= p && Unsigned(ts, false) ==>
      Plain(e) && LevelOf(e) >= p && Print(first, ts) == Print(e, rest) && Unsigned(rest, false)
  }

  predicate AllPlain(es: seq<Expr>) {
    es == [] || (Plain(es[0]) && AllPlain(es[1..]))
  }

  /** Every tree the parser makes stands for an expression, whatever the tokens were. */
  lemma {:induction false} ParsedStands(p: nat, ts: Tokens, room: nat) returns (e: Expr)
    requires p <= 9 && Parse(p, ts, room).Some?
    ensures Stands(Parse(p, ts, room).value, room, e) && Grouped(ts, p, e, Parse(p, ts, room).value.rest)
    decreases Count(ts), 10 - p, 1
  {
    if p == 0 {
      e := AssignStands(ts, room);
    } else if p <= 6 {
      var left := Parse(p + 1, ts, room).value;
      e := ParsedStands(p + 1, ts, room);
      e := TailStands(p, left, room, e);
    } else if p == 7 {
      e := UnaryStands(ts, room);
    } else if p == 8 {
      var left := Parse(9, ts, room).value;
      e := ParsedStands(9, ts, room);
      e := PostStands(left, room, e);
    } else {
      e := PrimaryStands(ts, room);
    }
  }

  lemma {:induction false} AssignStands(ts: Tokens, room: nat) returns (e: Expr)
    requires Parse(0, ts, room).Some?
    ensures Stands(Parse(0, ts, room).value, room, e) && Grouped(ts, 0, e, Parse(0, ts, room).value.rest)
    decreases Count(ts), 10, 0
  {
    var left := Parse(1, ts, room).value;
    e := ParsedStands(1, ts, room);
    if left.rest.Next? && left.rest.first == Equals {
      var right := Parse(0, left.rest.after, left.room).value;
      var source := ParsedStands(0, left.rest.after, left.room);
      e := Assign(e, source);
      MadeTwo(e, right.rest, right.room);
    }
  }

  lemma {:induction false} TailStands(p: nat, left: Parsed, room: nat, first: Expr) returns (e: Expr)
    requires 1 <= p <= 6 && left.tree.Node? && left.tree.sibling == Null
    requires Tail(p, left).Some? && Stands(left, room, first)
    ensures Stands(Tail(p, left).value, room, e)
    ensures Extended(first, left.rest, p, e, Tail(p, left).value.rest)
    decreases Count(left.rest), 11, 0
  {
    e := first;
    if left.rest.Next? && Level(left.rest.first) == p {
      var right := Parse(p + 1, left.rest.after, left.room).value;
      var second := ParsedStands(p + 1, left.rest.after, left.room);
      var both := Binary(left.rest.first.op, first, second);
      MadeTwo(both, right.rest, right.room);
      OperatorExtends(p, first, left.rest, second, right.rest);
      e := TailStands(p, Parsed(Lower(both, Null), right.rest, right.room - 1), room, both);
      ExtendedTwice(p, first, left.rest, both, right.rest, e, Tail(p, left).value.rest);
    }
  }

  lemma OperatorExtends(p: nat, first: Expr, ts: Tokens, second: Expr, rest: Tokens)
    requires 1 <= p <= 6 && ts.Next? && Level(ts.first) == p && Grouped(ts.after, p + 1, second, rest)
    ensures Extended(first, ts, p, Binary(ts.first.op, first, second), rest)
  {
  }

  lemma ExtendedTwice(p: nat, first: Expr, ts: Tokens, second: Expr, more: Tokens, e: Expr, rest: Tokens)
    requires Extended(first, ts, p, second, more) && Extended(second, more, p, e, rest)
    ensures Extended(first, ts, p, e, rest)
  {
  }

  lemma {:induction false} UnaryStands(ts: Tokens, room: nat) returns (e: Expr)
    requires Unary(ts, room).Some?
    ensures Stands(Unary(ts, room).value, room, e) && Grouped(ts, 7, e, Unary(ts, room).value.rest)
    decreases Count(ts), 3, 0
  {
    if ts.first != Operation(Add) && ts.first != Operation(Sub) && Prefix(ts.first).None? {
      e := ParsedStands(8, ts, room);
    } else {
      var arg := Parse(7, ts.after, room).value;
      e := ParsedStands(7, ts.after, room);
      if ts.first == Operation(Sub) {
        e := Binary(Sub, Const(0), e);
        MadeTwo(e, arg.rest, arg.room - 1);
      } else if ts.first != Operation(Add) {
        e := match ts.first
          case Tilde => Not(e)
          case PlusPlus => PreInc(e)
          case MinusMinus => PreDec(e)
          case Operation(op) => if op == Mul then Deref(e) else AddressOf(e);
        MadeOne(e, arg.rest, arg.room);
      }
    }
  }

  lemma {:induction false} PrimaryStands(ts: Tokens, room: nat) returns (e: Expr)
    requires Primary(ts, room).Some?
    ensures Stands(Primary(ts, room).value, room, e) && Grouped(ts, 9, e, Primary(ts, room).value.rest)
    decreases Count(ts), 0, 0
  {
    match ts.first
    case Name(symbol) => e := Id(symbol);
    case Number(value) => e := Const(value);
    case LeftParen => e := ParsedStands(0, ts.after, room);
  }

  lemma {:induction false} PostStands(left: Parsed, room: nat, first: Expr) returns (e: Expr)
    requires left.tree.Node? && left.tree.sibling == Null && PostTail(left).Some? && Stands(left, room, first)
    ensures Stands(PostTail(left).value, room, e)
    ensures Extended(first, left.rest, 8, e, PostTail(left).value.rest)
    decreases Count(left.rest), 13, 0
  {
    e := first;
    if left.rest.Next? && left.rest.first == LeftParen {
      e := CallStands(left, room, first);
    } else if left.rest.Next? && Level(left.rest.first) == 8 {
      e := StepStands(left, room, first);
    }
  }

  lemma {:induction false} StepStands(left: Parsed, room: nat, first: Expr) returns (e: Expr)
    requires left.tree.Node? && left.tree.sibling == Null && PostTail(left).Some? && Stands(left, room, first)
    requires left.rest.Next? && (left.rest.first == PlusPlus || left.rest.first == MinusMinus)
    ensures Stands(PostTail(left).value, room, e)
    ensures Extended(first, left.rest, 8, e, PostTail(left).value.rest)
    decreases Count(left.rest), 12, 0
  {
    e := if left.rest.first == PlusPlus then PostInc(first) else PostDec(first);
    MadeOne(e, left.rest.after, left.room);
    e := PostStands(Parsed(Lower(e, Null), left.rest.after, left.room - 1), room, e);
  }

  lemma {:induction false} CallStands(left: Parsed, room: nat, first: Expr) returns (e: Expr)
    requires left.tree.Node? && left.tree.sibling == Null && PostTail(left).Some? && Stands(left, room, first)
    requires left.rest.Next? && left.rest.first == LeftParen
    ensures Stands(PostTail(left).value, room, e)
    ensures Extended(first, left.rest, 8, e, PostTail(left).value.rest)
    decreases Count(left.rest), 12, 0
  {
    var args := Arguments(left.rest.after, left.room).value;
    var es := ArgumentsStand(left.rest.after, left.room);
    EachPlain(es);
    e := Call(first, es);
    MadeCall(e, args.rest, args.room);
    e := PostStands(Parsed(Lower(e, Null), args.rest, args.room - 1), room, e);
  }

  lemma {:induction false} ArgumentsStand(ts: Tokens, room: nat) returns (es: seq<Expr>)
    requires Arguments(ts, room).Some?
    ensures var r := Arguments(ts, room).value; r.tree == LowerList(es) && r.room + SizeList(es) == room
    ensures var r := Arguments(ts, room).value;
            Unsigned(ts, true) ==> AllPlain(es) && ts == PrintList(es, r.rest) && Unsigned(r.rest, false)
    decreases Count(ts), 12, 0
  {
    if ts.first == RightParen {
      es := [];
    } else {
      es := ListStands(ts, room);
    }
  }

  lemma {:induction false} ListStands(ts: Tokens, room: nat) returns (es: seq<Expr>)
    requires List(ts, room).Some?
    ensures var r := List(ts, room).value; r.tree == LowerList(es) && r.room + SizeList(es) == room
    ensures var r := List(ts, room).value;
            Unsigned(ts, true) ==> AllPlain(es) && ts == PrintList(es, r.rest) && Unsigned(r.rest, false)
    decreases Count(ts), 11, 0
  {
    var first := Parse(0, ts, room).value;
    var e := ParsedStands(0, ts, room);
    es := [];
    if first.rest.first == Comma {
      es := ListStands(first.rest.after, first.room);
    }
    assert ([e] + es)[1..] == es;
    es := [e] + es;
  }

  /** The same of a line of statements. */
  lemma {:induction false} LineStands(ts: Tokens, room: nat) returns (es: seq<Expr>)
    requires ParseLine(ts, room).Some?
    ensures ParseLine(ts, room) == Some(LowerList(es)) && SizeList(es) <= room
    ensures Unsigned(ts, true) ==> AllPlain(es) && ts == if es == [] then End else PrintLine(es)
    decreases Count(ts), 0
  {
    es := [];
    if !LineEnds(ts) && ts.first != Semicolon {
      var first := Parse(0, ts, room).value;
      var e := ParsedStands(0, ts, room);
      es := MoreStand(first.rest.after, first.room);
      assert ([e] + es)[1..] == es;
      es := [e] + es;
    }
  }

  lemma {:induction false} MoreStand(ts: Tokens, room: nat) returns (es: seq<Expr>)
    requires MoreStatements(ts, room).Some?
    ensures MoreStatements(ts, room) == Some(LowerList(es)) && SizeList(es) <= room
    ensures Unsigned(ts, true) ==> AllPlain(es) && ts == if es == [] then End else PrintLine(es)
    decreases Count(ts), 1
  {
    if ts.Next? && ts.first == Semicolon {
      es := MoreStand(Behind(ts.after), room);
    } else {
      es := LineStands(ts, room);
    }
  }

  lemma {:induction false} PrintedUnsigned(e: Expr, rest: Tokens)
    requires Unsigned(rest, false)
    ensures Unsigned(Print(e, rest), true)
    decreases e, 0
  {
    match e
    case Const(_) =>
    case Id(_) =>
    case PostInc(arg) => PrintedUnsigned(arg, Next(PlusPlus, rest));
    case PostDec(arg) => PrintedUnsigned(arg, Next(MinusMinus, rest));
    case Call(callee, args) =>
      ListUnsigned(args, rest);
      PrintedUnsigned(callee, Next(LeftParen, PrintList(args, rest)));
    case Binary(op, left, right) =>
      PrintedUnsigned(right, rest);
      PrintedUnsigned(left, Next(Operation(op), Print(right, rest)));
    case Assign(target, source) =>
      PrintedUnsigned(source, rest);
      PrintedUnsigned(target, Next(Equals, Print(source, rest)));
    case _ => PrintedUnsigned(e.arg, rest);
  }

  lemma {:induction false} ListUnsigned(es: seq<Expr>, rest: Tokens)
    requires Unsigned(rest, false)
    ensures Unsigned(PrintList(es, rest), true)
    decreases es, 1
  {
    if |es| == 1 {
      PrintedUnsigned(es[0], Next(RightParen, rest));
    } else if es != [] {
      ListUnsigned(es[1..], rest);
      PrintedUnsigned(es[0], Next(Comma, PrintList(es[1..], rest)));
    }
  }

  lemma {:induction false} LineUnsigned(es: seq<Expr>)
    requires es != []
    ensures Unsigned(PrintLine(es), true)
  {
    if |es| > 1 {
      LineUnsigned(es[1..]);
    }
    PrintedUnsigned(es[0], Next(Semicolon, if |es| == 1 then End else PrintLine(es[1..])));
  }

  /**
   A printed line is parsed to the tree it was printed from if and only if no operand of it needs
   parentheses and the node table holds it.
   */
  lemma LineRoundTripIff(es: seq<Expr>, room: nat)
    requires es != []
    ensures ParseLine(PrintLine(es), room) == Some(LowerList(es)) <==> AllPlain(es) && SizeList(es) <= room
  {
    if ParseLine(PrintLine(es), room) == Some(LowerList(es)) {
      var parsed := LineStands(PrintLine(es), room);
      LineUnsigned(es);
      ListOnce(parsed, es);
    }
    if AllPlain(es) && SizeList(es) <= room {
      EachPlain(es);
      LineRoundTrip(es, room);
    }
  }

  /** Tokens without signs are accepted if and only if they are such a line printed. */
  lemma AcceptedIff(ts: Tokens, room: nat)
    requires Unsigned(ts, true) && ts.Next?
    ensures ParseLine(ts, room).Some?
            <==> exists es :: es != [] && AllPlain(es) && SizeList(es) <= room && ts == PrintLine(es)
  {
    if ParseLine(ts, room).Some? {
      var es := LineStands(ts, room);
      assert es != [] && AllPlain(es) && SizeList(es) <= room && ts == PrintLine(es);
    }
    forall es | es != [] && AllPlain(es) && SizeList(es) <= room && ts == PrintLine(es)
      ensures ParseLine(ts, room).Some?
    {
      LineRoundTripIff(es, room);
    }
  }

  lemma {:induction false} EachPlain(es: seq<Expr>)
    ensures AllPlain(es) <==> forall i :: 0 <= i < |es| ==> Plain(es[i])
  {
    if es != [] {
      EachPlain(es[1..]);
      assert es == [es[0]] + es[1..];
    }
  }

  /** No expression starts with a parenthesis: it is taken for a cast before a primary is tried. */
  lemma {:induction false} GroupingRefused(p: nat, ts: Tokens, room: nat)
    requires p <= 7
    ensures Parse(p, Next(LeftParen, ts), room) == None
    decreases 7 - p
  {
    if p < 7 {
      GroupingRefused(p + 1, ts, room);
    }
  }

  // ----- the parser in place -----

  class Parser {
    var ahead: Tokens
    var last: Tokens
    var replay: bool
    var room: nat

    /** The tokens to come: the last one again if it was given back. */
    ghost function Rest(): (ts: Tokens)
      reads this
    {
      if replay then last else ahead
    }

    /** A token was taken that can be given back. */
    ghost predicate Taken(ts: Tokens)
      reads this
    {
      !replay && last == ts && ahead == if ts.End? then End else ts.after
    }

    constructor (tokens: Tokens, room: nat)
      ensures Rest() == tokens && this.room == room && !replay
    {
      ahead, last, replay, this.room := tokens, tokens, false, room;
    }

    /** The next token; none at the end. */
    method NextToken() returns (t: Option<Token>)
      modifies this`ahead, this`last, this`replay
      ensures Taken(old(Rest()))
      ensures t == if old(Rest()).End? then None else Some(old(Rest()).first)
    {
      if replay {
        replay := false;
        ahead := if last.End? then End else last.after;
      } else {
        last := ahead;
        ahead := if last.End? then End else last.after;
      }
      t := if last.End? then None else Some(last.first);
    }

    /** Give the last token back. */
    method Replay()
      requires !replay
      modifies this`replay
      ensures Rest() == old(last)
    {
      replay := true;
    }

    /** What a method returns agrees with what the parsing function says. */
    ghost predicate Agrees(t: Option<Tree>, r: Option<Parsed>)
      reads this
    {
      match r
      case None => t == None
      case Some(x) => t == Some(x.tree) && Rest() == x.rest && room == x.room
    }

    method MakeNode(kind: Kind, first: Tree, second: Tree) returns (t: Option<Tree>)
      requires first.Node?
      modifies this`room
      ensures Agrees(t, Make(kind, first, second, old(Rest()), old(room)))
    {
      if room == 0 {
        return None;
      }
      room := room - 1;
      t := Some(Fresh(kind, first.(sibling := second), Null));
    }

    method LeafNode(kind: Kind) returns (t: Option<Tree>)
      modifies this`room
      ensures Agrees(t, Leaf(kind, old(Rest()), old(room)))
    {
      if room == 0 {
        return None;
      }
      room := room - 1;
      t := Some(Fresh(kind, Null, Null));
    }

    method Expression(p: nat) returns (t: Option<Tree>)
      requires p <= 9
      modifies this
      ensures Agrees(t, Parse(p, old(Rest()), old(room)))
      decreases Count(Rest()), 10 - p, 1
    {
      if p == 0 {
        t := AssignExpr();
      } else if p <= 6 {
        t := BinaryExpr(p);
      } else if p == 7 {
        t := UnaryExpr();
      } else if p == 8 {
        t := PostfixExpr();
      } else {
        t := PrimaryExpr();
      }
    }

    method AssignExpr() returns (t: Option<Tree>)
      modifies this
      ensures Agrees(t, Parse(0, old(Rest()), old(room)))
      decreases Count(Rest()), 10, 0
    {
      t := Expression(1);
      if t.Some? {
        var left := t.value;
        var token := NextToken();
        if token == Some(Equals) {
          t := Expression(0);
          if t.Some? {
            t := MakeNode(NodeAssign, left, t.value);
          }
        } else {
          Replay();
        }
      }
    }

    /** The binary operators of one level. */
    method BinaryExpr(p: nat) returns (t: Option<Tree>)
      requires 1 <= p <= 6
      modifies this
      ensures Agrees(t, Parse(p, old(Rest()), old(room)))
      decreases Count(Rest()), 10 - p, 0
    {
      ghost var goal := Parse(p, Rest(), room);
      t := Expression(p + 1);
      if t.None? {
        return;
      }
      var token := NextToken();
      while token.Some? && Level(token.value) == p
        invariant Taken(last) && t.Some? && t.value.Node? && t.value.sibling == Null
        invariant Count(last) < Count(old(Rest()))
        invariant token == if last.End? then None else Some(last.first)
        invariant goal == Tail(p, Parsed(t.value, last, room))
        decreases Count(last)
      {
        var right := Expression(p + 1);
        if right.None? {
          return None;
        }
        t := MakeNode(NodeOp(token.value.op), t.value, right.value);
        if t.None? {
          return;
        }
        token := NextToken();
      }
      Replay();
    }

    method UnaryExpr() returns (t: Option<Tree>)
      modifies this
      ensures Agrees(t, Unary(old(Rest()), old(room)))
      decreases Count(Rest()), 3, 0
    {
      var token := NextToken();
      if token.None? || token == Some(LeftParen) {
        return None;
      }
      if token == Some(Operation(Add)) {
        t := Expression(7);
      } else if token == Some(Operation(Sub)) {
        t := Expression(7);
        if t.Some? {
          var arg := t.value;
          t := LeafNode(NodeConst(0));
          if t.Some? {
            t := MakeNode(NodeOp(Sub), t.value, arg);
          }
        }
      } else if Prefix(token.value).Some? {
        t := Expression(7);
        if t.Some? {
          t := MakeNode(Prefix(token.value).value, t.value, Null);
        }
      } else {
        Replay();
        t := Expression(8);
      }
    }

    method PostfixExpr() returns (t: Option<Tree>)
      modifies this
      ensures Agrees(t, Parse(8, old(Rest()), old(room)))
      decreases Count(Rest()), 2, 0
    {
      t := Expression(9);
      if t.Some? {
        t := PostfixOperators(t.value);
      }
    }

    /** The postfix operators and calls behind `first`. */
    method PostfixOperators(first: Tree) returns (t: Option<Tree>)
      requires first.Node? && first.sibling == Null
      modifies this
      ensures Agrees(t, PostTail(Parsed(first, old(Rest()), old(room))))
      decreases Count(Rest()), 14, 0
    {
      ghost var goal := PostTail(Parsed(first, Rest(), room));
      t := Some(first);
      var token := NextToken();
      while token == Some(PlusPlus) || token == Some(MinusMinus) || token == Some(LeftParen)
        invariant Taken(last) && t.Some? && t.value.Node? && t.value.sibling == Null
        invariant Count(last) <= Count(old(Rest()))
        invariant token == if last.End? then None else Some(last.first)
        invariant goal == PostTail(Parsed(t.value, last, room))
        decreases Count(last)
      {
        t := PostfixStep(token.value, t.value, last);
        if t.None? {
          return;
        }
        token := NextToken();
      }
      Replay();
    }

    /** One postfix operator or call behind `left`; `ts` are the tokens from it on. */
    method PostfixStep(token: Token, left: Tree, ghost ts: Tokens) returns (t: Option<Tree>)
      requires left.Node? && left.sibling == Null && ts.Next? && ts.first == token && Rest() == ts.after
      requires token == PlusPlus || token == MinusMinus || token == LeftParen
      modifies this
      ensures match t
              case None => PostTail(Parsed(left, ts, old(room))) == None
              case Some(tree) =>
                && tree.Node? && tree.sibling == Null && Count(Rest()) < Count(ts)
                && PostTail(Parsed(left, ts, old(room))) == PostTail(Parsed(tree, Rest(), room))
      decreases Count(Rest()), 13, 0
    {
      if token == PlusPlus {
        t := MakeNode(NodeInc, left, Null);
      } else if token == MinusMinus {
        t := MakeNode(NodeDec, left, Null);
      } else {
        var args := ArgumentList();
        if args.None? {
          return None;
        }
        t := MakeNode(NodeFunc, left, args.value);
      }
    }

    method PrimaryExpr() returns (t: Option<Tree>)
      modifies this
      ensures Agrees(t, Primary(old(Rest()), old(room)))
      decreases Count(Rest()), 1, 0
    {
      var token := NextToken();
      match token
      case Some(Name(symbol)) => t := LeafNode(NodeId(symbol));
      case Some(Number(value)) => t := LeafNode(NodeConst(value));
      case Some(LeftParen) =>
        t := Expression(0);
        token := NextToken();
        if token != Some(RightParen) {
          t := None;
        }
      case _ => t := None;
    }

    /** The arguments of a call and the closing parenthesis. */
    method ArgumentList() returns (t: Option<Tree>)
      modifies this
      ensures Agrees(t, Arguments(old(Rest()), old(room)))
      decreases Count(Rest()), 12, 0
    {
      var token := NextToken();
      if token == Some(RightParen) {
        return Some(Null);
      }
      Replay();
      t := ParamList();
    }

    method ParamList() returns (t: Option<Tree>)
      modifies this
      ensures Agrees(t, List(old(Rest()), old(room)))
      decreases Count(Rest()), 11, 0
    {
      t := Expression(0);
      if t.None? {
        return;
      }
      var token := NextToken();
      if token == Some(RightParen) {
        return;
      }
      if token != Some(Comma) {
        return None;
      }
      var more := ParamList();
      if more.None? {
        return None;
      }
      t := Some(t.value.(sibling := more.value));
    }

    /** A line of statements. */
    method Line() returns (t: Option<Tree>)
      modifies this
      ensures t == ParseLine(old(Rest()), old(room))
      decreases Count(Rest()), 0
    {
      var token := NextToken();
      if token.None? || token == Some(Bad) || token == Some(Semicolon) {
        return Some(Null);
      }
      Replay();
      t := Expression(0);
      if t.None? {
        return;
      }
      token := NextToken();
      if token != Some(Semicolon) {
        return None;
      }
      var more := More();
      if more.None? {
        return None;
      }
      t := Some(t.value.(sibling := more.value));
    }

    /** The statements behind the first; an empty one takes a token along. */
    method More() returns (t: Option<Tree>)
      modifies this
      ensures t == MoreStatements(old(Rest()), old(room))
      decreases Count(Rest()), 1
    {
      var token := NextToken();
      if token == Some(Semicolon) {
        token := NextToken();
        assert Rest() == Behind(old(Rest()).after);
        t := More();
      } else {
        Replay();
        t := Line();
      }
    }
  }
}
