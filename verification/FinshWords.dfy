/**
 32-bit words, bytes and memory as the FinSH virtual machine sees them.
 Operations that C leaves undefined (division by zero, the quotient that does not
 fit, shift counts outside 0..31, an address that is not mapped) have no result.
 */
module FinshWords {
  import opened Options
  import opened Quotients

  const WORD_SPAN: int := 0x1_0000_0000

  type Byte = b: int | 0 <= b < 256
  type Word = w: int | 0 <= w < 0x1_0000_0000
  type Memory = map<int, Byte>

  function Wrap(x: int): (w: Word) {
    x % WORD_SPAN
  }

  /** The value of a word read as a signed long. */
  function Signed(w: Word): (x: int)
    ensures Wrap(x) == w
    ensures -0x8000_0000 <= x < 0x8000_0000
  {
    if w < 0x8000_0000 then w else w - WORD_SPAN
  }

  /** C division: the quotient is truncated toward zero. */
  function TruncDiv(a: int, b: int): (q: int)
    requires b != 0
  {
    if a >= 0 then a / b else -(-a / b)
  }

  function TruncMod(a: int, b: int): (r: int)
    requires b != 0
  {
    a - TruncDiv(a, b) * b
  }

  /** The remainder keeps the sign of the dividend and is smaller than the divisor. */
  lemma TruncatingDivision(a: int, b: int)
    requires b != 0
    ensures a == TruncDiv(a, b) * b + TruncMod(a, b)
    ensures a >= 0 ==> 0 <= TruncMod(a, b) < (if b > 0 then b else -b)
    ensures a <= 0 ==> -(if b > 0 then b else -b) < TruncMod(a, b) <= 0
  {
    if a >= 0 {
      assert a == (a / b) * b + a % b;
    } else {
      assert -a == (-a / b) * b + (-a) % b;
      assert -(-a / b) * b == -((-a / b) * b);
    }
  }

  function Pow2(n: nat): (p: nat)
    ensures p > 0
  {
    if n == 0 then 1 else 2 * Pow2(n - 1)
  }

  /** Bit `i` of an integer in two's complement. */
  predicate Bit(x: int, i: nat)
    decreases i
  {
    if i == 0 then x % 2 == 1 else Bit(x / 2, i - 1)
  }

  /** The word whose first `n` bits are made of the bits of `a` and `b`. */
  function Bitwise(f: (bool, bool) -> bool, a: nat, b: nat, n: nat): (r: nat)
    ensures r < Pow2(n)
  {
    if n == 0 then 0
    else (if f(a % 2 == 1, b % 2 == 1) then 1 else 0) + 2 * Bitwise(f, a / 2, b / 2, n - 1)
  }

  lemma SpanIsPower()
    ensures Pow2(32) == WORD_SPAN && Pow2(31) == 0x8000_0000
  {
    assert Pow2(8) == 256;
    assert Pow2(16) == 65536;
    assert Pow2(24) == 16777216;
  }

  function BitAnd(a: Word, b: Word): (r: Word) {
    SpanIsPower();
    Bitwise((x, y) => x && y, a, b, 32)
  }

  function BitOr(a: Word, b: Word): (r: Word) {
    SpanIsPower();
    Bitwise((x, y) => x || y, a, b, 32)
  }

  function BitXor(a: Word, b: Word): (r: Word) {
    SpanIsPower();
    Bitwise((x, y) => x != y, a, b, 32)
  }

  datatype Operator = Add | Sub | Mul | Div | Mod | And | Or | Xor | Shl | Shr

  /** One binary operator on two 32-bit longs. */
  function Apply(op: Operator, a: Word, b: Word): (r: Option<Word>) {
    match op
    case Add => Some(Wrap(a + b))
    case Sub => Some(Wrap(a - b))
    case Mul => Some(Wrap(a * b))
    case Div =>
      if b == 0 || (Signed(a) == -0x8000_0000 && Signed(b) == -1) then None
      else Some(Wrap(TruncDiv(Signed(a), Signed(b))))
    case Mod =>
      if b == 0 || (Signed(a) == -0x8000_0000 && Signed(b) == -1) then None
      else Some(Wrap(TruncMod(Signed(a), Signed(b))))
    case And => Some(BitAnd(a, b))
    case Or => Some(BitOr(a, b))
    case Xor => Some(BitXor(a, b))
    case Shl => if b < 32 then Some(Wrap(a * Pow2(b))) else None
    case Shr => if b < 32 then Some(Wrap(Signed(a) / Pow2(b))) else None
  }

  // ----- what the operators compute -----

  lemma {:induction false} BitwiseBits(f: (bool, bool) -> bool, a: nat, b: nat, n: nat, i: nat)
    requires i < n
    ensures Bit(Bitwise(f, a, b, n), i) <==> f(Bit(a, i), Bit(b, i))
  {
    if i > 0 {
      BitwiseBits(f, a / 2, b / 2, n - 1, i - 1);
    }
  }

  /** Adding a multiple of a power of two leaves the bits below it alone. */
  lemma {:induction false} LowBits(x: int, c: int, n: nat, i: nat)
    requires i < n
    ensures Bit(x + c * Pow2(n), i) <==> Bit(x, i)
    decreases i
  {
    var half := c * Pow2(n - 1);
    assert c * Pow2(n) == 2 * half;
    if i > 0 {
      assert (x + 2 * half) / 2 == x / 2 + half;
      LowBits(x / 2, c, n - 1, i - 1);
    }
  }

  /** Wrapping keeps the 32 bits of a word. */
  lemma WrapBits(x: int, i: nat)
    requires i < 32
    ensures Bit(Wrap(x), i) <==> Bit(x, i)
  {
    SpanIsPower();
    LowBits(Wrap(x), x / WORD_SPAN, 32, i);
  }

  lemma {:induction false} RaisedBits(x: int, n: nat, i: nat)
    ensures Bit(x * Pow2(n), i) <==> i >= n && Bit(x, i - n)
    decreases n
  {
    if n > 0 {
      var y := x * Pow2(n - 1);
      assert x * Pow2(n) == 2 * y;
      if i > 0 {
        RaisedBits(x, n - 1, i - 1);
      }
    }
  }

  lemma {:induction false} LoweredBits(x: int, n: nat, i: nat)
    ensures Bit(x / Pow2(n), i) <==> Bit(x, i + n)
    decreases n
  {
    if n > 0 {
      var p := Pow2(n - 1);
      HalfFirst(x, p);
      LoweredBits(x / 2, n - 1, i);
    }
  }

  lemma HalfFirst(x: int, p: nat)
    requires p > 0
    ensures x / (2 * p) == x / 2 / p
  {
    var h := x / 2;
    var q, r := h / p, h % p;
    assert h == q * p + r && x == 2 * h + x % 2;
    var m := x / (2 * p);
    assert x == m * (2 * p) + x % (2 * p);
    assert x == q * (2 * p) + (2 * r + x % 2);
    SameQuotient(m, q, 2 * p, x);
  }

  /** A signed value has its sign in every bit from 31 on. */
  lemma {:induction false} SignBits(x: int, n: nat, i: nat)
    requires 0 <= x + Pow2(n) && x < Pow2(n) && i >= n
    ensures Bit(x, i) <==> x < 0
    decreases i
  {
    if i > 0 {
      if n > 0 {
        assert Pow2(n) == 2 * Pow2(n - 1);
        SignBits(x / 2, n - 1, i - 1);
      } else {
        SignBits(x / 2, 0, i - 1);
      }
    }
  }

  /** Bit `i` of the signed value of a word. */
  lemma SignedBits(w: Word, i: nat)
    ensures Bit(Signed(w), i) <==> Bit(w, if i < 32 then i else 31)
  {
    SpanIsPower();
    if i < 32 {
      WrapBits(Signed(w), i);
    } else {
      SignBits(Signed(w), 31, i);
      SignBits(Signed(w), 31, 31);
      WrapBits(Signed(w), 31);
    }
  }

  /** `q` is the quotient of `x` and `y` rounded toward zero. */
  ghost predicate IsQuotient(x: int, y: int, q: int) {
    IsRest(x, y, x - q * y)
  }

  /** What is left is smaller than the divisor, and has the sign of the dividend. */
  predicate IsRest(x: int, y: int, rest: int) {
    Absolute(rest) < Absolute(y) && (x >= 0 ==> rest >= 0) && (x <= 0 ==> rest <= 0)
  }

  function Absolute(x: int): (r: nat) {
    if x < 0 then -x else x
  }

  /** The cases that C leaves undefined. */
  predicate Undefined(op: Operator, a: Word, b: Word) {
    match op
    case Div => b == 0 || (a == 0x8000_0000 && b == 0xffff_ffff)
    case Mod => b == 0 || (a == 0x8000_0000 && b == 0xffff_ffff)
    case Shl => b >= 32
    case Shr => b >= 32
    case _ => false
  }

  /** What `r` has to be, as the result of an operator on 32-bit longs. */
  ghost predicate Computes(op: Operator, a: Word, b: Word, r: Word) {
    match op
    case Add => Wrap(r - b) == a
    case Sub => Wrap(r + b) == a
    case Mul => exists c :: Signed(a) * Signed(b) == c * WORD_SPAN + r
    case Div => IsQuotient(Signed(a), Signed(b), Signed(r))
    case Mod =>
      IsRest(Signed(a), Signed(b), Signed(r)) && exists q :: Signed(a) == q * Signed(b) + Signed(r)
    case And => forall i: nat :: i < 32 ==> (Bit(r, i) <==> Bit(a, i) && Bit(b, i))
    case Or => forall i: nat :: i < 32 ==> (Bit(r, i) <==> Bit(a, i) || Bit(b, i))
    case Xor => forall i: nat :: i < 32 ==> (Bit(r, i) <==> Bit(a, i) != Bit(b, i))
    case Shl => forall i: nat :: i < 32 ==> (Bit(r, i) <==> i >= b && Bit(a, i - b))
    case Shr => forall i: nat :: i < 32 ==> (Bit(r, i) <==> Bit(a, if i + b < 32 then i + b else 31))
  }

  lemma SignedProduct(a: Word, b: Word) returns (c: int)
    ensures Signed(a) * Signed(b) == c * WORD_SPAN + Wrap(a * b)
  {
    var x, y := if a < 0x8000_0000 then 0 else 1, if b < 0x8000_0000 then 0 else 1;
    var S := WORD_SPAN;
    assert Signed(a) == a - x * S && Signed(b) == b - y * S;
    c := a * b / S - a * y - b * x + x * y * S;
    assert (a - x * S) * (b - y * S) == a * b - a * y * S - b * x * S + x * y * S * S;
    assert a * b == a * b / S * S + a * b % S;
  }

  lemma SignedWrap(x: int)
    requires -0x8000_0000 <= x < 0x8000_0000
    ensures Signed(Wrap(x)) == x
  {
  }

  lemma QuotientBounded(x: int, y: int)
    requires -0x8000_0000 <= x < 0x8000_0000 && y != 0 && !(x == -0x8000_0000 && y == -1)
    ensures -0x8000_0000 <= TruncDiv(x, y) < 0x8000_0000
    ensures -0x8000_0000 <= TruncMod(x, y) < 0x8000_0000
  {
    TruncatingDivision(x, y);
    Products(TruncDiv(x, y), y);
    QuotientSmall(x, y, TruncDiv(x, y), TruncDiv(x, y) * y, TruncMod(x, y));
  }

  lemma QuotientSmall(x: int, y: int, q: int, product: int, rest: int)
    requires -0x8000_0000 <= x < 0x8000_0000 && y != 0 && !(x == -0x8000_0000 && y == -1)
    requires IsRest(x, y, rest) && x == product + rest
    requires (y == 1 ==> product == q) && (y == -1 ==> product == -q)
    requires Absolute(y) >= 2 ==> 2 * Absolute(q) <= Absolute(product)
    requires if q == 0 then product == 0 else Absolute(y) <= Absolute(product)
    ensures -0x8000_0000 <= q < 0x8000_0000 && -0x8000_0000 <= rest < 0x8000_0000
  {
  }

  lemma Products(q: int, y: int)
    ensures y == 1 ==> q * y == q
    ensures y == -1 ==> q * y == -q
    ensures Absolute(y) >= 2 ==> 2 * Absolute(q) <= Absolute(q * y)
    ensures if q == 0 then q * y == 0 else Absolute(y) <= Absolute(q * y)
  {
    Growing(2, y, Absolute(q));
    Growing(2, -y, Absolute(q));
    Growing(1, q, Absolute(y));
    Growing(1, -q, Absolute(y));
    assert q * y == -(-q * y) && q * y == -(q * -y) && q * y == -q * -y;
  }

  lemma ArithmeticComputes(op: Operator, a: Word, b: Word)
    requires (op.Add? || op.Sub? || op.Mul? || op.Div? || op.Mod?) && !Undefined(op, a, b)
    ensures Apply(op, a, b).Some? && Computes(op, a, b, Apply(op, a, b).value)
  {
    if op.Mul? {
      var c := SignedProduct(a, b);
    } else if op.Div? || op.Mod? {
      TruncatingDivision(Signed(a), Signed(b));
      QuotientBounded(Signed(a), Signed(b));
      SignedWrap(TruncDiv(Signed(a), Signed(b)));
      SignedWrap(TruncMod(Signed(a), Signed(b)));
      assert Signed(a) == TruncDiv(Signed(a), Signed(b)) * Signed(b) + TruncMod(Signed(a), Signed(b));
    }
  }

  lemma BitsCompute(op: Operator, a: Word, b: Word)
    requires (op.And? || op.Or? || op.Xor? || op.Shl? || op.Shr?) && !Undefined(op, a, b)
    ensures Apply(op, a, b).Some? && Computes(op, a, b, Apply(op, a, b).value)
  {
    var r := Apply(op, a, b).value;
    forall i: nat | i < 32
      ensures op.And? ==> (Bit(r, i) <==> Bit(a, i) && Bit(b, i))
      ensures op.Or? ==> (Bit(r, i) <==> Bit(a, i) || Bit(b, i))
      ensures op.Xor? ==> (Bit(r, i) <==> Bit(a, i) != Bit(b, i))
      ensures op.Shl? ==> (Bit(r, i) <==> i >= b && Bit(a, i - b))
      ensures op.Shr? ==> (Bit(r, i) <==> Bit(a, if i + b < 32 then i + b else 31))
    {
      match op
      case And => BitwiseBits((x, y) => x && y, a, b, 32, i);
      case Or => BitwiseBits((x, y) => x || y, a, b, 32, i);
      case Xor => BitwiseBits((x, y) => x != y, a, b, 32, i);
      case Shl =>
        WrapBits(a * Pow2(b), i);
        RaisedBits(a, b, i);
      case Shr =>
        WrapBits(Signed(a) / Pow2(b), i);
        LoweredBits(Signed(a), b, i);
        SignedBits(a, i + b);
    }
  }

  /** Every operator computes what C says, and has no result exactly where C leaves it undefined. */
  lemma ApplyComputes(op: Operator, a: Word, b: Word)
    ensures Apply(op, a, b).Some? <==> !Undefined(op, a, b)
    ensures Apply(op, a, b).Some? ==> Computes(op, a, b, Apply(op, a, b).value)
  {
    if !Undefined(op, a, b) {
      if op.Add? || op.Sub? || op.Mul? || op.Div? || op.Mod? {
        ArithmeticComputes(op, a, b);
      } else {
        BitsCompute(op, a, b);
      }
    }
  }

  /** Words with the same bits are the same. */
  lemma {:induction false} SameBits(a: nat, b: nat, n: nat)
    requires a < Pow2(n) && b < Pow2(n) && forall i: nat :: i < n ==> (Bit(a, i) <==> Bit(b, i))
    ensures a == b
  {
    if n > 0 {
      assert Bit(a, 0) <==> Bit(b, 0);
      forall i: nat | i < n - 1
        ensures Bit(a / 2, i) <==> Bit(b / 2, i)
      {
        assert Bit(a, i + 1) <==> Bit(b, i + 1);
      }
      SameBits(a / 2, b / 2, n - 1);
    }
  }

  lemma SmallMultiple(c: int, y: int, z: int)
    requires c * y == z && Absolute(z) < Absolute(y)
    ensures c == 0
  {
    Products(c, y);
  }

  /** What an operator computes is the only such word. */
  lemma ComputesOnce(op: Operator, a: Word, b: Word, r: Word, s: Word)
    requires !Undefined(op, a, b) && Computes(op, a, b, r) && Computes(op, a, b, s)
    ensures r == s
  {
    if op.Mul? || op.Div? || op.Mod? {
      ProductOnce(op, a, b, r, s);
    } else if !op.Add? && !op.Sub? {
      SpanIsPower();
      SameBits(r, s, 32);
    }
  }

  lemma ProductOnce(op: Operator, a: Word, b: Word, r: Word, s: Word)
    requires (op.Mul? || op.Div? || op.Mod?) && Computes(op, a, b, r) && Computes(op, a, b, s)
    ensures r == s
  {
    if op.Mul? {
      MultipleOnce(Signed(a) * Signed(b), WORD_SPAN, r, s);
    } else if op.Div? {
      QuotientOnce(Signed(a), Signed(b), Signed(r), Signed(s));
    } else {
      MultipleOnce(Signed(a), Signed(b), Signed(r), Signed(s));
    }
  }

  lemma MultipleOnce(x: int, y: int, r: int, s: int)
    requires (exists c :: x == c * y + r) && (exists c :: x == c * y + s) && Absolute(r - s) < Absolute(y)
    ensures r == s
  {
    var c :| x == c * y + r;
    var d :| x == d * y + s;
    Difference(c, d, y);
    SmallMultiple(c - d, y, s - r);
  }

  lemma Difference(c: int, d: int, y: int)
    ensures (c - d) * y == c * y - d * y
  {
  }

  lemma QuotientOnce(x: int, y: int, q: int, p: int)
    requires IsQuotient(x, y, q) && IsQuotient(x, y, p)
    ensures q == p
  {
    Difference(q, p, y);
    SmallMultiple(q - p, y, q * y - p * y);
  }

  function Complement(a: Word): (r: Word)
    ensures Wrap(a + r) == WORD_SPAN - 1
  {
    WORD_SPAN - 1 - a
  }

  // ----- little-endian words -----

  function Encode32(w: Word): (bytes: seq<Byte>)
    ensures |bytes| == 4
  {
    [w % 256, w / 256 % 256, w / 65536 % 256, w / 16777216]
  }

  function Decode32(b0: Byte, b1: Byte, b2: Byte, b3: Byte): (w: Word) {
    b0 + 256 * b1 + 65536 * b2 + 16777216 * b3
  }

  /** Byte `i` of a word has the weight of the `i`-th power of 256. */
  lemma LittleEndian(b0: Byte, b1: Byte, b2: Byte, b3: Byte)
    ensures Decode32(b0, b1, b2, b3) == b0 + 256 * (b1 + 256 * (b2 + 256 * b3))
    ensures Encode32(Decode32(b0, b1, b2, b3)) == [b0, b1, b2, b3]
  {
    var x := b1 + 256 * (b2 + 256 * b3);
    var w := Decode32(b0, b1, b2, b3);
    assert w / 256 == x && x / 256 == b2 + 256 * b3;
    assert w / 65536 == w / 256 / 256 && w / 16777216 == w / 65536 / 256;
  }

  lemma DecodeEncode(w: Word)
    ensures Decode32(Encode32(w)[0], Encode32(w)[1], Encode32(w)[2], Encode32(w)[3]) == w
  {
    var x := w / 256;
    var y := x / 256;
    assert w / 65536 == y;
    assert w / 16777216 == y / 256;
  }

  predicate Mapped(m: Memory, a: int) {
    a in m && a + 1 in m && a + 2 in m && a + 3 in m
  }

  function Load(m: Memory, a: Word): (r: Option<Word>) {
    if Mapped(m, a) then Some(Decode32(m[a], m[a + 1], m[a + 2], m[a + 3])) else None
  }

  function Store(m: Memory, a: Word, v: Word): (r: Option<Memory>) {
    if Mapped(m, a) then
      Some(m[a := v % 256][a + 1 := v / 256 % 256][a + 2 := v / 65536 % 256][a + 3 := v / 16777216])
    else None
  }

  /** What is stored is loaded back, and the four bytes are all that change. */
  lemma LoadAfterStore(m: Memory, a: Word, v: Word)
    requires Mapped(m, a)
    ensures Load(Store(m, a, v).value, a) == Some(v)
    ensures Store(m, a, v).value.Keys == m.Keys
    ensures forall x :: x in m && !(a <= x < a + 4) ==> Store(m, a, v).value[x] == m[x]
  {
    DecodeEncode(v);
  }

  // ----- joining sequences -----

  lemma JoinEmpty<T>(a: seq<T>)
    ensures a + [] == a
    ensures [] + a == a
  {
  }

  lemma JoinThree<T>(a: seq<T>, b: seq<T>, c: seq<T>)
    ensures a + b + c == a + (b + c)
  {
  }
}
