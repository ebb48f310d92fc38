/** The lowest set bit of a word, found by bytes, and words as sets of bit numbers. */
module FirstBit {

  /** Bit `k` of a word is set. */
  predicate Bit(value: bv32, k: bv32)
    requires k < 32
  {
    (value >> k) & 1 == 1
  }

  /** The lowest set bit of a byte that is not zero, as the byte table has it. */
  function Lowest(byte: bv32): (k: bv32) {
    if byte & 0x01 != 0 then 0
    else if byte & 0x02 != 0 then 1
    else if byte & 0x04 != 0 then 2
    else if byte & 0x08 != 0 then 3
    else if byte & 0x10 != 0 then 4
    else if byte & 0x20 != 0 then 5
    else if byte & 0x40 != 0 then 6
    else 7
  }

  /** The position of the lowest set bit, counted from one; zero for zero. */
  function Find(value: bv32): (r: bv32) {
    if value == 0 then 0
    else if value & 0xff != 0 then Lowest(value & 0xff) + 1
    else if value & 0xff00 != 0 then Lowest((value & 0xff00) >> 8) + 9
    else if value & 0xff0000 != 0 then Lowest((value & 0xff0000) >> 16) + 17
    else Lowest((value & 0xff00_0000) >> 24) + 25
  }

  /** The bit found is set and no lower bit is. */
  lemma FindLowest(value: bv32, k: bv32)
    requires value != 0
    ensures 1 <= Find(value) <= 32 && Find(value) - 1 < 32 && Bit(value, Find(value) - 1)
    ensures k < Find(value) - 1 ==> k < 32 && !Bit(value, k)
  {
  }

  // ----- bit numbers -----

  lemma Successor(b: bv32)
    requires b < 32
    ensures (b + 1) as nat == b as nat + 1
  {
  }

  /** The number of a bit, as the shifts take it. */
  function Index(k: nat): (b: bv32)
    requires k < 32
    ensures b < 32 && b as nat == k
  {
    if k == 0 then 0
    else
      var b := Index(k - 1);
      Successor(b);
      b + 1
  }

  lemma SmallerIndex(a: bv32, b: bv32)
    requires a < 32 && b < 32
    ensures a < b <==> a as nat < b as nat
    ensures a as nat < 32
  {
  }

  lemma IndexOf(b: bv32)
    requires b < 32
    ensures b as nat < 32 && Index(b as nat) == b
  {
    SmallerIndex(b, b);
    SmallerIndex(Index(b as nat), b);
    SmallerIndex(b, Index(b as nat));
  }

  // ----- words as sets -----

  /** The word whose bits below `n` are those of the set. */
  function Word(bits: set<nat>, n: nat): (word: bv32)
    requires n <= 32
  {
    if n == 0 then 0
    else if n - 1 in bits then Word(bits, n - 1) | (1 << Index(n - 1))
    else Word(bits, n - 1)
  }

  lemma SetBit(word: bv32, i: bv32, k: bv32)
    requires i < 32 && k < 32
    ensures Bit(word | ((1 as bv32) << i), k) <==> Bit(word, k) || k == i
  {
  }

  lemma ZeroBit(k: bv32)
    requires k < 32
    ensures !Bit(0, k)
  {
  }

  lemma AddBit(word: bv32, i: nat, k: nat, b: bv32)
    requires i < 32 && b < 32 && b as nat == k
    ensures Bit(word | ((1 as bv32) << Index(i)), b) <==> Bit(word, b) || k == i
  {
    IndexOf(b);
    SetBit(word, Index(i), b);
  }

  lemma {:induction false} WordBit(bits: set<nat>, n: nat, k: nat, b: bv32)
    requires n <= 32 && k < 32 && b < 32 && b as nat == k
    ensures Bit(Word(bits, n), b) <==> k < n && k in bits
  {
    if n == 0 {
      ZeroBit(b);
    } else {
      WordBit(bits, n - 1, k, b);
      AddBit(Word(bits, n - 1), n - 1, k, b);
    }
  }

  /** The position of the lowest bit from `from` on, counted from one; zero if there is none below `n`. */
  function FirstSet(bits: set<nat>, from: nat, n: nat): (r: nat)
    requires from <= n
    ensures r == 0 ==> forall k :: from <= k < n ==> k !in bits
    ensures r > 0 ==> from < r <= n && r - 1 in bits && forall k :: from <= k < r - 1 ==> k !in bits
    decreases n - from
  {
    if from == n then 0 else if from in bits then from + 1 else FirstSet(bits, from + 1, n)
  }

  lemma Predecessor(b: bv32)
    requires 1 <= b <= 32
    ensures b as nat == (b - 1) as nat + 1
  {
    Successor(b - 1);
  }

  /** The search by bytes finds a member of the set, and no lower one is in it. */
  lemma FindMember(bits: set<nat>, n: nat)
    requires n <= 32 && Word(bits, n) != 0
    ensures 1 <= Find(Word(bits, n)) as nat <= n && Find(Word(bits, n)) as nat - 1 in bits
  {
    var r := Find(Word(bits, n));
    FindLowest(Word(bits, n), 0);
    Predecessor(r);
    IndexOf(r - 1);
    WordBit(bits, n, (r - 1) as nat, r - 1);
  }

  lemma FindNone(bits: set<nat>, n: nat, k: nat)
    requires n <= 32 && k < n && (Word(bits, n) == 0 || k + 1 < Find(Word(bits, n)) as nat <= 32)
    ensures k !in bits
  {
    var b, w := Index(k), Word(bits, n);
    WordBit(bits, n, k, b);
    if w == 0 {
      ZeroBit(b);
    } else {
      FindLowest(w, b);
      Predecessor(Find(w));
      SmallerIndex(b, Find(w) - 1);
    }
  }

  lemma Least(bits: set<nat>, n: nat, r: nat)
    requires r <= n && (r > 0 ==> r - 1 in bits) && forall k :: 0 <= k < (if r == 0 then n else r - 1) ==> k !in bits
    ensures FirstSet(bits, 0, n) == r
  {
  }

  /** The search by bytes finds the least member of the set. */
  lemma FindIsFirst(bits: set<nat>, n: nat)
    requires n <= 32
    ensures Find(Word(bits, n)) as nat == FirstSet(bits, 0, n)
  {
    var r := Find(Word(bits, n)) as nat;
    if Word(bits, n) != 0 {
      FindMember(bits, n);
    }
    forall k: nat | k < if r == 0 then n else r - 1
      ensures k !in bits
    {
      FindNone(bits, n, k);
    }
    Least(bits, n, r);
  }

  method LowestBit(bits: set<nat>, n: nat) returns (r: nat)
    requires n <= 32
    ensures r == FirstSet(bits, 0, n)
  {
    FindIsFirst(bits, n);
    r := Find(Word(bits, n)) as nat;
  }
}
