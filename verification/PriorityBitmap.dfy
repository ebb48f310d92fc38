/** The bitmap of the priorities that have a ready thread, in one level or two. */
module PriorityBitmap {
  import opened FirstBit

  /** Bit numbers: of the group word, and of the eight-bit entries of the table behind it. */
  datatype Bitmap = Bitmap(group: set<nat>, table: seq<set<nat>>)

  function Levels(wide: bool): (n: nat) {
    if wide then 256 else 32
  }

  /** The bit of the group word that a priority belongs to, and its bit of a table entry. */
  function Number(wide: bool, p: nat): (n: nat)
    ensures p < Levels(wide) ==> n < 32
  {
    if wide then p / 8 else p
  }

  function High(p: nat): (h: nat)
    ensures h < 8
  {
    p % 8
  }

  predicate Marked(b: Bitmap, wide: bool, p: nat)
    requires |b.table| == 32 && p < Levels(wide)
  {
    if wide then High(p) in b.table[Number(wide, p)] else p in b.group
  }

  /** An entry of the table has eight bits, and its bit of the group word says whether it is empty. */
  ghost predicate EntryOk(b: Bitmap, n: nat) {
    n < |b.table| ==> (forall h :: h in b.table[n] ==> h < 8) && (n in b.group <==> b.table[n] != {})
  }

  /** The bits are legal, and the group word says which table entries are not empty. */
  ghost predicate Shape(b: Bitmap, wide: bool) {
    && |b.table| == 32
    && (forall n :: n in b.group ==> n < 32)
    && (wide ==> forall n: nat :: EntryOk(b, n))
  }

  function WithMark(b: Bitmap, wide: bool, number: nat, high: nat): (r: Bitmap)
    requires |b.table| == 32 && number < 32
  {
    Bitmap(b.group + {number}, if wide then b.table[number := b.table[number] + {high}] else b.table)
  }

  function WithoutMark(b: Bitmap, wide: bool, number: nat, high: nat): (r: Bitmap)
    requires |b.table| == 32 && number < 32
  {
    var table := if wide then b.table[number := b.table[number] - {high}] else b.table;
    Bitmap(if wide && table[number] != {} then b.group else b.group - {number}, table)
  }

  function Highest(b: Bitmap, wide: bool): (p: int)
    requires |b.table| == 32
  {
    var number := FirstSet(b.group, 0, 32) - 1;
    if !wide then number
    else if number < 0 then -1
    else number * 8 + FirstSet(b.table[number], 0, 8) - 1
  }

  lemma SamePriority(p: nat, q: nat)
    requires p / 8 == q / 8 && p % 8 == q % 8
    ensures p == q
  {
  }

  lemma MarkKept(b: Bitmap, wide: bool, p: nat, q: nat)
    requires |b.table| == 32 && p < Levels(wide) && q < Levels(wide)
    ensures Marked(WithMark(b, wide, Number(wide, p), High(p)), wide, q) <==> q == p || Marked(b, wide, q)
    ensures Marked(WithoutMark(b, wide, Number(wide, p), High(p)), wide, q) <==> q != p && Marked(b, wide, q)
  {
    if wide && q != p && q / 8 == p / 8 && q % 8 == p % 8 {
      SamePriority(p, q);
    }
  }

  lemma ShapeKept(b: Bitmap, wide: bool, p: nat)
    requires Shape(b, wide) && p < Levels(wide)
    ensures Shape(WithMark(b, wide, Number(wide, p), High(p)), wide)
    ensures Shape(WithoutMark(b, wide, Number(wide, p), High(p)), wide)
  {
    var w, v := WithMark(b, wide, Number(wide, p), High(p)), WithoutMark(b, wide, Number(wide, p), High(p));
    if wide {
      forall n: nat
        ensures EntryOk(w, n) && EntryOk(v, n)
      {
        assert EntryOk(b, n);
      }
    }
  }

  lemma Compose(m: nat, k: nat, p: nat)
    requires k < 8 && m <= p / 8 && (m == p / 8 ==> k <= p % 8)
    ensures (m * 8 + k) / 8 == m && (m * 8 + k) % 8 == k && m * 8 + k <= p
  {
  }

  /** The first group with a bit is not empty and comes no later than any other that is not. */
  lemma FirstGroup(b: Bitmap, n: nat)
    requires Shape(b, true) && n < 32 && b.table[n] != {}
    ensures var m := FirstSet(b.group, 0, 32) - 1;
            0 <= m <= n && FirstSet(b.table[m], 0, 8) > 0
  {
    assert EntryOk(b, n);
    var m := FirstSet(b.group, 0, 32) - 1;
    assert EntryOk(b, m);
    var h :| h in b.table[m];
  }

  lemma FoundInTwo(b: Bitmap, n: nat, h: nat)
    requires Shape(b, true) && n < 32 && h in b.table[n]
    ensures var m := FirstSet(b.group, 0, 32) - 1;
            && 0 <= m <= n
            && var k := FirstSet(b.table[m], 0, 8) - 1; 0 <= k < 8 && k in b.table[m] && (m == n ==> k <= h)
  {
    FirstGroup(b, n);
    assert EntryOk(b, n);
  }

  /** The bitmap search finds the most urgent priority that is marked. */
  lemma HighestFound(b: Bitmap, wide: bool, p: nat)
    requires Shape(b, wide) && p < Levels(wide) && Marked(b, wide, p)
    ensures 0 <= Highest(b, wide) <= p && Marked(b, wide, Highest(b, wide))
  {
    if wide {
      FoundInTwo(b, p / 8, p % 8);
      var m := FirstSet(b.group, 0, 32) - 1;
      var k := FirstSet(b.table[m], 0, 8) - 1;
      Compose(m, k, p);
      MarkedAt(b, m, k);
    }
  }

  lemma MarkedAt(b: Bitmap, m: nat, k: nat)
    requires |b.table| == 32 && m < 32 && k < 8 && k in b.table[m]
    ensures Marked(b, true, m * 8 + k)
  {
    assert (m * 8 + k) / 8 == m && (m * 8 + k) % 8 == k;
  }

  /** The search of the kernel: the bit search by bytes, on the group word and on an entry of the table. */
  method Search(b: Bitmap, wide: bool) returns (p: int)
    requires |b.table| == 32
    ensures p == Highest(b, wide)
  {
    p := LowestBit(b.group, 32);
    p := p - 1;
    if wide && p >= 0 {
      var high := LowestBit(b.table[p], 8);
      p := p * 8 + high - 1;
    }
  }
}
