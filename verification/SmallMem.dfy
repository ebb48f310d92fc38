/**
 The first-fit heap of the small memory manager. Every size and offset the source
 works with is a multiple of the four-byte alignment, so offsets here count words.
 */
module SmallMem {
  import opened Options
  import opened Layout

  const HEADER: nat := 3
  const MIN_SIZE: nat := 3
  const FREE_TAG: int := 0x1ea0
  const USED_TAG: int := 0x1_1ea0

  function Words(bytes: nat): (n: nat)
    ensures 4 * n >= bytes && 4 * n < bytes + 4
  {
    (bytes + 3) / 4
  }

  function Max(a: nat, b: nat): (r: nat)
    ensures r >= a && r >= b && (r == a || r == b)
  {
    if a < b then b else a
  }

  function Room(b: Block): (n: int) {
    b.end - b.start - HEADER
  }

  // ----- the specification: a row of blocks, the search start, the words in use -----

  /** `size` is the heap's data size; the end header lies at `size + HEADER`. */
  datatype State = State(blocks: seq<Block>, lfree: nat, used: int)

  ghost predicate SearchStart(bs: seq<Block>, lfree: nat, end: nat) {
    lfree == end || exists i :: 0 <= i < |bs| && !bs[i].used && bs[i].start == lfree
  }

  ghost predicate Valid(s: State, size: nat) {
    && MIN_SIZE <= size
    && WellFormed(s.blocks, HEADER, size + HEADER)
    && SearchStart(s.blocks, s.lfree, size + HEADER)
    && s.used == Total(s.blocks)
  }

  /** The search starts at the lowest free block. */
  ghost predicate Lowest(s: State) {
    LowestIn(s.blocks, s.lfree)
  }

  ghost predicate LowestIn(bs: seq<Block>, lfree: nat) {
    forall k :: 0 <= k < |bs| && !bs[k].used ==> lfree <= bs[k].start
  }

  /** The first free block from position `from` on, or the end. */
  function FirstFree(bs: seq<Block>, from: nat, end: nat): (p: nat) {
    if bs == [] then end
    else if !bs[0].used && from <= bs[0].start then bs[0].start
    else FirstFree(bs[1..], from, end)
  }

  /** What the search accepts: a free block with room that starts below the limit. */
  predicate Fits(b: Block, from: nat, need: nat, size: nat) {
    !b.used && from <= b.start && Room(b) >= need && b.start < size - need
  }

  function FirstFit(bs: seq<Block>, k: nat, from: nat, need: nat, size: nat): (r: Option<nat>)
    requires k <= |bs|
    ensures r.Some? ==> k <= r.value < |bs| && Fits(bs[r.value], from, need, size)
    ensures r.Some? ==> forall i :: k <= i < r.value ==> !Fits(bs[i], from, need, size)
    ensures r.None? ==> forall i :: k <= i < |bs| ==> !Fits(bs[i], from, need, size)
    decreases |bs| - k
  {
    if k == |bs| then None
    else if Fits(bs[k], from, need, size) then Some(k)
    else FirstFit(bs, k + 1, from, need, size)
  }

  /** The words a request of that many bytes takes, unless it is refused at once. */
  function Request(bytes: nat, size: nat): (r: Option<nat>) {
    if bytes == 0 || Words(bytes) > size then None else Some(Max(Words(bytes), MIN_SIZE))
  }

  function Choice(s: State, bytes: nat, size: nat): (r: Option<nat>)
    ensures r.Some? ==> r.value < |s.blocks| && Request(bytes, size).Some?
    ensures r.Some? ==> Fits(s.blocks[r.value], s.lfree, Request(bytes, size).value, size)
  {
    var need :- Request(bytes, size);
    FirstFit(s.blocks, 0, s.lfree, need, size)
  }

  predicate Splits(b: Block, need: nat) {
    Room(b) >= need + HEADER + MIN_SIZE
  }

  /** Use block `i`, split when the rest holds a header and the smallest data. */
  ghost function Taken(bs: seq<Block>, i: nat, need: nat): (r: seq<Block>)
    requires i < |bs|
    ensures i < |r| && r[i].used && r[i].start == bs[i].start
  {
    if Splits(bs[i], need) then Divided(bs, i, bs[i].start + HEADER + need) else Flagged(bs, i, true)
  }

  ghost function Malloc(s: State, bytes: nat, size: nat): (r: State) {
    match Choice(s, bytes, size)
    case None => s
    case Some(i) =>
      var need := Request(bytes, size).value;
      var bs := Taken(s.blocks, i, need);
      State(bs, NextStart(s, i, need, size), s.used + bs[i].end - bs[i].start)
  }

  /** Joining a hole with its neighbours moves the search start off a header that goes away. */
  ghost function PlugStart(bs: seq<Block>, i: nat, lfree: nat): (p: nat)
    requires i < |bs|
  {
    var p := if NextFree(bs, i) && lfree == bs[i + 1].start then bs[i].start else lfree;
    if PreviousFree(bs, i) && p == bs[i].start then bs[i - 1].start else p
  }

  ghost function Free(s: State, i: nat): (r: State)
    requires i < |s.blocks|
  {
    var b := s.blocks[i];
    var lfree := if b.start < s.lfree then b.start else s.lfree;
    State(Released(s.blocks, i), PlugStart(Flagged(s.blocks, i, false), i, lfree), s.used - (b.end - b.start))
  }

  /** A block that is cut short does not lower the search start, unless its rest replaces that very block. */
  ghost function Shrink(s: State, i: nat, need: nat): (r: State)
    requires i < |s.blocks|
  {
    var cut := s.blocks[i].start + HEADER + need;
    State(Shrunk(s.blocks, i, cut), PlugStart(Divided(s.blocks, i, cut), i + 1, s.lfree),
          s.used - (Room(s.blocks[i]) - need))
  }

  // ----- what every operation keeps -----

  lemma {:induction false} FirstFreeFound(bs: seq<Block>, from: nat, end: nat)
    ensures SearchStart(bs, FirstFree(bs, from, end), end)
    ensures (forall i :: 0 <= i < |bs| ==> bs[i].start <= end) ==> FirstFree(bs, from, end) <= end
    ensures (forall i, j :: 0 <= i < j < |bs| ==> bs[i].start <= bs[j].start)
            && (forall i :: 0 <= i < |bs| ==> bs[i].start <= end)
            ==> forall i :: 0 <= i < |bs| && !bs[i].used && from <= bs[i].start
                            ==> FirstFree(bs, from, end) <= bs[i].start
  {
    if bs != [] {
      var rest := bs[1..];
      FirstFreeFound(rest, from, end);
      if bs[0].used || from > bs[0].start {
        if i :| 0 <= i < |rest| && !rest[i].used && rest[i].start == FirstFree(rest, from, end) {
          assert bs[i + 1] == rest[i];
        }
        forall i | 0 <= i < |bs| && !bs[i].used && from <= bs[i].start
          ensures i > 0 && bs[i] == rest[i - 1]
        {
        }
      }
    }
  }

  lemma MallocKeeps(s: State, bytes: nat, size: nat)
    requires Valid(s, size)
    ensures Valid(Malloc(s, bytes, size), size)
    ensures Lowest(s) ==> Lowest(Malloc(s, bytes, size))
  {
    match Choice(s, bytes, size)
    case None =>
    case Some(i) => TakenKeeps(s, i, Request(bytes, size).value, bytes, size);
  }

  lemma TakenRow(bs: seq<Block>, i: nat, need: nat, end: nat)
    requires WellFormed(bs, HEADER, end) && i < |bs| && !bs[i].used && Room(bs[i]) >= need
    ensures WellFormed(Taken(bs, i, need), HEADER, end)
  {
    if Splits(bs[i], need) {
      DividedWellFormed(bs, i, bs[i].start + HEADER + need, HEADER, end);
    } else {
      UsedWellFormed(bs, i, HEADER, end);
    }
  }

  lemma TakenUsed(bs: seq<Block>, i: nat, need: nat)
    requires i < |bs| && !bs[i].used
    ensures Total(Taken(bs, i, need)) == Total(bs) + Taken(bs, i, need)[i].end - bs[i].start
  {
    if Splits(bs[i], need) {
      TotalDivided(bs, i, bs[i].start + HEADER + need);
    } else {
      TotalFlagged(bs, i, true);
    }
  }

  /** A free block after taking block `i` was free before or is the rest of block `i`. */
  lemma TakenFree(bs: seq<Block>, i: nat, need: nat, k: nat)
    requires i < |bs| && k < |Taken(bs, i, need)| && !Taken(bs, i, need)[k].used
    ensures k != i
    ensures k < i ==> Taken(bs, i, need)[k] == bs[k]
    ensures k == i + 1 && Splits(bs[i], need) ==> Taken(bs, i, need)[k].start >= bs[i].start
    ensures k > i && !(k == i + 1 && Splits(bs[i], need)) ==> Taken(bs, i, need)[k] in bs[i + 1..]
  {
    var r := Taken(bs, i, need);
    if k > i && !(k == i + 1 && Splits(bs[i], need)) {
      var j := if Splits(bs[i], need) then k - 1 else k;
      assert r[k] == bs[j] == bs[i + 1..][j - i - 1];
    }
  }

  lemma TakenKeeps(s: State, i: nat, need: nat, bytes: nat, size: nat)
    requires Valid(s, size) && Choice(s, bytes, size) == Some(i) && Request(bytes, size) == Some(need)
    ensures Valid(Malloc(s, bytes, size), size)
    ensures Lowest(s) ==> Lowest(Malloc(s, bytes, size))
  {
    TakenRow(s.blocks, i, need, size + HEADER);
    TakenUsed(s.blocks, i, need);
    TakenStart(s, i, need, size);
    if Lowest(s) {
      TakenLowest(s, i, need, size);
    }
  }

  /** Where the next search starts after taking block `i`. */
  ghost function NextStart(s: State, i: nat, need: nat, size: nat): (p: nat)
    requires i < |s.blocks|
  {
    if s.blocks[i].start == s.lfree then FirstFree(Taken(s.blocks, i, need), s.lfree, size + HEADER) else s.lfree
  }

  lemma TakenStart(s: State, i: nat, need: nat, size: nat)
    requires Valid(s, size) && i < |s.blocks|
    ensures SearchStart(Taken(s.blocks, i, need), NextStart(s, i, need, size), size + HEADER)
  {
    if s.blocks[i].start == s.lfree {
      FirstFreeFound(Taken(s.blocks, i, need), s.lfree, size + HEADER);
    } else {
      SearchStartStays(s, i, need, size);
    }
  }

  lemma TakenLowest(s: State, i: nat, need: nat, size: nat)
    requires Valid(s, size) && Lowest(s) && i < |s.blocks| && !s.blocks[i].used && Room(s.blocks[i]) >= need
    ensures forall k :: 0 <= k < |Taken(s.blocks, i, need)| && !Taken(s.blocks, i, need)[k].used
                        ==> NextStart(s, i, need, size) <= Taken(s.blocks, i, need)[k].start
  {
    var bs := Taken(s.blocks, i, need);
    forall k | 0 <= k < |bs| && !bs[k].used
      ensures s.lfree <= bs[k].start
    {
      TakenFree(s.blocks, i, need, k);
    }
    if s.blocks[i].start == s.lfree {
      TakenRow(s.blocks, i, need, size + HEADER);
      FirstFreeLowest(bs, s.lfree, size + HEADER);
    }
  }

  lemma FirstFreeLowest(bs: seq<Block>, from: nat, end: nat)
    requires Tiled(bs, HEADER, end)
    ensures forall k :: 0 <= k < |bs| && !bs[k].used && from <= bs[k].start ==> FirstFree(bs, from, end) <= bs[k].start
  {
    Ordered(bs, HEADER, end);
    FirstFreeFound(bs, from, end);
  }

  /** Another block than the search start was taken: the search start is still a free block. */
  lemma SearchStartStays(s: State, i: nat, need: nat, size: nat)
    requires Valid(s, size) && i < |s.blocks| && s.blocks[i].start != s.lfree
    ensures SearchStart(Taken(s.blocks, i, need), s.lfree, size + HEADER)
  {
    var bs, r := s.blocks, Taken(s.blocks, i, need);
    if s.lfree != size + HEADER {
      var k :| 0 <= k < |bs| && !bs[k].used && bs[k].start == s.lfree;
      if k < i || !Splits(bs[i], need) {
        assert r[k] == bs[k];
      } else {
        assert r[k + 1] == bs[k];
      }
    }
  }

  /** Where the search start moves when blocks `a` and `a + 1` become one. */
  function MergedStart(bs: seq<Block>, a: nat, lfree: nat): (p: nat)
    requires a + 1 < |bs|
  {
    if lfree == bs[a + 1].start then bs[a].start else lfree
  }

  lemma MergedStartKeeps(bs: seq<Block>, a: nat, lfree: nat, end: nat)
    requires a + 1 < |bs| && !bs[a].used && !bs[a + 1].used && bs[a].start <= bs[a + 1].start
    requires SearchStart(bs, lfree, end)
    ensures SearchStart(Merged(bs, a), MergedStart(bs, a, lfree), end)
    ensures LowestIn(bs, lfree) ==> LowestIn(Merged(bs, a), MergedStart(bs, a, lfree))
  {
    var r := Merged(bs, a);
    if lfree == bs[a + 1].start {
      assert r[a].start == bs[a].start;
    } else if lfree != end {
      var k :| 0 <= k < |bs| && !bs[k].used && bs[k].start == lfree;
      assert r[if k <= a then k else k - 1].start == lfree;
    }
    if LowestIn(bs, lfree) {
      forall k | 0 <= k < |r| && !r[k].used
        ensures MergedStart(bs, a, lfree) <= r[k].start
      {
        assert k > a ==> r[k] == bs[k + 1];
      }
    }
  }

  lemma PlugStartKeeps(bs: seq<Block>, i: nat, lfree: nat, end: nat)
    requires Tiled(bs, HEADER, end) && i < |bs| && !bs[i].used
    requires SearchStart(bs, lfree, end)
    ensures SearchStart(Plugged(bs, i), PlugStart(bs, i, lfree), end)
    ensures LowestIn(bs, lfree) ==> LowestIn(Plugged(bs, i), PlugStart(bs, i, lfree))
  {
    var cs := JoinNext(bs, i);
    var p := if NextFree(bs, i) then MergedStart(bs, i, lfree) else lfree;
    assert SearchStart(cs, p, end) && (LowestIn(bs, lfree) ==> LowestIn(cs, p)) by {
      if NextFree(bs, i) {
        assert Link(bs, i);
        MergedStartKeeps(bs, i, lfree, end);
      }
    }
    assert i < |cs| && !cs[i].used && cs[i].start == bs[i].start;
    if PreviousFree(cs, i) {
      assert cs[i - 1] == bs[i - 1] && Link(bs, i - 1);
      MergedStartKeeps(cs, i - 1, p, end);
    }
  }

  lemma PluggedUsed(bs: seq<Block>, i: nat)
    requires i < |bs| && !bs[i].used
    ensures Total(Plugged(bs, i)) == Total(bs)
  {
    if NextFree(bs, i) {
      TotalMerged(bs, i);
    }
    if PreviousFree(JoinNext(bs, i), i) {
      TotalMerged(JoinNext(bs, i), i - 1);
    }
  }

  lemma FlaggedStart(bs: seq<Block>, i: nat, lfree: nat, end: nat)
    requires i < |bs| && bs[i].used && SearchStart(bs, lfree, end)
    ensures var low := if bs[i].start < lfree then bs[i].start else lfree;
            && SearchStart(Flagged(bs, i, false), low, end)
            && (LowestIn(bs, lfree) ==> LowestIn(Flagged(bs, i, false), low))
  {
    var r := Flagged(bs, i, false);
    assert r[i].start == bs[i].start;
    if bs[i].start >= lfree && lfree != end {
      var k :| 0 <= k < |bs| && !bs[k].used && bs[k].start == lfree;
      assert r[k] == bs[k];
    }
  }

  lemma FreeUsed(bs: seq<Block>, i: nat)
    requires i < |bs| && bs[i].used
    ensures Total(Released(bs, i)) == Total(bs) - (bs[i].end - bs[i].start)
  {
    TotalFlagged(bs, i, false);
    PluggedUsed(Flagged(bs, i, false), i);
  }

  lemma FreeStart(s: State, i: nat, end: nat)
    requires Tiled(s.blocks, HEADER, end) && SearchStart(s.blocks, s.lfree, end)
    requires i < |s.blocks| && s.blocks[i].used
    ensures SearchStart(Free(s, i).blocks, Free(s, i).lfree, end)
    ensures Lowest(s) ==> Lowest(Free(s, i))
  {
    var low := if s.blocks[i].start < s.lfree then s.blocks[i].start else s.lfree;
    FlaggedTiled(s.blocks, i, false, HEADER, end);
    FlaggedStart(s.blocks, i, s.lfree, end);
    PlugStartKeeps(Flagged(s.blocks, i, false), i, low, end);
  }

  lemma FreeKeeps(s: State, i: nat, size: nat)
    requires Valid(s, size) && i < |s.blocks| && s.blocks[i].used
    ensures Valid(Free(s, i), size)
    ensures Lowest(s) ==> Lowest(Free(s, i))
  {
    ReleasedWellFormed(s.blocks, i, HEADER, size + HEADER);
    FreeUsed(s.blocks, i);
    FreeStart(s, i, size + HEADER);
  }

  lemma DividedStart(bs: seq<Block>, i: nat, cut: nat, lfree: nat, end: nat)
    requires i < |bs| && bs[i].used && SearchStart(bs, lfree, end)
    ensures SearchStart(Divided(bs, i, cut), lfree, end)
    ensures LowestIn(bs, lfree) && lfree <= cut ==> LowestIn(Divided(bs, i, cut), lfree)
  {
    var r := Divided(bs, i, cut);
    if lfree != end {
      var k :| 0 <= k < |bs| && !bs[k].used && bs[k].start == lfree;
      assert r[if k < i then k else k + 1] == bs[k];
    }
  }

  lemma ShrinkUsed(bs: seq<Block>, i: nat, cut: nat)
    requires i < |bs| && bs[i].used
    ensures Total(Shrunk(bs, i, cut)) == Total(bs) - (bs[i].end - cut)
  {
    TotalDivided(bs, i, cut);
    PluggedUsed(Divided(bs, i, cut), i + 1);
  }

  lemma ShrinkStart(bs: seq<Block>, i: nat, cut: nat, lfree: nat, end: nat)
    requires Tiled(bs, HEADER, end) && SearchStart(bs, lfree, end)
    requires i < |bs| && bs[i].used && bs[i].start + HEADER <= cut && cut + HEADER <= bs[i].end
    ensures SearchStart(Shrunk(bs, i, cut), PlugStart(Divided(bs, i, cut), i + 1, lfree), end)
    ensures LowestIn(bs, lfree) && lfree <= cut
            ==> LowestIn(Shrunk(bs, i, cut), PlugStart(Divided(bs, i, cut), i + 1, lfree))
  {
    DividedTiled(bs, i, cut, HEADER, end);
    DividedStart(bs, i, cut, lfree, end);
    PlugStartKeeps(Divided(bs, i, cut), i + 1, lfree, end);
  }

  /** The search starts below the cut block, or at the free block that the rest will join. */
  ghost predicate StartsLow(bs: seq<Block>, i: nat, lfree: nat) {
    i < |bs| && (lfree <= bs[i].start || (NextFree(bs, i) && lfree == bs[i].end))
  }

  lemma ShrinkKeeps(s: State, i: nat, need: nat, size: nat)
    requires Valid(s, size) && i < |s.blocks| && s.blocks[i].used
    requires need + HEADER + MIN_SIZE < Room(s.blocks[i])
    ensures Valid(Shrink(s, i, need), size)
  {
    var cut := s.blocks[i].start + HEADER + need;
    var after := Shrink(s, i, need);
    assert WellFormed(after.blocks, HEADER, size + HEADER) by {
      ShrunkWellFormed(s.blocks, i, cut, HEADER, size + HEADER);
    }
    assert after.used == Total(after.blocks) by {
      ShrinkUsed(s.blocks, i, cut);
    }
    assert SearchStart(after.blocks, after.lfree, size + HEADER) by {
      ShrinkStart(s.blocks, i, cut, s.lfree, size + HEADER);
    }
  }

  /**
   Cutting a block short keeps the search start lowest exactly when the search started
   below the block, or at the free block that the rest joins.
   */
  lemma ShrinkKeepsLowest(s: State, i: nat, need: nat, size: nat)
    requires Valid(s, size) && i < |s.blocks| && s.blocks[i].used && Lowest(s)
    requires need + HEADER + MIN_SIZE < Room(s.blocks[i])
    ensures Lowest(Shrink(s, i, need)) <==> StartsLow(s.blocks, i, s.lfree)
  {
    var cut := s.blocks[i].start + HEADER + need;
    var after := Shrink(s, i, need);
    ShrinkLowest(s.blocks, i, cut, s.lfree, size + HEADER);
    assert Lowest(after) == LowestIn(after.blocks, after.lfree);
  }

  lemma ShrinkLowest(bs: seq<Block>, i: nat, cut: nat, lfree: nat, end: nat)
    requires Tiled(bs, HEADER, end) && SearchStart(bs, lfree, end) && LowestIn(bs, lfree)
    requires i < |bs| && bs[i].used && bs[i].start + HEADER <= cut && cut + HEADER <= bs[i].end
    ensures LowestIn(Shrunk(bs, i, cut), PlugStart(Divided(bs, i, cut), i + 1, lfree)) <==> StartsLow(bs, i, lfree)
  {
    var r := Divided(bs, i, cut);
    var after, p := Shrunk(bs, i, cut), PlugStart(r, i + 1, lfree);
    assert Link(bs, i);
    if lfree <= bs[i].start {
      ShrinkStart(bs, i, cut, lfree, end);
    } else if StartsLow(bs, i, lfree) {
      assert after == Merged(r, i + 1) && p == cut;
      forall k | 0 <= k < |after| && !after[k].used
        ensures p <= after[k].start
      {
        assert k != i + 1 ==> after[k] == bs[k];
      }
    } else {
      assert after[i + 1].start == cut && !after[i + 1].used;
      StartNotInside(bs, i, lfree, end);
      assert p == lfree;
    }
  }

  lemma StartNotInside(bs: seq<Block>, i: nat, lfree: nat, end: nat)
    requires Tiled(bs, HEADER, end) && SearchStart(bs, lfree, end) && i < |bs| && bs[i].used
    ensures lfree <= bs[i].start || bs[i].end <= lfree
  {
    if lfree == end {
      Ascending(bs, HEADER, end, i, i);
    } else {
      var k :| 0 <= k < |bs| && !bs[k].used && bs[k].start == lfree;
      if k < i {
        Ascending(bs, HEADER, end, k, i);
      } else {
        Ascending(bs, HEADER, end, i, k);
      }
    }
  }

  // ----- which requests fail -----

  /** The limit of the search refuses a free block with room only if it is the last one and fits exactly. */
  lemma LimitRefuses(s: State, i: nat, need: nat, size: nat)
    requires Valid(s, size) && i < |s.blocks| && !s.blocks[i].used && Room(s.blocks[i]) >= need
    ensures s.blocks[i].start >= size - need <==> i == |s.blocks| - 1 && Room(s.blocks[i]) == need
  {
    Ascending(s.blocks, HEADER, size + HEADER, i, i);
    if i < |s.blocks| - 1 {
      Ascending(s.blocks, HEADER, size + HEADER, i, |s.blocks| - 1);
    }
  }

  /** Enough room for the request, and not the exact fit at the end of the heap. */
  ghost predicate Serves(s: State, i: nat, need: nat) {
    && i < |s.blocks| && !s.blocks[i].used && s.lfree <= s.blocks[i].start
    && Room(s.blocks[i]) >= need
    && !(i == |s.blocks| - 1 && Room(s.blocks[i]) == need)
  }

  /** Allocation takes the lowest block from the search start on that serves, and fails only if none does. */
  lemma MallocFirstFit(s: State, bytes: nat, size: nat)
    requires Valid(s, size) && Request(bytes, size).Some?
    ensures var need := Request(bytes, size).value;
            match Choice(s, bytes, size)
            case None => forall i :: 0 <= i < |s.blocks| ==> !Serves(s, i, need)
            case Some(c) => Serves(s, c, need) && forall i :: 0 <= i < c ==> !Serves(s, i, need)
  {
    var need := Request(bytes, size).value;
    forall i | 0 <= i < |s.blocks|
      ensures Serves(s, i, need) <==> Fits(s.blocks[i], s.lfree, need, size)
    {
      if !s.blocks[i].used && Room(s.blocks[i]) >= need {
        LimitRefuses(s, i, need, size);
      }
    }
  }

  // ----- how much an operation takes and leaves -----

  /** A request is refused at once if it is empty or larger than the heap; else it takes at least three words. */
  lemma RequestMeans(bytes: nat, size: nat)
    ensures Request(bytes, size) == None <==> bytes == 0 || bytes > 4 * size
    ensures var r := Request(bytes, size);
            r.Some? ==> 3 <= r.value && bytes <= 4 * r.value && (r.value == 3 || 4 * r.value < bytes + 4)
  {
  }

  /**
   The block handed out has exactly the words asked for if three words of header and three of data
   remain, and the rest is one free block behind it; otherwise the whole block is taken. Its room is
   always less than the words asked for and six.
   */
  lemma MallocTakes(s: State, bytes: nat, size: nat)
    requires Valid(s, size) && Choice(s, bytes, size).Some?
    ensures var i, need, r := Choice(s, bytes, size).value, Request(bytes, size).value, Malloc(s, bytes, size);
            var b := s.blocks[i];
            var cut := b.start + 3 + need;
            && b.end >= cut
            && (if b.end >= cut + 6 then
                  && r.blocks
                     == s.blocks[..i] + [Block(b.start, cut, true), Block(cut, b.end, false)] + s.blocks[i + 1..]
                  && r.used == s.used + need + 3
                else
                  && r.blocks == s.blocks[..i] + [Block(b.start, b.end, true)] + s.blocks[i + 1..]
                  && r.used == s.used + b.end - b.start)
            && need <= r.blocks[i].end - r.blocks[i].start - 3 < need + 6
  {
    var i, need := Choice(s, bytes, size).value, Request(bytes, size).value;
    var b := s.blocks[i];
    DividedWhole(s.blocks, i, b.start + 3 + need);
    assert Flagged(s.blocks, i, true) == s.blocks[..i] + [Block(b.start, b.end, true)] + s.blocks[i + 1..];
  }

  /** The search goes on where it started, or from the lowest free block behind the one that was taken. */
  lemma MallocStart(s: State, bytes: nat, size: nat)
    requires Valid(s, size) && Choice(s, bytes, size).Some?
    ensures var b, r := s.blocks[Choice(s, bytes, size).value], Malloc(s, bytes, size);
            && (b.start != s.lfree ==> r.lfree == s.lfree)
            && (b.start == s.lfree ==>
                  && r.lfree > s.lfree && SearchStart(r.blocks, r.lfree, size + 3)
                  && forall k :: 0 <= k < |r.blocks| && !r.blocks[k].used && s.lfree <= r.blocks[k].start
                                 ==> r.lfree <= r.blocks[k].start)
  {
    var i, need := Choice(s, bytes, size).value, Request(bytes, size).value;
    if s.blocks[i].start == s.lfree {
      TakenRow(s.blocks, i, need, size + HEADER);
      FirstFreeAbove(Taken(s.blocks, i, need), i, size + HEADER);
      FirstFreeLowest(Taken(s.blocks, i, need), s.lfree, size + HEADER);
      TakenStart(s, i, need, size);
    }
  }

  /** A block that is freed is no longer used; all other used blocks stay, in their order. */
  lemma FreeReleases(s: State, i: nat)
    requires i < |s.blocks| && s.blocks[i].used
    ensures Live(Free(s, i).blocks) == Live(s.blocks[..i]) + Live(s.blocks[i + 1..])
    ensures Free(s, i).used == s.used - (s.blocks[i].end - s.blocks[i].start)
  {
    LiveReleased(s.blocks, i);
  }

  /** Block `i` is cut to `w` words; all other used blocks stay. */
  ghost predicate IsCut(s: State, i: nat, w: nat, r: State)
    requires i < |s.blocks|
  {
    var b := s.blocks[i];
    && CutLive(s.blocks, i, b.start + 3 + w, r.blocks)
    && r.used == s.used - (b.end - b.start - 3 - w)
  }

  lemma ShrinkMeans(s: State, i: nat, w: nat)
    requires i < |s.blocks| && s.blocks[i].used
    ensures IsCut(s, i, w, Shrink(s, i, w))
  {
    LiveShrunk(s.blocks, i, s.blocks[i].start + HEADER + w);
  }

  lemma RelocatedMeans(s: State, i: nat, bytes: nat, size: nat)
    requires i < |s.blocks| && s.blocks[i].used && Choice(s, bytes, size).Some?
    ensures exists k :: IsFreed(Malloc(s, bytes, size), k, s.blocks[i], Relocated(s, i, bytes, size))
  {
    var c := Choice(s, bytes, size).value;
    var k := Shifted(s.blocks, i, c, Request(bytes, size).value);
    ShiftedBlock(s.blocks, i, c, Request(bytes, size).value);
    assert IsFreed(Malloc(s, bytes, size), k, s.blocks[i], Relocated(s, i, bytes, size));
  }

  /**
   A block with room for more than six words more than asked for is cut behind the words asked for;
   one of the right size stays; any other moves to where an allocation goes, and is freed.
   */
  lemma ReallocMeans(s: State, i: nat, bytes: nat, size: nat)
    requires i < |s.blocks| && s.blocks[i].used
    ensures var b, w, r := s.blocks[i], (bytes + 3) / 4, Realloc(s, i, bytes, size);
            var room := b.end - b.start - 3;
            if w > size || room == w then r == s
            else if w + 6 < room then IsCut(s, i, w, r)
            else if Choice(s, bytes, size).None? then r == s
            else exists k :: IsFreed(Malloc(s, bytes, size), k, b, r)
  {
    var w := Words(bytes);
    if w > size || Room(s.blocks[i]) == w {
    } else if w + HEADER + MIN_SIZE < Room(s.blocks[i]) {
      ShrinkMeans(s, i, w);
    } else if Choice(s, bytes, size).Some? {
      RelocatedMeans(s, i, bytes, size);
      assert Realloc(s, i, bytes, size) == Relocated(s, i, bytes, size);
    }
  }

  /** State `r` is `s` with its block `k`, which is `b`, freed. */
  ghost predicate IsFreed(s: State, k: nat, b: Block, r: State) {
    k < |s.blocks| && s.blocks[k] == b && r == Free(s, k)
  }

  // ----- free undoes malloc -----

  lemma FirstFreeAbove(bs: seq<Block>, i: nat, end: nat)
    requires Tiled(bs, HEADER, end) && i < |bs| && bs[i].used
    ensures FirstFree(bs, bs[i].start, end) > bs[i].start
  {
    Ordered(bs, HEADER, end);
    FirstFreeFound(bs, bs[i].start, end);
    FirstFreeFrom(bs, bs[i].start, end);
    var p := FirstFree(bs, bs[i].start, end);
    if p != end {
      var k :| 0 <= k < |bs| && !bs[k].used && bs[k].start == p;
      assert k != i;
    }
  }

  lemma {:induction false} FirstFreeFrom(bs: seq<Block>, from: nat, end: nat)
    ensures FirstFree(bs, from, end) == end || from <= FirstFree(bs, from, end)
  {
    if bs != [] {
      FirstFreeFrom(bs[1..], from, end);
    }
  }

  lemma ReleaseTaken(bs: seq<Block>, i: nat, need: nat, end: nat)
    requires WellFormed(bs, HEADER, end) && i < |bs| && !bs[i].used && Room(bs[i]) >= need
    ensures Released(Taken(bs, i, need), i) == bs
  {
    var cut := bs[i].start + HEADER + need;
    var r := Taken(bs, i, need);
    if Splits(bs[i], need) {
      assert Released(Divided(bs, i, cut), i) == bs by {
        ReleaseUndoesDivide(bs, i, cut, HEADER, end);
      }
      assert r == Divided(bs, i, cut);
    } else {
      assert Released(Flagged(bs, i, true), i) == bs by {
        ReleaseUndoesUse(bs, i, HEADER, end);
      }
      assert r == Flagged(bs, i, true);
    }
  }

  /** Freeing what was just allocated restores the heap: the blocks, the search start and the count. */
  lemma FreeUndoesMalloc(s: State, bytes: nat, size: nat)
    requires Valid(s, size) && Choice(s, bytes, size).Some?
    ensures Free(Malloc(s, bytes, size), Choice(s, bytes, size).value) == s
  {
    FreeTaken(s, Malloc(s, bytes, size), Choice(s, bytes, size).value, Request(bytes, size).value, size);
  }

  lemma FreeTaken(s: State, m: State, i: nat, need: nat, size: nat)
    requires Valid(s, size) && i < |s.blocks| && Fits(s.blocks[i], s.lfree, need, size)
    requires m.blocks == Taken(s.blocks, i, need) && m.lfree == NextStart(s, i, need, size)
    requires m.used == s.used + m.blocks[i].end - s.blocks[i].start
    ensures Free(m, i) == s
  {
    var end := size + HEADER;
    assert Free(m, i).blocks == s.blocks by {
      ReleaseTaken(s.blocks, i, need, end);
    }
    assert Free(m, i).lfree == s.lfree by {
      LowAgain(s, m.blocks, i, need, size);
      StartRestored(s, i, need, end);
    }
  }

  /** The lower of the next search start and the freed block is where the search started. */
  lemma LowAgain(s: State, r: seq<Block>, i: nat, need: nat, size: nat)
    requires Valid(s, size) && i < |s.blocks| && Fits(s.blocks[i], s.lfree, need, size) && r == Taken(s.blocks, i, need)
    ensures var next := NextStart(s, i, need, size);
            (if s.blocks[i].start < next then s.blocks[i].start else next) == s.lfree
  {
    if s.blocks[i].start == s.lfree {
      TakenRow(s.blocks, i, need, size + HEADER);
      FirstFreeAbove(r, i, size + HEADER);
    }
  }

  lemma StartRestored(s: State, i: nat, need: nat, end: nat)
    requires WellFormed(s.blocks, HEADER, end) && i < |s.blocks| && !s.blocks[i].used
    requires s.lfree <= s.blocks[i].start && Room(s.blocks[i]) >= need
    ensures PlugStart(Flagged(Taken(s.blocks, i, need), i, false), i, s.lfree) == s.lfree
  {
    var r := Taken(s.blocks, i, need);
    TakenRow(s.blocks, i, need, end);
    assert Link(r, i);
    assert Apart(s.blocks, i - 1);
    assert i > 0 ==> r[i - 1] == s.blocks[i - 1];
  }

  // ----- whole runs -----

  /** Where block `i` is after block `c` has been taken. */
  function Shifted(bs: seq<Block>, i: nat, c: nat, need: nat): (k: nat)
    requires c < |bs|
  {
    if c < i && Splits(bs[c], need) then i + 1 else i
  }

  ghost function Realloc(s: State, i: nat, bytes: nat, size: nat): (r: State)
    requires i < |s.blocks|
  {
    var w := Words(bytes);
    if w > size || Room(s.blocks[i]) == w then s
    else if w + HEADER + MIN_SIZE < Room(s.blocks[i]) then Shrink(s, i, w)
    else Relocated(s, i, bytes, size)
  }

  /** Allocate a new block and release block `i`; nothing changes when there is none. */
  ghost function Relocated(s: State, i: nat, bytes: nat, size: nat): (r: State)
    requires i < |s.blocks|
  {
    match Choice(s, bytes, size)
    case None => s
    case Some(c) =>
      var k := Shifted(s.blocks, i, c, Request(bytes, size).value);
      if k < |Malloc(s, bytes, size).blocks| then Free(Malloc(s, bytes, size), k) else s
  }

  lemma ShiftedBlock(bs: seq<Block>, i: nat, c: nat, need: nat)
    requires i < |bs| && c < |bs| && bs[i].used && !bs[c].used
    ensures Shifted(bs, i, c, need) < |Taken(bs, c, need)|
    ensures Taken(bs, c, need)[Shifted(bs, i, c, need)] == bs[i]
  {
    var r := Taken(bs, c, need);
    if Splits(bs[c], need) {
      assert r == Divided(bs, c, bs[c].start + HEADER + need);
      assert i > c ==> r[i + 1] == bs[i];
    } else {
      assert r == Flagged(bs, c, true);
    }
  }

  /** The reallocation cuts block `i` short where it is. */
  predicate CutShort(s: State, i: nat, bytes: nat, size: nat)
    requires i < |s.blocks|
  {
    Words(bytes) <= size && Words(bytes) + HEADER + MIN_SIZE < Room(s.blocks[i])
  }

  /** Reallocation keeps the search start lowest unless it cuts a block short below it; moving a block keeps it. */
  lemma ReallocKeeps(s: State, i: nat, bytes: nat, size: nat)
    requires Valid(s, size) && i < |s.blocks| && s.blocks[i].used
    ensures Valid(Realloc(s, i, bytes, size), size)
    ensures Lowest(s) ==>
              (Lowest(Realloc(s, i, bytes, size))
               <==> !CutShort(s, i, bytes, size) || StartsLow(s.blocks, i, s.lfree))
  {
    var w := Words(bytes);
    if w > size || Room(s.blocks[i]) == w {
    } else if w + HEADER + MIN_SIZE < Room(s.blocks[i]) {
      ShrinkKeeps(s, i, w, size);
      if Lowest(s) {
        ShrinkKeepsLowest(s, i, w, size);
      }
    } else if Choice(s, bytes, size).Some? {
      var c := Choice(s, bytes, size).value;
      MallocKeeps(s, bytes, size);
      ShiftedBlock(s.blocks, i, c, Request(bytes, size).value);
      FreeKeeps(Malloc(s, bytes, size), Shifted(s.blocks, i, c, Request(bytes, size).value), size);
    }
  }

  /** The calls of a program; a block is named by the position of its header. */
  datatype Call = CallMalloc(bytes: nat) | CallFree(start: nat) | CallRealloc(start: nat, bytes: nat)

  function IndexOf(bs: seq<Block>, start: nat): (r: Option<nat>)
    ensures r.Some? ==> r.value < |bs| && bs[r.value].start == start && bs[r.value].used
  {
    if bs == [] then None
    else if bs[0].start == start && bs[0].used then Some(0)
    else match IndexOf(bs[1..], start) case None => None case Some(k) => Some(k + 1)
  }

  /** Every used block of the row is found by its start, and nothing else is. */
  lemma {:induction false} FoundIff(bs: seq<Block>, start: nat)
    ensures IndexOf(bs, start).Some? <==> exists b :: b in bs && b.used && b.start == start
  {
    if bs != [] {
      FoundIff(bs[1..], start);
      assert bs == [bs[0]] + bs[1..];
    }
  }

  ghost function Step(s: State, call: Call, size: nat): (r: State) {
    match call
    case CallMalloc(bytes) => Malloc(s, bytes, size)
    case CallFree(start) =>
      (match IndexOf(s.blocks, start)
       case None => s
       case Some(i) => Free(s, i))
    case CallRealloc(start, bytes) =>
      (match IndexOf(s.blocks, start)
       case None => s
       case Some(i) => Realloc(s, i, bytes, size))
  }

  ghost function Run(s: State, calls: seq<Call>, size: nat): (r: State)
    decreases |calls|
  {
    if calls == [] then s else Run(Step(s, calls[0], size), calls[1..], size)
  }

  /** A run makes every one of its calls, the last one last. */
  lemma {:induction false} RunSteps(s: State, calls: seq<Call>, last: Call, size: nat)
    ensures Run(s, [], size) == s && Run(s, calls + [last], size) == Step(Run(s, calls, size), last, size)
    decreases |calls|
  {
    assert [last][1..] == [];
    if calls == [] {
      assert calls + [last] == [last];
    } else {
      RunSteps(Step(s, calls[0], size), calls[1..], last, size);
      assert (calls + [last])[1..] == calls[1..] + [last];
    }
  }

  function Initial(size: nat): (s: State) {
    State([Block(0, size + HEADER, false)], 0, 0)
  }

  lemma InitialValid(size: nat)
    requires size >= MIN_SIZE
    ensures Valid(Initial(size), size) && Lowest(Initial(size))
  {
    var bs := Initial(size).blocks;
    assert bs[1..] == [];
    assert bs[0].start == 0 && !bs[0].used;
  }

  /** The call leaves a free block below the search start. */
  ghost predicate Strands(s: State, call: Call, size: nat) {
    call.CallRealloc? &&
    match IndexOf(s.blocks, call.start)
    case None => false
    case Some(i) => CutShort(s, i, call.bytes, size) && !StartsLow(s.blocks, i, s.lfree)
  }

  lemma StepKeeps(s: State, call: Call, size: nat)
    requires Valid(s, size)
    ensures Valid(Step(s, call, size), size)
    ensures Lowest(s) ==> (Lowest(Step(s, call, size)) <==> !Strands(s, call, size))
  {
    match call
    case CallMalloc(bytes) => MallocKeeps(s, bytes, size);
    case CallFree(start) =>
      if IndexOf(s.blocks, start).Some? {
        FreeKeeps(s, IndexOf(s.blocks, start).value, size);
      }
    case CallRealloc(start, bytes) =>
      if IndexOf(s.blocks, start).Some? {
        ReallocKeeps(s, IndexOf(s.blocks, start).value, bytes, size);
      }
  }

  ghost predicate NoneStrands(s: State, calls: seq<Call>, size: nat)
    decreases |calls|
  {
    calls == [] || (!Strands(s, calls[0], size) && NoneStrands(Step(s, calls[0], size), calls[1..], size))
  }

  /** Every heap a program can reach is valid; if no reallocation strands a block, its search start is lowest. */
  lemma {:induction false} RunKeeps(s: State, calls: seq<Call>, size: nat)
    requires Valid(s, size)
    ensures Valid(Run(s, calls, size), size)
    ensures Lowest(s) && NoneStrands(s, calls, size) ==> Lowest(Run(s, calls, size))
    decreases |calls|
  {
    if calls != [] {
      StepKeeps(s, calls[0], size);
      RunKeeps(Step(s, calls[0], size), calls[1..], size);
    }
  }

  /** With malloc and free alone no block is stranded. */
  lemma {:induction false} WithoutRealloc(s: State, calls: seq<Call>, size: nat)
    requires forall i :: 0 <= i < |calls| ==> !calls[i].CallRealloc?
    ensures NoneStrands(s, calls, size)
    decreases |calls|
  {
    if calls != [] {
      WithoutRealloc(Step(s, calls[0], size), calls[1..], size);
    }
  }

  // ----- where the promises end -----

  /** A heap of twenty words, all of it in one block of nineteen words that was asked for. */
  lemma WholeTaken()
    ensures Step(Initial(20), CallMalloc(76), 20) == State([Block(0, 23, true)], 23, 23)
  {
    var s := Initial(20);
    assert Fits(s.blocks[0], 0, 19, 20);
    assert FirstFit(s.blocks, 0, 0, 19, 20) == Some(0);
    assert Taken(s.blocks, 0, 19) == [Block(0, 23, true)];
    assert [Block(0, 23, true)][1..] == [];
  }

  /** Cutting that block to three words leaves a free block that the search does not start at. */
  lemma LowestLost()
    ensures var s := Step(Initial(20), CallMalloc(76), 20);
            Valid(s, 20) && Lowest(s) && !Lowest(Step(s, CallRealloc(0, 12), 20))
  {
    InitialValid(20);
    StepKeeps(Initial(20), CallMalloc(76), 20);
    WholeTaken();
    var s := State([Block(0, 23, true)], 23, 23);
    assert IndexOf(s.blocks, 0) == Some(0);
    StepKeeps(s, CallRealloc(0, 12), 20);
  }

  /** A fresh heap refuses a request for all of its words. */
  lemma ExactFitRefused(size: nat)
    requires size >= MIN_SIZE
    ensures Request(4 * size, size) == Some(size) && Choice(Initial(size), 4 * size, size) == None
  {
    assert Words(4 * size) == size;
    assert !Fits(Initial(size).blocks[0], 0, size, size);
  }
}
