/**
 A heap as a row of blocks. Both heap managers of the kernel keep such a row in the
 headers of the blocks themselves; they differ in the length of a header, in how
 they choose a block, and in what they store beside the row. Positions count words.
 */
module Layout {

  /** A block from its header at `start` to the next header at `end`. */
  datatype Block = Block(start: nat, end: nat, used: bool)

  /** Block `i` ends where the next one starts. */
  ghost predicate Link(bs: seq<Block>, i: int) {
    0 <= i && i + 1 < |bs| ==> bs[i].end == bs[i + 1].start
  }

  /** Block `i` and the next one are not both free. */
  ghost predicate Apart(bs: seq<Block>, i: int) {
    0 <= i && i + 1 < |bs| ==> bs[i].used || bs[i + 1].used
  }

  /** Blocks that tile the words from 0 to `end`. */
  ghost predicate Tiled(bs: seq<Block>, header: nat, end: nat) {
    && bs != []
    && bs[0].start == 0
    && bs[|bs| - 1].end == end
    && (forall i :: 0 <= i < |bs| ==> bs[i].start + header <= bs[i].end)
    && (forall i :: Link(bs, i))
  }

  /** No two neighbours are free. */
  ghost predicate Coalesced(bs: seq<Block>) {
    forall i :: Apart(bs, i)
  }

  ghost predicate WellFormed(bs: seq<Block>, header: nat, end: nat) {
    Tiled(bs, header, end) && Coalesced(bs)
  }

  /** Following `end` from block to block climbs to the end of the heap. */
  lemma {:induction false} Ascending(bs: seq<Block>, header: nat, end: nat, i: nat, j: nat)
    requires Tiled(bs, header, end) && i <= j < |bs|
    ensures i < j ==> bs[i].end <= bs[j].start
    ensures bs[j].end <= end
    decreases |bs| - i, |bs| - j
  {
    if i < j {
      assert Link(bs, i);
      Ascending(bs, header, end, i + 1, j);
    } else if j + 1 < |bs| {
      assert Link(bs, j);
      Ascending(bs, header, end, j + 1, j + 1);
    }
  }

  lemma Ordered(bs: seq<Block>, header: nat, end: nat)
    requires Tiled(bs, header, end)
    ensures forall i, j :: 0 <= i < j < |bs| ==> bs[i].end <= bs[j].start
    ensures forall i :: 0 <= i < |bs| ==> bs[i].end <= end
  {
    forall i, j | 0 <= i < j < |bs|
      ensures bs[i].end <= bs[j].start
    {
      Ascending(bs, header, end, i, j);
    }
    forall i | 0 <= i < |bs|
      ensures bs[i].end <= end
    {
      Ascending(bs, header, end, i, i);
    }
  }

  // ----- splitting, merging, releasing -----

  /** Block `i` cut at `cut` into a used block and a free one. */
  ghost predicate IsDivided(bs: seq<Block>, i: nat, cut: nat, r: seq<Block>)
    requires i < |bs|
  {
    && |r| == |bs| + 1
    && (forall k {:trigger r[k]} :: 0 <= k < i ==> r[k] == bs[k])
    && r[i] == Block(bs[i].start, cut, true) && r[i + 1] == Block(cut, bs[i].end, false)
    && (forall k {:trigger r[k]} :: i + 1 < k < |r| ==> r[k] == bs[k - 1])
  }

  ghost function Divided(bs: seq<Block>, i: nat, cut: nat): (r: seq<Block>)
    requires i < |bs|
    ensures IsDivided(bs, i, cut, r)
  {
    DividedExists(bs, i, cut);
    var r :| IsDivided(bs, i, cut, r);
    r
  }

  lemma DividedExists(bs: seq<Block>, i: nat, cut: nat)
    requires i < |bs|
    ensures exists r :: IsDivided(bs, i, cut, r)
  {
    assert IsDivided(bs, i, cut, bs[..i] + [Block(bs[i].start, cut, true), Block(cut, bs[i].end, false)] + bs[i + 1..]);
  }

  function Flagged(bs: seq<Block>, i: nat, used: bool): (r: seq<Block>)
    requires i < |bs|
    ensures |r| == |bs| && r[i] == Block(bs[i].start, bs[i].end, used)
    ensures forall k {:trigger r[k]} :: 0 <= k < |bs| && k != i ==> r[k] == bs[k]
  {
    bs[i := Block(bs[i].start, bs[i].end, used)]
  }

  /** Blocks `a` and `a + 1` as one block with the header of `a`. */
  ghost predicate IsMerged(bs: seq<Block>, a: nat, r: seq<Block>)
    requires a + 1 < |bs|
  {
    && |r| == |bs| - 1
    && (forall k {:trigger r[k]} :: 0 <= k < a ==> r[k] == bs[k])
    && r[a] == bs[a].(end := bs[a + 1].end)
    && (forall k {:trigger r[k]} :: a < k < |r| ==> r[k] == bs[k + 1])
  }

  ghost function Merged(bs: seq<Block>, a: nat): (r: seq<Block>)
    requires a + 1 < |bs|
    ensures IsMerged(bs, a, r)
  {
    MergedExists(bs, a);
    var r :| IsMerged(bs, a, r);
    r
  }

  lemma DividedWhole(bs: seq<Block>, i: nat, cut: nat)
    requires i < |bs|
    ensures Divided(bs, i, cut)
            == bs[..i] + [Block(bs[i].start, cut, true), Block(cut, bs[i].end, false)] + bs[i + 1..]
  {
  }

  lemma MergedWhole(bs: seq<Block>, a: nat)
    requires a + 1 < |bs|
    ensures Merged(bs, a) == bs[..a] + [bs[a].(end := bs[a + 1].end)] + bs[a + 2..]
  {
  }

  lemma MergedExists(bs: seq<Block>, a: nat)
    requires a + 1 < |bs|
    ensures exists r :: IsMerged(bs, a, r)
  {
    assert IsMerged(bs, a, bs[..a] + [bs[a].(end := bs[a + 1].end)] + bs[a + 2..]);
  }

  predicate NextFree(bs: seq<Block>, i: nat) {
    i + 1 < |bs| && !bs[i + 1].used
  }

  predicate PreviousFree(bs: seq<Block>, i: nat) {
    0 < i <= |bs| && !bs[i - 1].used
  }

  ghost function JoinNext(bs: seq<Block>, i: nat): (r: seq<Block>)
    requires i < |bs|
  {
    if NextFree(bs, i) then Merged(bs, i) else bs
  }

  ghost function JoinPrevious(bs: seq<Block>, i: nat): (r: seq<Block>)
    requires i < |bs|
  {
    if PreviousFree(bs, i) then Merged(bs, i - 1) else bs
  }

  ghost function Plugged(bs: seq<Block>, i: nat): (r: seq<Block>)
    requires i < |bs|
  {
    JoinPrevious(JoinNext(bs, i), i)
  }

  /** Block `i` becomes free and joins its free neighbours. */
  ghost function Released(bs: seq<Block>, i: nat): (r: seq<Block>)
    requires i < |bs|
  {
    Plugged(Flagged(bs, i, false), i)
  }

  /** A used block cut short; what is left over joins a free block behind it. */
  ghost function Shrunk(bs: seq<Block>, i: nat, cut: nat): (r: seq<Block>)
    requires i < |bs|
  {
    Plugged(Divided(bs, i, cut), i + 1)
  }

  // ----- the row stays well formed -----

  lemma DividedTiled(bs: seq<Block>, i: nat, cut: nat, header: nat, end: nat)
    requires Tiled(bs, header, end) && i < |bs|
    requires bs[i].start + header <= cut && cut + header <= bs[i].end
    ensures Tiled(Divided(bs, i, cut), header, end)
  {
    var r := Divided(bs, i, cut);
    forall k
      ensures Link(r, k)
    {
      assert if k < i then Link(bs, k) else Link(bs, k - 1);
    }
  }

  lemma FlaggedTiled(bs: seq<Block>, i: nat, used: bool, header: nat, end: nat)
    requires Tiled(bs, header, end) && i < |bs|
    ensures Tiled(Flagged(bs, i, used), header, end)
  {
    var r := Flagged(bs, i, used);
    forall k
      ensures Link(r, k)
    {
      assert Link(bs, k);
    }
  }

  lemma UsedWellFormed(bs: seq<Block>, i: nat, header: nat, end: nat)
    requires WellFormed(bs, header, end) && i < |bs|
    ensures WellFormed(Flagged(bs, i, true), header, end)
  {
    var r := Flagged(bs, i, true);
    FlaggedTiled(bs, i, true, header, end);
    forall k
      ensures Apart(r, k)
    {
      assert Apart(bs, k);
    }
  }

  /** A free block that is split had only used neighbours, so the free rest has too. */
  lemma DividedWellFormed(bs: seq<Block>, i: nat, cut: nat, header: nat, end: nat)
    requires WellFormed(bs, header, end) && i < |bs| && !bs[i].used
    requires bs[i].start + header <= cut && cut + header <= bs[i].end
    ensures WellFormed(Divided(bs, i, cut), header, end)
  {
    var r := Divided(bs, i, cut);
    DividedTiled(bs, i, cut, header, end);
    forall k
      ensures Apart(r, k)
    {
      assert if k < i then Apart(bs, k) else Apart(bs, k - 1);
    }
  }

  /** Only the pairs around block `i` may be free neighbours. */
  ghost predicate CoalescedBut(bs: seq<Block>, i: nat) {
    forall k :: k != i && k + 1 != i ==> Apart(bs, k)
  }

  lemma MergedTiled(bs: seq<Block>, a: nat, header: nat, end: nat)
    requires Tiled(bs, header, end) && a + 1 < |bs|
    ensures Tiled(Merged(bs, a), header, end)
  {
    var r := Merged(bs, a);
    assert Link(bs, a);
    forall k
      ensures Link(r, k)
    {
      assert if k < a then Link(bs, k) else Link(bs, k + 1);
    }
  }

  lemma JoinNextWellFormed(bs: seq<Block>, i: nat, header: nat, end: nat)
    requires Tiled(bs, header, end) && i < |bs| && !bs[i].used && CoalescedBut(bs, i)
    ensures Tiled(JoinNext(bs, i), header, end) && CoalescedBut(JoinNext(bs, i), i)
    ensures i < |JoinNext(bs, i)| && !JoinNext(bs, i)[i].used && JoinNext(bs, i)[i].start == bs[i].start
    ensures i + 1 < |JoinNext(bs, i)| ==> JoinNext(bs, i)[i + 1].used
  {
    if NextFree(bs, i) {
      var r := Merged(bs, i);
      MergedTiled(bs, i, header, end);
      assert Apart(bs, i + 1);
      forall k | k != i && k + 1 != i
        ensures Apart(r, k)
      {
        assert if k < i then Apart(bs, k) else Apart(bs, k + 1);
      }
    }
  }

  lemma JoinPreviousWellFormed(bs: seq<Block>, i: nat, header: nat, end: nat)
    requires Tiled(bs, header, end) && i < |bs| && !bs[i].used && CoalescedBut(bs, i)
    requires i + 1 < |bs| ==> bs[i + 1].used
    ensures WellFormed(JoinPrevious(bs, i), header, end)
  {
    if PreviousFree(bs, i) {
      var r := Merged(bs, i - 1);
      MergedTiled(bs, i - 1, header, end);
      forall k
        ensures Apart(r, k)
      {
        assert k + 1 < i ==> Apart(bs, k);
        assert k >= i ==> Apart(bs, k + 1);
      }
    } else {
      forall k
        ensures Apart(bs, k)
      {
      }
    }
  }

  lemma PluggedWellFormed(bs: seq<Block>, i: nat, header: nat, end: nat)
    requires Tiled(bs, header, end) && i < |bs| && !bs[i].used && CoalescedBut(bs, i)
    ensures WellFormed(Plugged(bs, i), header, end)
  {
    JoinNextWellFormed(bs, i, header, end);
    JoinPreviousWellFormed(JoinNext(bs, i), i, header, end);
  }

  lemma ReleasedWellFormed(bs: seq<Block>, i: nat, header: nat, end: nat)
    requires WellFormed(bs, header, end) && i < |bs|
    ensures WellFormed(Released(bs, i), header, end)
  {
    var r := Flagged(bs, i, false);
    FlaggedTiled(bs, i, false, header, end);
    forall k | k != i && k + 1 != i
      ensures Apart(r, k)
    {
      assert Apart(bs, k);
    }
    PluggedWellFormed(r, i, header, end);
  }

  lemma ShrunkWellFormed(bs: seq<Block>, i: nat, cut: nat, header: nat, end: nat)
    requires WellFormed(bs, header, end) && i < |bs| && bs[i].used
    requires bs[i].start + header <= cut && cut + header <= bs[i].end
    ensures WellFormed(Shrunk(bs, i, cut), header, end)
  {
    var r := Divided(bs, i, cut);
    DividedTiled(bs, i, cut, header, end);
    forall k | k != i + 1 && k + 1 != i + 1
      ensures Apart(r, k)
    {
      assert if k < i then Apart(bs, k) else Apart(bs, k - 1);
    }
    PluggedWellFormed(r, i + 1, header, end);
  }

  // ----- the row is determined by its used blocks -----

  /** The used blocks in address order. */
  ghost function Live(bs: seq<Block>): (live: seq<Block>) {
    if bs == [] then [] else (if bs[0].used then [bs[0]] else []) + Live(bs[1..])
  }

  ghost function Gap(from: nat, to: nat): (r: seq<Block>) {
    if from < to then [Block(from, to, false)] else []
  }

  /** The used blocks with every gap between them filled by one free block. */
  ghost function Canonical(from: nat, live: seq<Block>, end: nat): (r: seq<Block>)
    decreases |live|
  {
    if live == [] then Gap(from, end)
    else Gap(from, live[0].start) + [live[0]] + Canonical(live[0].end, live[1..], end)
  }

  /** Blocks from `from` on that tile up to `end`. */
  ghost predicate Row(bs: seq<Block>, header: nat, from: nat, end: nat) {
    if bs == [] then from == end
    else bs[0].start == from && from + header <= bs[0].end && Row(bs[1..], header, bs[0].end, end)
  }

  lemma {:induction false} TiledRow(bs: seq<Block>, header: nat, end: nat, i: nat)
    requires Tiled(bs, header, end) && i <= |bs|
    ensures Row(bs[i..], header, if i < |bs| then bs[i].start else end, end)
    decreases |bs| - i
  {
    if i < |bs| {
      TiledRow(bs, header, end, i + 1);
      assert bs[i..][1..] == bs[i + 1..];
      assert Link(bs, i);
    }
  }

  lemma CoalescedTail(bs: seq<Block>)
    requires Coalesced(bs) && bs != []
    ensures Coalesced(bs[1..])
  {
    var rest := bs[1..];
    forall i
      ensures Apart(rest, i)
    {
      assert Apart(bs, i + 1);
    }
  }

  /** A coalesced row is the canonical one of its used blocks. */
  lemma {:induction false} RowCanonical(bs: seq<Block>, header: nat, from: nat, end: nat)
    requires Row(bs, header, from, end) && Coalesced(bs) && header > 0
    ensures bs == Canonical(from, Live(bs), end)
    ensures bs != [] && bs[0].used ==> Live(bs) != [] && Live(bs)[0] == bs[0]
    decreases |bs|
  {
    if bs != [] {
      var rest := bs[1..];
      CoalescedTail(bs);
      RowCanonical(rest, header, bs[0].end, end);
      assert bs == [bs[0]] + rest;
      if bs[0].used {
        UsedFirst(bs[0], Live(rest), end);
      } else {
        assert Live(bs) == [] + Live(rest) == Live(rest);
        assert Apart(bs, 0);
        FreeFirst(bs[0], rest, header, end);
      }
    }
  }

  lemma UsedFirst(b: Block, live: seq<Block>, end: nat)
    ensures Canonical(b.start, [b] + live, end) == [b] + Canonical(b.end, live, end)
  {
    assert ([b] + live)[1..] == live;
  }

  lemma FreeFirst(b: Block, rest: seq<Block>, header: nat, end: nat)
    requires b.start < b.end && !b.used && Row(rest, header, b.end, end)
    requires rest == Canonical(b.end, Live(rest), end)
    requires rest != [] ==> rest[0].used && Live(rest) != [] && Live(rest)[0] == rest[0]
    ensures Canonical(b.start, Live(rest), end) == [b] + rest
  {
  }

  /** Two well-formed rows of the same heap with the same used blocks are the same row. */
  lemma LayoutUnique(bs: seq<Block>, cs: seq<Block>, header: nat, end: nat)
    requires WellFormed(bs, header, end) && WellFormed(cs, header, end) && header > 0
    requires Live(bs) == Live(cs)
    ensures bs == cs
  {
    TiledRow(bs, header, end, 0);
    TiledRow(cs, header, end, 0);
    assert bs[0..] == bs && cs[0..] == cs;
    RowCanonical(bs, header, 0, end);
    RowCanonical(cs, header, 0, end);
  }

  // ----- the used blocks after each operation -----

  lemma {:induction false} LiveJoin(a: seq<Block>, b: seq<Block>)
    ensures Live(a + b) == Live(a) + Live(b)
    decreases |a|
  {
    if a == [] {
      assert [] + b == b;
    } else {
      var first := if a[0].used then [a[0]] else [];
      assert (a + b)[1..] == a[1..] + b;
      LiveJoin(a[1..], b);
      assert first + (Live(a[1..]) + Live(b)) == first + Live(a[1..]) + Live(b);
    }
  }

  /** Replacing blocks in the middle of a row replaces their used blocks. */
  lemma LiveSplice(p: seq<Block>, mid: seq<Block>, q: seq<Block>)
    ensures Live(p + mid + q) == Live(p) + Live(mid) + Live(q)
  {
    LiveJoin(p + mid, q);
    LiveJoin(p, mid);
  }

  lemma LiveOne(b: Block)
    ensures Live([b]) == if b.used then [b] else []
  {
    assert [b][1..] == [];
  }

  lemma LiveTwo(b: Block, c: Block)
    ensures Live([b, c]) == Live([b]) + Live([c])
  {
    assert [b, c] == [b] + [c];
    LiveJoin([b], [c]);
  }

  lemma LiveMerged(bs: seq<Block>, a: nat)
    requires a + 1 < |bs| && !bs[a].used && !bs[a + 1].used
    ensures Live(Merged(bs, a)) == Live(bs)
  {
    var p, q := bs[..a], bs[a + 2..];
    MergedWhole(bs, a);
    assert bs == p + [bs[a], bs[a + 1]] + q;
    LiveSplice(p, [bs[a], bs[a + 1]], q);
    LiveSplice(p, [bs[a].(end := bs[a + 1].end)], q);
    LiveTwo(bs[a], bs[a + 1]);
    LiveOne(bs[a]);
    LiveOne(bs[a + 1]);
    LiveOne(bs[a].(end := bs[a + 1].end));
  }

  lemma LivePlugged(bs: seq<Block>, i: nat)
    requires i < |bs| && !bs[i].used
    ensures Live(Plugged(bs, i)) == Live(bs)
  {
    if NextFree(bs, i) {
      LiveMerged(bs, i);
    }
    var cs := JoinNext(bs, i);
    if PreviousFree(cs, i) {
      LiveMerged(cs, i - 1);
    }
  }

  lemma LiveFlagged(bs: seq<Block>, i: nat, used: bool)
    requires i < |bs|
    ensures Live(Flagged(bs, i, used))
            == Live(bs[..i]) + (if used then [Block(bs[i].start, bs[i].end, true)] else []) + Live(bs[i + 1..])
  {
    var b := Block(bs[i].start, bs[i].end, used);
    assert Flagged(bs, i, used) == bs[..i] + [b] + bs[i + 1..];
    LiveSplice(bs[..i], [b], bs[i + 1..]);
    LiveOne(b);
  }

  /** Releasing takes the block out of the used blocks and leaves the others. */
  lemma LiveReleased(bs: seq<Block>, i: nat)
    requires i < |bs|
    ensures Live(Released(bs, i)) == Live(bs[..i]) + Live(bs[i + 1..])
  {
    LiveFlagged(bs, i, false);
    LivePlugged(Flagged(bs, i, false), i);
    assert Live(bs[..i]) + [] == Live(bs[..i]);
  }

  /** Taking a free block, whole or split, and releasing it again restores the row. */
  /** The used blocks of `r` are those of `bs`, with block `i` ending at the cut. */
  ghost predicate CutLive(bs: seq<Block>, i: nat, cut: nat, r: seq<Block>)
    requires i < |bs|
  {
    Live(r) == Live(bs[..i]) + [Block(bs[i].start, cut, true)] + Live(bs[i + 1..])
  }

  /** Cutting a used block short leaves its first part used. */
  lemma LiveShrunk(bs: seq<Block>, i: nat, cut: nat)
    requires i < |bs| && bs[i].used
    ensures CutLive(bs, i, cut, Shrunk(bs, i, cut))
  {
    var first, rest := Block(bs[i].start, cut, true), Block(cut, bs[i].end, false);
    LivePlugged(Divided(bs, i, cut), i + 1);
    DividedWhole(bs, i, cut);
    LiveSplice(bs[..i], [first, rest], bs[i + 1..]);
    LiveTwo(first, rest);
  }

  lemma ReleaseUndoesDivide(bs: seq<Block>, i: nat, cut: nat, header: nat, end: nat)
    requires WellFormed(bs, header, end) && i < |bs| && !bs[i].used && header > 0
    requires bs[i].start + header <= cut && cut + header <= bs[i].end
    ensures Released(Divided(bs, i, cut), i) == bs
  {
    DividedWellFormed(bs, i, cut, header, end);
    ReleasedWellFormed(Divided(bs, i, cut), i, header, end);
    LiveRestored(bs, i, cut);
    LayoutUnique(Released(Divided(bs, i, cut), i), bs, header, end);
  }

  lemma LiveRestored(bs: seq<Block>, i: nat, cut: nat)
    requires i < |bs| && !bs[i].used
    ensures Live(Released(Divided(bs, i, cut), i)) == Live(bs)
  {
    var rest := Block(cut, bs[i].end, false);
    LiveReleased(Divided(bs, i, cut), i);
    DividedParts(bs, i, cut);
    LiveJoin([rest], bs[i + 1..]);
    LiveOne(rest);
    assert [] + Live(bs[i + 1..]) == Live(bs[i + 1..]);
    LiveWithout(bs, i);
  }

  lemma DividedParts(bs: seq<Block>, i: nat, cut: nat)
    requires i < |bs|
    ensures Divided(bs, i, cut)[..i] == bs[..i]
    ensures Divided(bs, i, cut)[i + 1..] == [Block(cut, bs[i].end, false)] + bs[i + 1..]
  {
  }

  lemma ReleaseUndoesUse(bs: seq<Block>, i: nat, header: nat, end: nat)
    requires WellFormed(bs, header, end) && i < |bs| && !bs[i].used && header > 0
    ensures Released(Flagged(bs, i, true), i) == bs
  {
    var r := Flagged(bs, i, true);
    UsedWellFormed(bs, i, header, end);
    ReleasedWellFormed(r, i, header, end);
    LiveReleased(r, i);
    assert r[..i] == bs[..i] && r[i + 1..] == bs[i + 1..];
    LiveWithout(bs, i);
    LayoutUnique(Released(r, i), bs, header, end);
  }

  lemma LiveWithout(bs: seq<Block>, i: nat)
    requires i < |bs| && !bs[i].used
    ensures Live(bs) == Live(bs[..i]) + Live(bs[i + 1..])
  {
    assert bs == bs[..i] + [bs[i]] + bs[i + 1..];
    LiveSplice(bs[..i], [bs[i]], bs[i + 1..]);
    LiveOne(bs[i]);
    assert Live(bs[..i]) + [] == Live(bs[..i]);
  }

  // ----- sums over the row -----

  /** What a block adds to the words in use. */
  ghost function Weight(b: Block): (n: int) {
    if b.used then b.end - b.start else 0
  }

  ghost function Total(bs: seq<Block>): (n: int) {
    if bs == [] then 0 else Weight(bs[0]) + Total(bs[1..])
  }

  lemma {:induction false} TotalJoin(a: seq<Block>, b: seq<Block>)
    ensures Total(a + b) == Total(a) + Total(b)
    decreases |a|
  {
    if a == [] {
      assert [] + b == b;
    } else {
      assert (a + b)[1..] == a[1..] + b;
      TotalJoin(a[1..], b);
    }
  }

  lemma TotalSplice(p: seq<Block>, mid: seq<Block>, q: seq<Block>)
    ensures Total(p + mid + q) == Total(p) + Total(mid) + Total(q)
  {
    TotalJoin(p + mid, q);
    TotalJoin(p, mid);
  }

  lemma TotalTwo(b: Block, c: Block)
    ensures Total([b]) == Weight(b)
    ensures Total([b, c]) == Weight(b) + Weight(c)
  {
    assert [b, c][1..] == [c];
    assert [b][1..] == [] && [c][1..] == [];
  }

  lemma AroundOne(bs: seq<Block>, i: nat)
    requires i < |bs|
    ensures bs == bs[..i] + [bs[i]] + bs[i + 1..]
  {
  }

  lemma AroundTwo(bs: seq<Block>, i: nat)
    requires i + 1 < |bs|
    ensures bs == bs[..i] + [bs[i], bs[i + 1]] + bs[i + 2..]
  {
  }

  lemma TotalSwap(p: seq<Block>, before: seq<Block>, after: seq<Block>, q: seq<Block>)
    ensures Total(p + after + q) == Total(p + before + q) - Total(before) + Total(after)
  {
    TotalSplice(p, before, q);
    TotalSplice(p, after, q);
  }

  lemma TotalFlagged(bs: seq<Block>, i: nat, used: bool)
    requires i < |bs|
    ensures Total(Flagged(bs, i, used))
            == Total(bs) - Weight(bs[i]) + Weight(Block(bs[i].start, bs[i].end, used))
  {
    var b := Block(bs[i].start, bs[i].end, used);
    AroundOne(bs, i);
    AroundOne(Flagged(bs, i, used), i);
    assert Flagged(bs, i, used)[..i] == bs[..i] && Flagged(bs, i, used)[i + 1..] == bs[i + 1..];
    TotalSwap(bs[..i], [bs[i]], [b], bs[i + 1..]);
    TotalTwo(b, b);
    TotalTwo(bs[i], b);
  }

  lemma TotalDivided(bs: seq<Block>, i: nat, cut: nat)
    requires i < |bs|
    ensures Total(Divided(bs, i, cut))
            == Total(bs) - Weight(bs[i])
               + Weight(Block(bs[i].start, cut, true)) + Weight(Block(cut, bs[i].end, false))
  {
    var b, c := Block(bs[i].start, cut, true), Block(cut, bs[i].end, false);
    AroundOne(bs, i);
    DividedWhole(bs, i, cut);
    TotalSwap(bs[..i], [bs[i]], [b, c], bs[i + 1..]);
    TotalTwo(b, c);
    TotalTwo(bs[i], b);
  }

  lemma TotalMerged(bs: seq<Block>, a: nat)
    requires a + 1 < |bs|
    ensures Total(Merged(bs, a))
            == Total(bs) - Weight(bs[a]) - Weight(bs[a + 1]) + Weight(bs[a].(end := bs[a + 1].end))
  {
    var both := bs[a].(end := bs[a + 1].end);
    AroundTwo(bs, a);
    MergedWhole(bs, a);
    TotalSwap(bs[..a], [bs[a], bs[a + 1]], [both], bs[a + 2..]);
    TotalTwo(bs[a], bs[a + 1]);
    TotalTwo(both, both);
  }
}
