/** The memory heap with a free ring: what its operations mean for the blocks, and the heap in place. */
module MemHeap {
  import opened Options
  import opened MemRing

  // ----- blocks without links -----

  /** Where a block ends and whether it is used. */
  datatype Block = Block(end: nat, used: bool)

  type Blocks = map<nat, Block>

  ghost function BlocksOf(items: Items, end: nat): (b: Blocks) {
    map p | p in items && p <= end :: Block(items[p].next, items[p].used)
  }

  ghost function Divided(b: Blocks, p: nat, cut: nat): (r: Blocks)
    requires p in b
  {
    b[p := Block(cut, true)][cut := Block(b[p].end, false)]
  }

  ghost function Used(b: Blocks, p: nat): (r: Blocks)
    requires p in b
  {
    b[p := Block(b[p].end, true)]
  }

  /** Block `p` taken for `need` words, split when the rest holds a header and the smallest data. */
  ghost function Taken(b: Blocks, p: nat, need: nat): (r: Blocks)
    requires p in b
  {
    if b[p].end - p - HEADER >= need + HEADER + MIN_SIZE then Divided(b, p, p + HEADER + need) else Used(b, p)
  }

  ghost predicate NextFree(b: Blocks, p: nat) {
    p in b && b[p].end in b && !b[b[p].end].used
  }

  /** Block `p` joined with the next one. */
  ghost function Swallowed(b: Blocks, p: nat): (r: Blocks) {
    if p in b && b[p].end in b then b[p := Block(b[b[p].end].end, b[p].used)] - {b[p].end} else b
  }

  ghost function MergedNext(b: Blocks, p: nat): (r: Blocks) {
    if NextFree(b, p) then Swallowed(b, p) else b
  }

  ghost function Unused(b: Blocks, p: nat): (r: Blocks)
    requires p in b
  {
    b[p := Block(b[p].end, false)]
  }

  /** Block `p` becomes free and joins the free block `left` before it, if any, and a free block behind it. */
  ghost function Freed(b: Blocks, p: nat, left: Option<nat>): (r: Blocks)
    requires p in b
  {
    match left
    case None => MergedNext(Unused(b, p), p)
    case Some(l) => MergedNext(Swallowed(Unused(b, p), l), l)
  }

  /** The free block that ends where block `p` starts, if there is one. */
  ghost predicate IsLeft(b: Blocks, p: nat, left: Option<nat>) {
    match left
    case None => forall q :: q in b && b[q].end == p ==> b[q].used
    case Some(l) => l in b && !b[l].used && b[l].end == p
  }

  /** Block `q` was taken and then block `p` freed, next to the free block `left`. */
  ghost predicate Moved(b: Blocks, r: Blocks, p: nat, q: nat, need: nat, left: Option<nat>) {
    && q in b && p in Taken(b, q, need) && IsLeft(Taken(b, q, need), p, left)
    && r == Freed(Taken(b, q, need), p, left)
  }

  /** Used blocks, but for one, stay as they are. */
  ghost predicate Keeps(b: Blocks, r: Blocks, except: Option<nat>) {
    forall x :: x in b && b[x].used && except != Some(x) ==> x in r && r[x] == b[x]
  }

  /** What a request does that goes to the block `choice`, if there is one. */
  ghost predicate Allocated(b: Blocks, c: Blocks, choice: Option<nat>, need: nat, r: Option<nat>) {
    match choice
    case None => r == None && c == b
    case Some(p) => r == Some(p + HEADER) && p in b && c == Taken(b, p, need) && Keeps(b, c, None)
  }

  /** The words that a request takes. */
  function Need(words: nat): (need: nat) {
    if words < MIN_SIZE then MIN_SIZE else words
  }

  /** Block `q` is taken and block `p` freed: before, between and after. */
  lemma MovedBetween(b: Blocks, mid: Blocks, c: Blocks, p: nat, q: nat, need: nat, left: Option<nat>)
    requires q in b && mid == Taken(b, q, need) && Keeps(b, mid, None)
    requires p in mid && IsLeft(mid, p, left) && c == Freed(mid, p, left) && Keeps(mid, c, Some(p))
    ensures Keeps(b, c, Some(p)) && Moved(b, c, p, q, need, left)
  {
  }

  lemma FreedKeeps(b: Blocks, p: nat, left: Option<nat>)
    requires p in b && (left.Some? ==> left.value in b && !b[left.value].used && b[left.value].end == p)
    ensures Keeps(b, Freed(b, p, left), Some(p))
  {
  }

  lemma GrownKeeps(b: Blocks, p: nat, cut: nat)
    requires NextFree(b, p) && b[p].end != p && (cut in Swallowed(b, p) ==> cut == p)
    ensures Keeps(b, Divided(Swallowed(b, p), p, cut), Some(p))
  {
  }

  /** A request takes the words asked for, and at least three. */
  lemma NeedMeans(words: nat)
    ensures words <= Need(words) && 3 <= Need(words) && (Need(words) == words || Need(words) == 3)
  {
  }

  /**
   Block `p` keeps exactly the words asked for if a header of six words and three more remain, and the
   rest is one free block; otherwise the whole block is used. Its room is always less than the
   words asked for and nine.
   */
  lemma TakenMeans(b: Blocks, p: nat, need: nat)
    requires p in b && b[p].end >= p + 6 + need
    ensures var r, cut := Taken(b, p, need), p + 6 + need;
            && (if b[p].end >= cut + 9 then r == b[p := Block(cut, true)][cut := Block(b[p].end, false)]
                else r == b[p := Block(b[p].end, true)])
            && need <= r[p].end - p - 6 < need + 9
  {
  }

  /** After a block is freed the used blocks are all others that were used. */
  lemma FreedMeans(b: Blocks, p: nat, left: Option<nat>)
    requires p in b && b[p].end != p && IsLeft(b, p, left)
    requires left.Some? ==> left.value != p
    ensures var r := Freed(b, p, left);
            forall x :: x in r && r[x].used <==> x in b && b[x].used && x != p
    ensures Keeps(b, Freed(b, p, left), Some(p))
  {
  }

  /**
   Resizing in place: growing takes the free block behind and leaves the rest of it free; with less
   than ten words to spare nothing changes; otherwise the block is cut and the rest is free.
   */
  lemma InPlaceMeans(b: Blocks, p: nat, need: nat)
    requires p in b && b[p].used && p < b[p].end && b[p].end in b && b[p].end < b[b[p].end].end
    requires need > b[p].end - p - 6 ==> !b[b[p].end].used && p + 6 + need < b[b[p].end].end
    requires p + 6 + need in b ==> p + 6 + need == b[p].end
    ensures var size, cut, next := b[p].end - p - 6, p + 6 + need, b[p].end;
            var r := InPlace(b, p, size, need, cut);
            && p in r
            && (need > size ==> r[p] == Block(cut, true) && cut in r && r[cut] == Block(b[next].end, false))
            && (need <= size < need + 10 ==> r == b)
            && (size >= need + 10 ==>
                  && r[p] == Block(cut, true) && cut in r
                  && r[cut] == Block(if b[next].used then next else b[next].end, false))
            && forall x :: x in b && x != p && x != next ==> x in r && r[x] == b[x]
  {
  }

  /** Freeing a block that was just taken restores the blocks. */
  lemma FreeUndoesTake(b: Blocks, p: nat, need: nat)
    requires p in b && !b[p].used && b[p].end != p && (b[p].end in b ==> b[b[p].end].used)
    requires b[p].end - p - HEADER >= need + HEADER + MIN_SIZE ==> p + HEADER + need !in b
    ensures Freed(Taken(b, p, need), p, None) == b
  {
    var t := Taken(b, p, need);
    if b[p].end - p - HEADER >= need + HEADER + MIN_SIZE {
      assert NextFree(Unused(t, p), p);
    } else {
      assert Unused(t, p) == b;
    }
  }

  // ----- the pool -----

  /** The free ring holds exactly the free blocks, each once. */
  ghost predicate Complete(items: Items, ring: Ring, end: nat) {
    Distinct(ring) && forall p: nat :: In(p, ring) <==> p in items && p < end && !items[p].used
  }

  /** Both rings are right and agree, no two neighbours are free, and the count is the free data. */
  ghost predicate Consistent(items: Items, ring: Ring, available: int, end: nat) {
    && Tiled(items, end) && Coalesced(items, end)
    && Linked(items, Anchor(end), ring, Anchor(end)) && Complete(items, ring, end)
    && available == Sum(items, ring)
  }

  /** The first block in ring order with room. */
  ghost function FirstFit(items: Items, ring: Ring, need: nat): (r: Option<nat>) {
    match ring
    case Stop => None
    case Node(at, rest) => if at in items && Size(items, at) >= need then Some(at) else FirstFit(items, rest, need)
  }

  /** Block `x` comes before block `y` on the ring. */
  ghost predicate Before(ring: Ring, x: nat, y: nat) {
    ring.Node? && ring.at != y && (ring.at == x || Before(ring.rest, x, y))
  }

  /** The search takes a free block with room, before which none has room, and fails only if none has. */
  lemma {:induction false} FirstFitMeans(items: Items, ring: Ring, need: nat)
    requires forall x: nat :: In(x, ring) ==> x in items
    ensures match FirstFit(items, ring, need)
            case None => forall x: nat :: In(x, ring) ==> Size(items, x) < need
            case Some(p) =>
              && In(p, ring) && p in items && Size(items, p) >= need
              && forall x: nat :: Before(ring, x, p) ==> In(x, ring) && Size(items, x) < need
  {
    if ring.Node? {
      assert In(ring.at, ring);
      assert forall x: nat :: In(x, ring.rest) ==> In(x, ring);
      FirstFitMeans(items, ring.rest, need);
    }
  }

  /** No block of the ring is larger than all together. */
  lemma {:induction false} FitsWithin(items: Items, ring: Ring, end: nat, need: nat)
    requires FirstFit(items, ring, need).Some? && Tiled(items, end) && forall x: nat :: In(x, ring) ==> x < end
    ensures need <= Sum(items, ring)
  {
    assert In(ring.at, ring) && Follows(items, end, ring.at);
    assert forall x: nat :: In(x, ring.rest) ==> In(x, ring);
    if !(ring.at in items && Size(items, ring.at) >= need) {
      FitsWithin(items, ring.rest, end, need);
    } else {
      SumPositive(items, ring.rest, end);
    }
  }

  lemma {:induction false} SumPositive(items: Items, ring: Ring, end: nat)
    requires Tiled(items, end) && forall x: nat :: In(x, ring) ==> x < end
    ensures Sum(items, ring) >= 0
  {
    if ring.Node? {
      assert In(ring.at, ring) && Follows(items, end, ring.at);
      assert forall x: nat :: In(x, ring.rest) ==> In(x, ring);
      SumPositive(items, ring.rest, end);
    }
  }

  predicate Splits(items: Items, p: nat, need: nat)
    requires p in items
  {
    Size(items, p) >= need + HEADER + MIN_SIZE
  }

  /** Only links of the free ring differ. */
  ghost predicate SameRow(items: Items, after: Items) {
    && (forall p :: p in items <==> p in after)
    && forall p :: p in items ==>
         after[p].next == items[p].next && after[p].prev == items[p].prev && after[p].used == items[p].used
  }

  lemma SameTiled(items: Items, after: Items, end: nat)
    requires Tiled(items, end) && SameRow(items, after)
    ensures Tiled(after, end)
    ensures BlocksOf(after, end) == BlocksOf(items, end)
  {
    forall p
      ensures Follows(after, end, p)
    {
      assert Follows(items, end, p);
    }
    forall p, q
      ensures Clear(after, end, p, q)
    {
      assert Clear(items, end, p, q);
    }
  }

  /** Coalescing depends on the row only. */
  lemma SameCoalesced(items: Items, after: Items, end: nat)
    requires Coalesced(items, end) && SameRow(items, after)
    ensures Coalesced(after, end)
  {
    forall p
      ensures Apart(after, end, p)
    {
      assert Apart(items, end, p);
    }
  }

  // ----- taking a block -----

  /** The row after splitting a free block keeps free blocks apart. */
  lemma SplitCoalesced(items: Items, end: nat, p: nat, cut: nat)
    requires Tiled(items, end) && Coalesced(items, end) && p in items && p < end && !items[p].used
    requires p + HEADER <= cut && cut + HEADER <= items[p].next && items[p].next in items
    ensures Coalesced(Flagged(Cut(items, p, cut), p, true), end)
  {
    CutTiled(items, end, p, cut);
    var r := Flagged(Cut(items, p, cut), p, true);
    forall q
      ensures Apart(r, end, q)
    {
      assert Apart(items, end, q) && Apart(items, end, p) && Follows(items, end, q);
    }
  }

  lemma UsedCoalesced(items: Items, end: nat, p: nat)
    requires Coalesced(items, end) && p in items
    ensures Coalesced(Flagged(items, p, true), end)
  {
    var r := Flagged(items, p, true);
    forall q
      ensures Apart(r, end, q)
    {
      assert Apart(items, end, q);
    }
  }

  /** After a split the ring with the rest in front is complete and the count is right. */
  lemma SplitComplete(items: Items, ring: Ring, end: nat, p: nat, cut: nat, after: Items)
    requires Tiled(items, end) && Complete(items, ring, end) && In(p, ring)
    requires p + HEADER <= cut && cut + HEADER <= items[p].next && items[p].next in items
    requires SameRow(Flagged(Cut(items, p, cut), p, true), after)
    ensures Complete(after, Node(cut, Without(ring, p)), end)
    ensures Sum(after, Node(cut, Without(ring, p))) == Sum(items, ring) - (cut - p)
  {
    CutTiled(items, end, p, cut);
    assert Follows(items, end, p);
    WithoutMembers(ring, p);
    var rest := Without(ring, p);
    forall q: nat
      ensures In(q, Node(cut, rest)) <==> q in after && q < end && !after[q].used
    {
      assert In(q, ring) <==> q in items && q < end && !items[q].used;
    }
    SumSame(items, after, rest);
    SumWithout(items, ring, p);
  }

  lemma SplitBlocks(items: Items, end: nat, p: nat, cut: nat, after: Items)
    requires p in items && items[p].next in items && p <= end && cut <= end && cut !in items && p != items[p].next
    requires SameRow(Flagged(Cut(items, p, cut), p, true), after)
    ensures BlocksOf(after, end) == Divided(BlocksOf(items, end), p, cut)
  {
  }

  lemma UsedComplete(items: Items, ring: Ring, end: nat, p: nat, after: Items)
    requires Complete(items, ring, end) && In(p, ring) && SameRow(Flagged(items, p, true), after)
    ensures Complete(after, Without(ring, p), end)
    ensures Sum(after, Without(ring, p)) == Sum(items, ring) - Size(items, p)
  {
    WithoutMembers(ring, p);
    forall q: nat
      ensures In(q, Without(ring, p)) <==> q in after && q < end && !after[q].used
    {
      assert In(q, ring) <==> q in items && q < end && !items[q].used;
    }
    SumSame(items, after, Without(ring, p));
    SumWithout(items, ring, p);
  }

  // ----- freeing a block -----

  /** What is free depends on the row only. */
  lemma SameFree(items: Items, after: Items, ring: Ring, end: nat, h: nat)
    requires SameRow(items, after) && Complete(items, ring, end) && ApartBut(items, end, h)
    ensures Complete(after, ring, end) && ApartBut(after, end, h) && Sum(after, ring) == Sum(items, ring)
  {
    forall q: nat
      ensures In(q, ring) <==> q in after && q < end && !after[q].used
    {
      assert In(q, ring) <==> q in items && q < end && !items[q].used;
    }
    forall q | q != h
      ensures Apart(after, end, q)
    {
      assert Apart(items, end, q);
    }
    SumSame(items, after, ring);
  }

  /** Only block `h` may be free in front of a free block. */
  ghost predicate ApartBut(items: Items, end: nat, h: nat) {
    forall q :: q != h ==> Apart(items, end, q)
  }

  /** A freed block counts as the first of the ring. */
  lemma FlaggedFree(items: Items, ring: Ring, end: nat, p: nat)
    requires Tiled(items, end) && Coalesced(items, end) && Complete(items, ring, end)
    requires p in items && p < end && items[p].used
    ensures Complete(Flagged(items, p, false), Node(p, ring), end)
    ensures Sum(Flagged(items, p, false), Node(p, ring)) == Sum(items, ring) + Size(items, p)
    ensures items[p].prev in items
    ensures items[items[p].prev].used ==> ApartBut(Flagged(items, p, false), end, p)
  {
    var r := Flagged(items, p, false);
    assert !In(p, ring);
    forall q: nat
      ensures In(q, Node(p, ring)) <==> q in r && q < end && !r[q].used
    {
      assert In(q, ring) <==> q in items && q < end && !items[q].used;
    }
    SumSame(items, r, ring);
    PreviousOf(items, end, p);
    if items[items[p].prev].used {
      forall q | q != p
        ensures Apart(r, end, q)
      {
        assert Apart(items, end, q) && Follows(items, end, q);
      }
    }
  }

  /** The header before `p` is the one whose block ends there. */
  lemma PreviousOf(items: Items, end: nat, p: nat)
    requires Tiled(items, end) && p in items && p < end
    ensures items[p].prev in items && items[p].prev <= end
    ensures items[p].prev < end ==> items[items[p].prev].next == p && items[p].prev < p
  {
    if p != 0 {
      PreviousFound(items, end, p, 0);
    }
  }

  /** Following the row from any header below `p` meets the header before `p`. */
  lemma {:induction false} PreviousFound(items: Items, end: nat, p: nat, q: nat)
    requires Tiled(items, end) && p in items && q in items && q < p < end
    ensures items[p].prev in items && items[p].prev < p && items[items[p].prev].next == p
    decreases p - q
  {
    assert Follows(items, end, q) && Clear(items, end, q, p);
    if items[q].next < p {
      PreviousFound(items, end, p, items[q].next);
    }
  }

  /** Joining a free block with a free one behind it takes that one off the ring and frees its header. */
  lemma JoinedComplete(items: Items, ring: Ring, end: nat, h: nat)
    requires Tiled(items, end) && Complete(items, ring, end) && In(h, ring) && In(items[h].next, ring)
    requires items[h].next in items && items[items[h].next].next in items
    ensures Complete(Joined(items, h), Without(ring, items[h].next), end)
    ensures Sum(Joined(items, h), Without(ring, items[h].next)) == Sum(items, ring) + HEADER
  {
    var n := items[h].next;
    assert Follows(items, end, h) && Follows(items, end, n);
    var after, rest := Joined(items, h), Without(ring, n);
    WithoutMembers(ring, n);
    forall q: nat
      ensures In(q, rest) <==> q in after && q < end && !after[q].used
    {
      assert In(q, ring) <==> q in items && q < end && !items[q].used;
    }
    SumWithout(items, ring, n);
    SumResized(items, after, rest, h);
  }

  lemma JoinedApart(items: Items, end: nat, h: nat)
    requires Tiled(items, end) && ApartBut(items, end, h) && h in items && h < end && !items[h].used
    requires items[h].next < end && items[h].next in items && !items[items[h].next].used
    requires items[items[h].next].next in items
    ensures Coalesced(Joined(items, h), end)
  {
    var n, after := items[h].next, Joined(items, h);
    forall q
      ensures Apart(after, end, q)
    {
      assert Follows(items, end, q) && Follows(items, end, h) && Apart(items, end, n);
      assert q != h ==> Apart(items, end, q);
    }
  }

  /** Joining the freed block `p` with the free block before it. */
  lemma JoinedLeft(items: Items, end: nat, p: nat)
    requires Tiled(items, end) && Coalesced(items, end) && p in items && p < end && items[p].used
    requires items[p].prev in items && items[p].prev < end && !items[items[p].prev].used
    requires items[items[p].prev].next == p
    requires items[p].next in items
    ensures ApartBut(Joined(Flagged(items, p, false), items[p].prev), end, items[p].prev)
  {
    var l, flagged := items[p].prev, Flagged(items, p, false);
    var after := Joined(flagged, l);
    forall q | q != l
      ensures Apart(after, end, q)
    {
      assert Apart(items, end, q) && Follows(items, end, q) && Follows(items, end, l);
    }
  }

  lemma JoinedBlocks(items: Items, end: nat, h: nat)
    requires Tiled(items, end) && h in items && h < end && items[h].next < end
    requires items[h].next in items && items[items[h].next].next in items
    ensures BlocksOf(Joined(items, h), end) == Swallowed(BlocksOf(items, end), h)
  {
    assert Follows(items, end, h) && Follows(items, end, items[h].next);
  }

  // ----- resizing a block -----

  /** What is cut off a used block counts as the first of the ring. */
  lemma CutUsed(items: Items, ring: Ring, end: nat, p: nat, cut: nat)
    requires Tiled(items, end) && Coalesced(items, end) && Complete(items, ring, end)
    requires p in items && p < end && items[p].used
    requires p + HEADER <= cut && cut + HEADER <= items[p].next && items[p].next in items && cut !in items
    ensures Complete(Cut(items, p, cut), Node(cut, ring), end)
    ensures Sum(Cut(items, p, cut), Node(cut, ring)) == Sum(items, ring) + (items[p].next - cut - HEADER)
    ensures ApartBut(Cut(items, p, cut), end, cut)
    ensures BlocksOf(Cut(items, p, cut), end) == Divided(BlocksOf(items, end), p, cut)
  {
    var r := Cut(items, p, cut);
    assert Follows(items, end, p);
    forall q: nat
      ensures In(q, Node(cut, ring)) <==> q in r && q < end && !r[q].used
    {
      assert In(q, ring) <==> q in items && q < end && !items[q].used;
    }
    SumSame(items, r, ring);
    forall q | q != cut
      ensures Apart(r, end, q)
    {
      assert Apart(items, end, q) && Follows(items, end, q);
    }
  }

  /** A used block swallows the free block behind it. */
  lemma JoinedUsed(items: Items, ring: Ring, end: nat, p: nat)
    requires Tiled(items, end) && Coalesced(items, end) && Complete(items, ring, end)
    requires p in items && p < end && items[p].used && items[p].next in items && In(items[p].next, ring)
    requires items[items[p].next].next in items
    ensures Complete(Joined(items, p), Without(ring, items[p].next), end)
    ensures Sum(Joined(items, p), Without(ring, items[p].next)) == Sum(items, ring) - Size(items, items[p].next)
    ensures Coalesced(Joined(items, p), end) && items[items[items[p].next].next].used
  {
    var n, r := items[p].next, Joined(items, p);
    assert Follows(items, end, p) && Follows(items, end, n) && Apart(items, end, n);
    WithoutMembers(ring, n);
    forall q: nat
      ensures In(q, Without(ring, n)) <==> q in r && q < end && !r[q].used
    {
      assert In(q, ring) <==> q in items && q < end && !items[q].used;
    }
    SumWithout(items, ring, n);
    SumSame(items, r, Without(ring, n));
    forall q
      ensures Apart(r, end, q)
    {
      assert Apart(items, end, q) && Follows(items, end, q);
    }
  }

  // ----- the heap in place -----

  /** What resizing the used block `p` of size `size` to `need` words in place does. */
  ghost function InPlace(b: Blocks, p: nat, size: int, need: nat, cut: nat): (r: Blocks)
    requires p in b
  {
    if need > size then (if p in Swallowed(b, p) then Divided(Swallowed(b, p), p, cut) else b)
    else if need + HEADER + MIN_SIZE >= size then b
    else MergedNext(Divided(b, p, cut), cut)
  }

  /**
   The live block at `ptr` of that size was resized: in place if it was long enough or could
   grow, else moved to the block that was chosen; without one nothing changed.
   */
  ghost predicate Resized(b: Blocks, after: Blocks, ptr: nat, need: nat, size: int, grows: bool,
                          choice: Option<nat>, r: Option<nat>, left: Option<nat>)
  {
    && ptr >= HEADER && ptr - HEADER in b
    && if size >= need || grows then r == Some(ptr) && after == InPlace(b, ptr - HEADER, size, need, ptr + need)
       else match choice
         case None => r == None && after == b
         case Some(q) => r == Some(q + HEADER) && Moved(b, after, ptr - HEADER, q, need, left)
  }

  /** Resizing to nothing is freeing; no other live block changes. */
  ghost predicate Reallocated(b: Blocks, after: Blocks, ptr: nat, words: nat, size: int, grows: bool,
                              choice: Option<nat>, r: Option<nat>, left: Option<nat>)
  {
    && ptr >= HEADER && ptr - HEADER in b && Keeps(b, after, Some(ptr - HEADER))
    && if words == 0 then r == None && IsLeft(b, ptr - HEADER, left) && after == Freed(b, ptr - HEADER, left)
       else Resized(b, after, ptr, Need(words), size, grows, choice, r, left)
  }

  lemma MoveResizes(b: Blocks, after: Blocks, ptr: nat, need: nat, size: int, grows: bool,
                    choice: Option<nat>, r: Option<nat>, left: Option<nat>)
    requires ptr >= HEADER && ptr - HEADER in b && !(size >= need || grows)
    requires r == match choice case None => None case Some(q) => Some(q + HEADER)
    requires if r.None? then after == b else Moved(b, after, ptr - HEADER, r.value - HEADER, need, left)
    ensures Resized(b, after, ptr, need, size, grows, choice, r, left)
    ensures r.None? ==> Keeps(b, after, Some(ptr - HEADER))
  {
  }

  lemma LeftFound(items: Items, end: nat, p: nat)
    requires Tiled(items, end) && p in items && p < end && items[p].prev in items
    ensures IsLeft(BlocksOf(items, end), p, if items[items[p].prev].used then None else Some(items[p].prev))
  {
    PreviousOf(items, end, p);
    var b := BlocksOf(items, end);
    forall q | q in b && b[q].end == p && !b[q].used
      ensures q == items[p].prev
    {
      assert Follows(items, end, q);
    }
  }

  lemma InitialConsistent(items: Items, end: nat)
    requires end >= HEADER
    requires items == map[0 := Item(false, end, end, Anchor(end), Anchor(end)), end := Item(true, 0, 0, 0, 0),
                          Anchor(end) := Item(false, 0, 0, 0, 0)]
    ensures Consistent(items, Node(0, Stop), end - HEADER, end)
    ensures BlocksOf(items, end) == map[0 := Block(end, false), end := Block(0, true)]
  {
    var anchor, ring := Anchor(end), Node(0, Stop);
    assert items[0] == Item(false, end, end, anchor, anchor);
    assert items[end] == Item(true, 0, 0, 0, 0) && items[anchor] == Item(false, 0, 0, 0, 0);
    assert Linked(items, anchor, ring, anchor) by {
      assert Linked(items, 0, Stop, anchor);
    }
    assert Sum(items, ring) == Size(items, 0) + Sum(items, Stop);
  }

  class Heap {
    const end: nat
    var items: Items
    var available: int
    ghost var ring: Ring

    ghost predicate Valid()
      reads this
    {
      Consistent(items, ring, available, end)
    }

    /** One free block and the tail. */
    constructor (end: nat)
      requires end >= HEADER
      ensures Valid() && this.end == end
      ensures View() == map[0 := Block(end, false), end := Block(0, true)] && available == end - HEADER
      ensures ring == Node(0, Stop)
    {
      this.end := end;
      var anchor := end + 1;
      items := map[
        0 := Item(false, end, end, anchor, anchor), end := Item(true, 0, 0, 0, 0), anchor := Item(false, 0, 0, 0, 0)];
      available := end - HEADER;
      ring := Node(0, Stop);
      new;
      InitialConsistent(items, end);
    }

    ghost function View(): (b: Blocks)
      reads this
    {
      BlocksOf(items, end)
    }

    /** The rings are right, whatever the count and the neighbours. */
    ghost predicate Rings()
      reads this
    {
      Tiled(items, end) && Linked(items, Anchor(end), ring, Anchor(end)) && Distinct(ring) && !In(Anchor(end), ring)
    }

    /** Take block `x` off the free ring. */
    method RemoveFree(x: nat)
      requires Rings() && In(x, ring)
      modifies this`items, this`ring
      ensures Rings() && SameRow(old(items), items) && View() == old(View()) && ring == Without(old(ring), x)
    {
      UnlinkedLinked(items, Anchor(end), ring, Anchor(end), x);
      WithoutMembers(ring, x);
      ghost var before := items;
      var a, b := items[x].prevFree, items[x].nextFree;
      items := items[b := items[b].(prevFree := a)];
      items := items[a := items[a].(nextFree := b)];
      ring := Without(ring, x);
      SameTiled(before, items, end);
    }

    /** Put block `x` at the front of the free ring. */
    method InsertFree(x: nat)
      requires Rings() && x in items && x < end && !In(x, ring)
      modifies this`items, this`ring
      ensures Rings() && SameRow(old(items), items) && View() == old(View()) && ring == Node(x, old(ring))
    {
      ghost var before := items;
      PushedLinked(items, Anchor(end), ring, x);
      var anchor := end + 1;
      var first := items[anchor].nextFree;
      items := items[x := items[x].(nextFree := first, prevFree := anchor)];
      items := items[first := items[first].(prevFree := x)];
      items := items[anchor := items[anchor].(nextFree := x)];
      ring := Node(x, ring);
      SameTiled(before, items, end);
    }

    /** Block `y` takes the place of block `x` on the free ring, but at its front. */
    method Replace(x: nat, y: nat)
      requires Rings() && In(x, ring) && y in items && y < end && !In(y, ring)
      modifies this`items, this`ring
      ensures Rings() && SameRow(old(items), items) && ring == Node(y, Without(old(ring), x))
    {
      WithoutMembers(ring, x);
      RemoveFree(x);
      InsertFree(y);
    }

    /** Cut block `p` in two. */
    method SplitBlock(p: nat, cut: nat)
      requires Rings() && p in items && p < end && p + HEADER <= cut && cut + HEADER <= items[p].next
      modifies this`items
      ensures old(items)[p].next in old(items) && cut !in old(items)
      ensures Rings() && items == Cut(old(items), p, cut)
    {
      CutTiled(items, end, p, cut);
      ghost var before := items;
      var next := items[p].next;
      items := items[cut := Item(false, next, p, 0, 0)];
      items := items[next := items[next].(prev := cut)];
      items := items[p := items[p].(next := cut)];
      LinkedSame(before, items, Anchor(end), ring, Anchor(end));
    }

    method SetUsed(p: nat, used: bool)
      requires Rings() && p in items && p < end
      modifies this`items
      ensures Rings() && items == Flagged(old(items), p, used)
      ensures View() == old(View())[p := Block(old(items)[p].next, used)]
    {
      ghost var before := items;
      FlaggedTiled(items, end, p, used);
      items := items[p := items[p].(used := used)];
      LinkedSame(before, items, Anchor(end), ring, Anchor(end));
    }

    /** Use the first part of block `p`; the rest is a free block at the front of the ring. */
    method TakePart(p: nat, need: nat, cut: nat)
      requires Valid() && In(p, ring) && p in items && Splits(items, p, need) && cut == p + HEADER + need
      modifies this
      ensures Valid()
      ensures View() == Divided(old(View()), p, cut) && cut !in old(View()) && !old(View())[p].used
      ensures ring == Node(cut, Without(old(ring), p))
    {
      ghost var before, list := items, ring;
      assert Follows(items, end, p);
      SplitCoalesced(items, end, p, cut);
      SplitBlock(p, cut);
      ghost var split := items;
      Replace(p, cut);
      available := available - need - HEADER;
      SetUsed(p, true);
      assert SameRow(Flagged(split, p, true), items);
      SplitComplete(before, list, end, p, cut, items);
      SameCoalesced(Flagged(split, p, true), items, end);
      SplitBlocks(before, end, p, cut, items);
    }

    method TakeWhole(p: nat)
      requires Valid() && In(p, ring) && p in items
      modifies this
      ensures Valid()
      ensures View() == Used(old(View()), p) && !old(View())[p].used
      ensures ring == Without(old(ring), p)
    {
      ghost var before, list := items, ring;
      UsedCoalesced(items, end, p);
      available := available - Size(items, p);
      RemoveFree(p);
      SetUsed(p, true);
      assert SameRow(Flagged(before, p, true), items);
      UsedComplete(before, list, end, p, items);
      SameCoalesced(Flagged(before, p, true), items, end);
    }

    /** Walk the free ring to the first block with room. */
    method Search(need: nat) returns (found: bool, p: nat)
      requires Valid()
      ensures found ==> FirstFit(items, ring, need) == Some(p) && In(p, ring) && p in items && Size(items, p) >= need
      ensures !found ==> FirstFit(items, ring, need) == None
    {
      var anchor := end + 1;
      p := items[anchor].nextFree;
      ghost var from: nat, rest := anchor, ring;
      var size := 0;
      found := false;
      while p != anchor && !found
        invariant Linked(items, from, rest, anchor) && p == items[from].nextFree
        invariant (forall x: nat :: In(x, rest) ==> In(x, ring)) && (rest.Node? ==> In(rest.at, ring))
        invariant FirstFit(items, ring, need) == FirstFit(items, rest, need)
        invariant found ==> rest.Node? && rest.at == p && Size(items, p) >= need
        decreases rest, !found
      {
        assert rest.Node? && rest.at == p && In(p, ring);
        size := Size(items, p);
        if size >= need {
          found := true;
        } else {
          assert rest.rest.Node? ==> In(rest.rest.at, rest);
          from, rest := p, rest.rest;
          p := items[p].nextFree;
        }
      }
    }

    /** Where a request for that many words goes. */
    ghost function Choice(words: nat): (p: Option<nat>)
      reads this
    {
      if Need(words) < available then FirstFit(items, ring, Need(words)) else None
    }

    /** A request that some free block has room for is refused exactly if it is for all the words that are free. */
    lemma ExactFitRefused(words: nat)
      requires Valid() && FirstFit(items, ring, Need(words)).Some?
      ensures Choice(words) == None <==> Need(words) == available
    {
      FitsWithin(items, ring, end, Need(words));
    }

    /** A heap with one free block, as a fresh one, refuses to give away the whole of it. */
    lemma WholeRefused(p: nat)
      requires Valid() && ring == Node(p, Stop) && available >= MIN_SIZE
      ensures available > 0 && FirstFit(items, ring, available) == Some(p) && Choice(available) == None
    {
      assert In(p, ring) && Sum(items, Stop) == 0;
    }

    /** Allocate at least that many words. */
    method Alloc(words: nat) returns (r: Option<nat>)
      requires Valid()
      modifies this
      ensures Valid()
      ensures Allocated(old(View()), View(), old(Choice(words)), Need(words), r)
      ensures match old(Choice(words))
              case None => items == old(items) && ring == old(ring) && available == old(available)
              case Some(p) =>
                && p in old(items)
                && var rest := Without(old(ring), p);
                   ring == if Splits(old(items), p, Need(words)) then Node(p + HEADER + Need(words), rest) else rest
    {
      var need := Need(words);
      if need >= available {
        return None;
      }
      var found, p := Search(need);
      if !found {
        return None;
      }
      if Size(items, p) >= need + HEADER + MIN_SIZE {
        TakePart(p, need, p + HEADER + need);
      } else {
        TakeWhole(p);
      }
      return Some(p + HEADER);
    }

    /** Drop the header behind block `a`, which is not on the free ring. */
    method Join(a: nat)
      requires Rings() && a in items && a < end && items[a].next < end && !In(items[a].next, ring)
      modifies this`items
      ensures old(items)[a].next in old(items) && old(items)[old(items)[a].next].next in old(items)
      ensures Rings() && items == Joined(old(items), a) && View() == Swallowed(old(View()), a)
    {
      ghost var before := items;
      assert Follows(items, end, a) && Follows(items, end, items[a].next);
      JoinedBlocks(items, end, a);
      JoinedTiled(items, end, a);
      var b := items[a].next;
      var c := items[b].next;
      items := items[c := items[c].(prev := a)];
      items := items[a := items[a].(next := c)];
      items := items - {b};
      LinkedSame(before, items, Anchor(end), ring, Anchor(end));
    }

    /** The free block before `p`, if there is one. */
    ghost function Left(p: nat): (left: Option<nat>)
      requires p in items && items[p].prev in items
      reads this
    {
      if items[items[p].prev].used then None else Some(items[p].prev)
    }

    /** Free a live block; it joins its free neighbours. */
    method Free(ptr: nat)
      requires Valid() && ptr >= HEADER && ptr - HEADER in items && ptr - HEADER < end && items[ptr - HEADER].used
      modifies this
      ensures Valid()
      ensures old(items)[ptr - HEADER].prev in old(items) && ptr - HEADER in old(View())
      ensures IsLeft(old(View()), ptr - HEADER, old(Left(ptr - HEADER)))
      ensures View() == Freed(old(View()), ptr - HEADER, old(Left(ptr - HEADER)))
      ensures Keeps(old(View()), View(), Some(ptr - HEADER))
      ensures var rest := if NextFree(old(View()), ptr - HEADER)
                          then Without(old(ring), old(items)[ptr - HEADER].next) else old(ring);
              ring == if old(Left(ptr - HEADER)).Some? then rest else Node(ptr - HEADER, rest)
    {
      FreeBlock(ptr - HEADER);
    }

    method FreeBlock(p: nat)
      requires Valid() && p in items && p < end && items[p].used
      modifies this
      ensures Valid()
      ensures old(items)[p].prev in old(items) && p in old(View())
      ensures IsLeft(old(View()), p, old(Left(p))) && View() == Freed(old(View()), p, old(Left(p)))
      ensures Keeps(old(View()), View(), Some(p))
      ensures var rest := if NextFree(old(View()), p) then Without(old(ring), old(items)[p].next) else old(ring);
              ring == if old(Left(p)).Some? then rest else Node(p, rest)
    {
      FlaggedFree(items, ring, end, p);
      PreviousOf(items, end, p);
      LeftFound(items, end, p);
      FreedKeeps(View(), p, Left(p));
      assert Follows(items, end, p);
      ghost var before, list := items, ring;
      SetUsed(p, false);
      available := available + Size(items, p);
      var prev := items[p].prev;
      if !items[prev].used {
        available := available + HEADER;
        assert In(prev, list);
        JoinedLeft(before, end, p);
        JoinLeft(p, prev);
      } else {
        MergeAndInsert(p);
      }
    }

    /** Join the freed block `p` with the free block `prev` before it and with a free block behind it. */
    method JoinLeft(p: nat, prev: nat)
      requires Rings() && Complete(items, Node(p, ring), end) && In(prev, ring) && prev in items
      requires items[prev].next == p
      requires p in items && items[p].next in items && ApartBut(Joined(items, prev), end, prev)
      requires available == Sum(items, Node(p, ring)) + HEADER
      modifies this
      ensures Valid() && View() == MergedNext(Swallowed(old(View()), prev), prev)
      ensures ring == if NextFree(old(View()), p) then Without(old(ring), old(items)[p].next) else old(ring)
    {
      assert In(p, Node(p, ring)) && In(prev, Node(p, ring));
      assert Follows(items, end, prev) && Follows(items, end, p);
      JoinedComplete(items, Node(p, ring), end, prev);
      Join(prev);
      MergeNext(prev, ring);
    }

    /** Join block `h` with a free block behind it and put it on the free ring. */
    method MergeAndInsert(h: nat)
      requires Rings() && Complete(items, Node(h, ring), end) && ApartBut(items, end, h)
      requires available == Sum(items, Node(h, ring))
      modifies this
      ensures Valid() && View() == MergedNext(old(View()), h) && h in old(items)
      ensures ring == Node(h, if NextFree(old(View()), h) then Without(old(ring), old(items)[h].next) else old(ring))
    {
      assert In(h, Node(h, ring));
      MergeNext(h, Node(h, ring));
      ghost var merged := items;
      InsertFree(h);
      SameFree(merged, items, ring, end, end);
      SameCoalesced(merged, items, end);
    }

    /** Join block `h` with a free block behind it; `full` is the free ring with `h` on it. */
    method MergeNext(h: nat, ghost full: Ring)
      requires Rings() && Complete(items, full, end) && In(h, full) && ApartBut(items, end, h)
      requires (full == ring || full == Node(h, ring)) && available == Sum(items, full)
      modifies this
      ensures Rings() && Coalesced(items, end) && View() == MergedNext(old(View()), h)
      ensures ring == if NextFree(old(View()), h) then Without(old(ring), old(items)[h].next) else old(ring)
      ensures if full == old(ring)
              then Complete(items, ring, end) && available == Sum(items, ring)
              else Complete(items, Node(h, ring), end) && available == Sum(items, Node(h, ring))
    {
      assert Follows(items, end, h);
      var n := items[h].next;
      if !items[n].used {
        available := available + HEADER;
        assert In(n, full) && In(n, ring);
        ghost var before := items;
        RemoveFree(n);
        SameFree(before, items, full, end, h);
        assert Follows(items, end, h) && Follows(items, end, n);
        WithoutMembers(old(ring), n);
        JoinedComplete(items, full, end, h);
        JoinedApart(items, end, h);
        Join(h);
      } else {
        forall q
          ensures Apart(items, end, q)
        {
          assert q != h ==> Apart(items, end, q);
        }
      }
    }

    /** Cut the used block `p` short; what is cut off becomes free. */
    method Shrink(p: nat, cut: nat)
      requires Valid() && p in items && p < end && items[p].used
      requires p + HEADER <= cut && cut + HEADER <= items[p].next
      modifies this
      ensures Valid() && p in old(View())
      ensures View() == MergedNext(Divided(old(View()), p, cut), cut) && Keeps(old(View()), View(), Some(p))
    {
      ghost var before := items;
      assert Follows(items, end, p);
      CutTiled(items, end, p, cut);
      CutUsed(items, ring, end, p, cut);
      SplitBlock(p, cut);
      available := available + Size(items, cut);
      MergeAndInsert(cut);
    }

    /** Move the end of the used block `p` into the free block behind it. */
    method Grow(p: nat, cut: nat)
      requires Valid() && p in items && p < end && items[p].used && items[p].next in items && !items[items[p].next].used
      requires items[p].next <= cut && cut + HEADER <= items[items[p].next].next
      modifies this
      ensures Valid() && p in old(View())
      ensures View() == Divided(Swallowed(old(View()), p), p, cut) && Keeps(old(View()), View(), Some(p))
    {
      assert Follows(items, end, p);
      ghost var before, list := items, ring;
      var n := items[p].next;
      available := available - (cut - n);
      RemoveFree(n);
      SameFree(before, items, list, end, end);
      SameCoalesced(before, items, end);
      Absorb(p, list);
      CutTiled(items, end, p, cut);
      GrownKeeps(old(View()), p, cut);
      CutUsed(items, ring, end, p, cut);
      SplitBlock(p, cut);
      ghost var split := items;
      InsertFree(cut);
      SameFree(split, items, ring, end, cut);
      assert Coalesced(items, end) by {
        forall q
          ensures Apart(items, end, q)
        {
          assert q != cut ==> Apart(items, end, q);
        }
      }
    }

    method Absorb(p: nat, ghost list: Ring)
      requires Rings() && Coalesced(items, end) && Complete(items, list, end)
      requires p in items && p < end && items[p].used && items[p].next in items && In(items[p].next, list)
      requires ring == Without(list, items[p].next)
      modifies this`items
      ensures Rings() && Coalesced(items, end) && Complete(items, ring, end)
      ensures old(items)[p].next in old(items) && old(items)[old(items)[p].next].next in items
      ensures p in items && items[p].used && items[p].next == old(items)[old(items)[p].next].next
      ensures items[items[p].next].used
      ensures Sum(items, ring) == Sum(old(items), list) - Size(old(items), old(items)[p].next)
      ensures View() == Swallowed(old(View()), p)
    {
      assert Follows(items, end, p) && Follows(items, end, items[p].next);
      JoinedTiled(items, end, p);
      JoinedUsed(items, list, end, p);
      WithoutMembers(list, items[p].next);
      Join(p);
    }

    /** A position that allocation returned and that was not freed. */
    ghost predicate Live(ptr: nat)
      reads this
    {
      ptr >= HEADER && ptr - HEADER in items && ptr - HEADER < end && items[ptr - HEADER].used
    }

    /** The free block behind `p` has room for `need` words and for the smallest block. */
    ghost predicate CanGrow(p: nat, need: nat)
      requires p in items
      reads this
    {
      var n := items[p].next;
      var least := Need(need);
      n in items && !items[n].used && Size(items, n) + Size(items, p) > least + MIN_SIZE
    }

    /** A block can grow exactly if the next one is free and both have room for the request and three words more. */
    lemma CanGrowMeans(p: nat, need: nat)
      requires p in items && need >= 3
      ensures CanGrow(p, need) <==>
                var n := items[p].next;
                n in items && !items[n].used && (items[n].next - n - 6) + (n - p - 6) > need + 3
    {
    }

    /** Resize a live block in place if the room before or behind its end allows it, else move it. */
    method Resize(ptr: nat, need: nat) returns (r: Option<nat>, ghost left: Option<nat>)
      requires Valid() && Live(ptr) && need >= MIN_SIZE
      modifies this
      ensures Valid()
      ensures ptr - HEADER in old(View()) && ptr - HEADER in old(items)
      ensures Resized(old(View()), View(), ptr, need, old(Size(items, ptr - HEADER)),
                      old(CanGrow(ptr - HEADER, need)), old(Choice(need)), r, left)
      ensures Keeps(old(View()), View(), Some(ptr - HEADER))
    {
      left := None;
      ghost var b, size, grows, choice := View(), Size(items, ptr - HEADER), CanGrow(ptr - HEADER, need), Choice(need);
      var grown := TryInPlace(ptr - HEADER, need, ptr + need);
      if grown {
        r := Some(ptr);
      } else {
        r, left := Move(ptr, need);
        MoveResizes(b, View(), ptr, need, size, grows, choice, r, left);
      }
    }

    method TryInPlace(p: nat, need: nat, cut: nat) returns (done: bool)
      requires Valid() && p in items && p < end && items[p].used && need >= MIN_SIZE && cut == p + HEADER + need
      modifies this
      ensures Valid() && p in old(View())
      ensures done <==> old(Size(items, p)) >= need || old(CanGrow(p, need))
      ensures done ==>
                && View() == InPlace(old(View()), p, old(Size(items, p)), need, cut)
                && Keeps(old(View()), View(), Some(p))
      ensures !done ==> View() == old(View()) && Choice(need) == old(Choice(need)) && Live(p + HEADER)
    {
      var size := Size(items, p);
      assert Follows(items, end, p);
      if need > size {
        var n := items[p].next;
        assert n < end ==> Follows(items, end, n);
        if !items[n].used && Size(items, n) + size > need + MIN_SIZE {
          Grow(p, cut);
          return true;
        }
        return false;
      }
      if need + HEADER + MIN_SIZE < size {
        Shrink(p, cut);
      }
      return true;
    }

    /** Allocate another block and free this one. */
    method Move(ptr: nat, need: nat) returns (r: Option<nat>, ghost left: Option<nat>)
      requires Valid() && Live(ptr) && need >= MIN_SIZE
      modifies this
      ensures Valid()
      ensures r == match old(Choice(need)) case None => None case Some(q) => Some(q + HEADER)
      ensures r.None? ==> View() == old(View())
      ensures r.Some? ==> && Keeps(old(View()), View(), Some(ptr - HEADER))
                          && r.value >= HEADER && r.value - HEADER in old(View())
                          && Moved(old(View()), View(), ptr - HEADER, r.value - HEADER, need, left)
    {
      ghost var b := View();
      left := None;
      LiveBlock(ptr);
      r := Alloc(need);
      if r.Some? {
        LiveBlock(ptr);
        left := Leave(ptr, b, r.value - HEADER, need);
      }
    }

    /** Free a block after block `q` was taken in its place. */
    method Leave(ptr: nat, ghost b: Blocks, ghost q: nat, ghost need: nat) returns (ghost left: Option<nat>)
      requires Valid() && Live(ptr) && q in b && View() == Taken(b, q, need) && Keeps(b, View(), None)
      modifies this
      ensures Valid()
      ensures Keeps(b, View(), Some(ptr - HEADER)) && Moved(b, View(), ptr - HEADER, q, need, left)
    {
      ghost var mid := View();
      left := Release(ptr);
      MovedBetween(b, mid, View(), ptr - HEADER, q, need, left);
    }

    /** What is live is a used block. */
    lemma LiveBlock(ptr: nat)
      ensures Live(ptr) <==> ptr >= HEADER && ptr - HEADER in View() && View()[ptr - HEADER].used && ptr - HEADER < end
    {
    }

    /** Free a live block, next to the free block `left`. */
    method Release(ptr: nat) returns (ghost left: Option<nat>)
      requires Valid() && Live(ptr)
      modifies this
      ensures Valid() && ptr - HEADER in old(View())
      ensures IsLeft(old(View()), ptr - HEADER, left) && View() == Freed(old(View()), ptr - HEADER, left)
      ensures Keeps(old(View()), View(), Some(ptr - HEADER))
    {
      left := if items[ptr - HEADER].prev in items then Left(ptr - HEADER) else None;
      Free(ptr);
    }

    /** Resize, with the cases that are allocation or freeing. */
    method Realloc(ptr: Option<nat>, words: nat) returns (r: Option<nat>, ghost left: Option<nat>)
      requires Valid() && (ptr.Some? ==> Live(ptr.value))
      modifies this
      ensures Valid()
      ensures ptr.None? ==>
                Allocated(old(View()), View(), if words == 0 then None else old(Choice(words)), Need(words), r)
      ensures ptr.Some? ==> Reallocated(old(View()), View(), ptr.value, words, old(Size(items, ptr.value - HEADER)),
                                        old(CanGrow(ptr.value - HEADER, words)), old(Choice(words)), r, left)
    {
      r, left := None, None;
      if ptr.Some? {
        r, left := ReallocLive(ptr.value, words);
      } else if words != 0 {
        r := Alloc(words);
      }
    }

    method ReallocLive(ptr: nat, words: nat) returns (r: Option<nat>, ghost left: Option<nat>)
      requires Valid() && Live(ptr)
      modifies this
      ensures Valid()
      ensures Reallocated(old(View()), View(), ptr, words, old(Size(items, ptr - HEADER)),
                          old(CanGrow(ptr - HEADER, words)), old(Choice(words)), r, left)
    {
      if words == 0 {
        r := None;
        left := Release(ptr);
      } else {
        r, left := Resize(ptr, Need(words));
      }
    }
  }
}
