/**
 The shell's heap as two address-ordered lists. The free list is determined by the list
 of allocated blocks: it fills every gap between them, and the room behind the last one.
 */
module FinshBlocks {
  import opened Options

  /** The length of a block header, in bytes. */
  const HEADER: nat := 8

  datatype Chain = Nil | Link(start: nat, length: nat, rest: Chain)

  /** Where the block at `start` ends. */
  function Past(start: nat, length: nat): (p: nat) {
    start + HEADER + length
  }

  /** Ascending blocks from `at` on with gaps that can hold a header, and room for a header behind them. */
  predicate Spaced(blocks: Chain, at: nat, end: nat) {
    match blocks
    case Nil => at + HEADER <= end
    case Link(start, length, rest) => (start == at || at + HEADER <= start) && Spaced(rest, Past(start, length), end)
  }

  /** The free blocks: one for every gap and one for the room at the top. */
  function Gaps(blocks: Chain, at: nat, end: nat): (free: Chain)
    requires Spaced(blocks, at, end)
  {
    match blocks
    case Nil => Link(at, end - at - HEADER, Nil)
    case Link(start, length, rest) =>
      var above := Gaps(rest, Past(start, length), end);
      if start == at then above else Link(at, start - at - HEADER, above)
  }

  // ----- what the code does to a list -----

  function Inserted(c: Chain, start: nat, length: nat): (r: Chain) {
    if c.Link? && c.start <= start then Link(c.start, c.length, Inserted(c.rest, start, length))
    else Link(start, length, c)
  }

  function Removed(c: Chain, start: nat): (r: Chain) {
    match c
    case Nil => Nil
    case Link(s, n, rest) => if s == start then rest else Link(s, n, Removed(rest, start))
  }

  /** The front `size` bytes of the block at `start` are taken; the rest is a block of its own. */
  function Trimmed(c: Chain, start: nat, size: nat): (r: Chain) {
    match c
    case Nil => Nil
    case Link(s, n, rest) =>
      if s == start && size + HEADER <= n then Link(Past(s, size), n - HEADER - size, rest)
      else Link(s, n, Trimmed(rest, start, size))
  }

  /** A block joins the next one if they touch. */
  function JoinNext(start: nat, length: nat, rest: Chain): (r: Chain) {
    if rest.Link? && Past(start, length) == rest.start then Link(start, length + rest.length + HEADER, rest.rest)
    else Link(start, length, rest)
  }

  /** The block at `start` joins the block before it and the block behind it if they touch. */
  function Merged(c: Chain, start: nat): (r: Chain) {
    match c
    case Nil => Nil
    case Link(s, n, rest) =>
      if s == start then JoinNext(s, n, rest)
      else if rest.Link? && rest.start == start && Past(s, n) == start then
        JoinNext(s, n + rest.length + HEADER, rest.rest)
      else Link(s, n, Merged(rest, start))
  }

  function LengthOf(c: Chain, start: nat): (r: Option<nat>) {
    match c
    case Nil => None
    case Link(s, n, rest) => if s == start then Some(n) else LengthOf(rest, start)
  }

  // ----- allocation and release keep the free list the gaps of the allocated list -----

  lemma {:induction false} SpacedAbove(blocks: Chain, at: nat, end: nat, p: nat)
    requires Spaced(blocks, at, end)
    ensures LengthOf(blocks, p).Some? ==> at <= p && Past(p, LengthOf(blocks, p).value) + HEADER <= end
    ensures blocks.Link? ==> at <= blocks.start
  {
    if blocks.Link? {
      SpacedAbove(blocks.rest, Past(blocks.start, blocks.length), end, p);
      SpacedEnd(blocks.rest, Past(blocks.start, blocks.length), end);
    }
  }

  lemma {:induction false} SpacedEnd(blocks: Chain, at: nat, end: nat)
    requires Spaced(blocks, at, end)
    ensures at + HEADER <= end
  {
    if blocks.Link? {
      SpacedEnd(blocks.rest, Past(blocks.start, blocks.length), end);
    }
  }

  /** There is always a free block, and the first one lies at or above the start of the stretch. */
  lemma {:induction false} GapsFirst(blocks: Chain, at: nat, end: nat, p: nat)
    requires Spaced(blocks, at, end)
    ensures Gaps(blocks, at, end).Link? && at <= Gaps(blocks, at, end).start
    ensures blocks.Link? && blocks.start == at ==> Past(blocks.start, blocks.length) <= Gaps(blocks, at, end).start
    ensures LengthOf(Gaps(blocks, at, end), p).Some? ==> at <= p
  {
    if blocks.Link? {
      GapsFirst(blocks.rest, Past(blocks.start, blocks.length), end, p);
    } else {
      assert LengthOf(Nil, p).None?;
    }
  }

  /** Taking the front of a free block. */
  lemma {:induction false} AllocateGaps(blocks: Chain, at: nat, end: nat, p: nat, size: nat)
    requires Spaced(blocks, at, end)
    requires LengthOf(Gaps(blocks, at, end), p).Some? && LengthOf(Gaps(blocks, at, end), p).value >= size + HEADER
    ensures Spaced(Inserted(blocks, p, size), at, end)
    ensures Gaps(Inserted(blocks, p, size), at, end) == Trimmed(Gaps(blocks, at, end), p, size)
  {
    if blocks.Link? {
      var above := Past(blocks.start, blocks.length);
      GapsFirst(blocks.rest, above, end, p);
      if !(blocks.start > at && p == at) {
        AllocateGaps(blocks.rest, above, end, p, size);
      }
    }
  }

  /** Releasing an allocated block. */
  lemma {:induction false} ReleaseGaps(blocks: Chain, at: nat, end: nat, p: nat)
    requires Spaced(blocks, at, end) && LengthOf(blocks, p).Some?
    ensures Spaced(Removed(blocks, p), at, end)
    ensures Merged(Inserted(Gaps(blocks, at, end), p, LengthOf(blocks, p).value), p)
            == Gaps(Removed(blocks, p), at, end)
  {
    var n, rest, above := LengthOf(blocks, p).value, blocks.rest, Past(blocks.start, blocks.length);
    GapsFirst(rest, above, end, p);
    if blocks.start == p {
      ReleaseFirst(blocks, at, end);
    } else {
      SpacedAbove(rest, above, end, p);
      ReleaseGaps(rest, above, end, p);
    }
  }

  lemma ReleaseFirst(blocks: Chain, at: nat, end: nat)
    requires Spaced(blocks, at, end) && blocks.Link?
    ensures Spaced(blocks.rest, at, end)
    ensures Merged(Inserted(Gaps(blocks, at, end), blocks.start, blocks.length), blocks.start)
            == Gaps(blocks.rest, at, end)
  {
    var p, n, rest := blocks.start, blocks.length, blocks.rest;
    SpacedEnd(rest, Past(p, n), end);
    var above := Gaps(rest, Past(p, n), end);
    GapsFirst(rest, Past(p, n), end, p);
    assert Inserted(above, p, n) == Link(p, n, above);
    if rest.Link? {
      GapsFirst(rest.rest, Past(rest.start, rest.length), end, p);
    }
  }

  lemma {:induction false} RemoveInserted(blocks: Chain, p: nat, size: nat)
    requires LengthOf(blocks, p).None?
    ensures Removed(Inserted(blocks, p, size), p) == blocks && LengthOf(Inserted(blocks, p, size), p) == Some(size)
  {
    if blocks.Link? && blocks.start <= p {
      RemoveInserted(blocks.rest, p, size);
    }
  }

  lemma {:induction false} GapsDisjoint(blocks: Chain, at: nat, end: nat, p: nat)
    requires Spaced(blocks, at, end) && LengthOf(Gaps(blocks, at, end), p).Some?
    ensures LengthOf(blocks, p).None?
  {
    if blocks.Link? {
      var above := Past(blocks.start, blocks.length);
      GapsFirst(blocks.rest, above, end, p);
      if LengthOf(Gaps(blocks.rest, above, end), p).Some? {
        GapsDisjoint(blocks.rest, above, end, p);
      } else {
        SpacedAbove(blocks.rest, above, end, p);
      }
    }
  }

  // ----- what the lists say -----

  /** The byte at `x` belongs to a block, whose header takes eight bytes. */
  ghost predicate Covers(c: Chain, x: nat) {
    c.Link? && (c.start <= x < c.start + 8 + c.length || Covers(c.rest, x))
  }

  /** Allocated and free blocks share no byte, and every byte of the heap belongs to one of them. */
  lemma {:induction false} EveryByteOnce(blocks: Chain, at: nat, end: nat, x: nat)
    requires Spaced(blocks, at, end)
    ensures at <= x < end ==> (Covers(blocks, x) <==> !Covers(Gaps(blocks, at, end), x))
    ensures !(at <= x < end) ==> !Covers(blocks, x) && !Covers(Gaps(blocks, at, end), x)
  {
    if blocks.Link? {
      EveryByteOnce(blocks.rest, Past(blocks.start, blocks.length), end, x);
      SpacedEnd(blocks.rest, Past(blocks.start, blocks.length), end);
    } else {
      assert !Covers(Nil, x);
    }
  }

  /** A block that is put on a list is on it with its length; no other block changes. */
  lemma {:induction false} InsertedLength(c: Chain, start: nat, length: nat, x: nat)
    requires LengthOf(c, start).None?
    ensures LengthOf(Inserted(c, start, length), x) == if x == start then Some(length) else LengthOf(c, x)
  {
    if c.Link? && c.start <= start {
      InsertedLength(c.rest, start, length, x);
    }
  }

  /** Every address is on the list at most once. */
  ghost predicate Single(c: Chain) {
    c.Link? ==> LengthOf(c.rest, c.start).None? && Single(c.rest)
  }

  lemma {:induction false} RemovedLength(c: Chain, start: nat, x: nat)
    requires Single(c)
    ensures LengthOf(Removed(c, start), x) == if x == start then None else LengthOf(c, x)
  {
    if c.Link? {
      RemovedLength(c.rest, start, x);
    }
  }

  lemma {:induction false} SpacedSingle(blocks: Chain, at: nat, end: nat)
    requires Spaced(blocks, at, end)
    ensures Single(blocks)
  {
    if blocks.Link? {
      var above := Past(blocks.start, blocks.length);
      SpacedSingle(blocks.rest, above, end);
      SpacedAbove(blocks.rest, above, end, blocks.start);
    }
  }

  /** Releasing what was just allocated restores the free list. */
  lemma ReleaseUndoesAllocate(blocks: Chain, end: nat, p: nat, size: nat)
    requires Spaced(blocks, 0, end)
    requires LengthOf(Gaps(blocks, 0, end), p).Some? && LengthOf(Gaps(blocks, 0, end), p).value >= size + HEADER
    ensures Merged(Inserted(Trimmed(Gaps(blocks, 0, end), p, size), p, size), p) == Gaps(blocks, 0, end)
  {
    AllocateGaps(blocks, 0, end, p, size);
    GapsDisjoint(blocks, 0, end, p);
    RemoveInserted(blocks, p, size);
    ReleaseGaps(Inserted(blocks, p, size), 0, end, p);
  }
}
