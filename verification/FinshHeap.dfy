/** The shell's heap in place: headers with a length and a link, on one of two lists. */
module FinshHeap {
  import opened Options
  import opened FinshBlocks

  datatype Cell = Cell(length: nat, next: Option<nat>)

  type Memory = map<nat, Cell>

  ghost predicate In(c: Chain, x: nat) {
    c.Link? && (c.start == x || In(c.rest, x))
  }

  /** Starts ascend, from `low` on. */
  ghost predicate Ascends(c: Chain, low: nat) {
    c.Link? ==> low <= c.start && Ascends(c.rest, c.start + 1)
  }

  /** The links from `head` on lead through exactly these blocks. */
  ghost predicate Linked(mem: Memory, head: Option<nat>, c: Chain)
    decreases c
  {
    match c
    case Nil => head == None
    case Link(start, length, rest) =>
      head == Some(start) && start in mem && mem[start].length == length && Linked(mem, mem[start].next, rest)
  }

  /** Blocks passed on a walk. */
  datatype Passed = Front | Behind(before: Passed, start: nat, length: nat)

  ghost function Whole(passed: Passed, rest: Chain): (c: Chain) {
    match passed
    case Front => rest
    case Behind(before, start, length) => Whole(before, Link(start, length, rest))
  }

  /** The links from `head` through the blocks passed lead to `at`; the blocks passed lie below `limit`. */
  ghost predicate Leads(mem: Memory, head: Option<nat>, passed: Passed, at: Option<nat>, limit: nat) {
    match passed
    case Front => head == at
    case Behind(before, start, length) =>
      && start < limit && start in mem && mem[start].length == length && mem[start].next == at
      && Leads(mem, head, before, Some(start), start)
  }

  ghost predicate Same(mem: Memory, after: Memory, x: nat) {
    x in mem ==> x in after && after[x] == mem[x]
  }

  lemma {:induction false} LinkedFrame(mem: Memory, after: Memory, head: Option<nat>, c: Chain)
    requires Linked(mem, head, c) && forall x: nat :: In(c, x) ==> Same(mem, after, x)
    ensures Linked(after, head, c)
    decreases c
  {
    if c.Link? {
      assert In(c, c.start) && Same(mem, after, c.start);
      LinkedFrame(mem, after, mem[c.start].next, c.rest);
    }
  }

  lemma {:induction false} LeadsFrame(mem: Memory, after: Memory, head: Option<nat>, passed: Passed, at: Option<nat>,
                                      limit: nat)
    requires Leads(mem, head, passed, at, limit) && forall x: nat :: x < limit ==> Same(mem, after, x)
    ensures Leads(after, head, passed, at, limit)
  {
    if passed.Behind? {
      assert Same(mem, after, passed.start);
      LeadsFrame(mem, after, head, passed.before, Some(passed.start), passed.start);
    }
  }

  lemma {:induction false} Joined(mem: Memory, head: Option<nat>, passed: Passed, at: Option<nat>, limit: nat,
                                  rest: Chain)
    requires Leads(mem, head, passed, at, limit) && Linked(mem, at, rest)
    ensures Linked(mem, head, Whole(passed, rest))
    decreases passed
  {
    if passed.Behind? {
      Joined(mem, head, passed.before, Some(passed.start), passed.start, Link(passed.start, passed.length, rest));
    }
  }

  lemma {:induction false} WholeMembers(passed: Passed, rest: Chain, x: nat)
    ensures In(rest, x) ==> In(Whole(passed, rest), x)
    ensures passed.Behind? ==> In(Whole(passed, rest), passed.start)
    decreases passed
  {
    if passed.Behind? {
      WholeMembers(passed.before, Link(passed.start, passed.length, rest), x);
      WholeMembers(passed.before, Link(passed.start, passed.length, rest), passed.start);
    }
  }

  lemma {:induction false} AscendsAbove(c: Chain, low: nat, x: nat)
    requires Ascends(c, low) && In(c, x)
    ensures low <= x
  {
    if c.start != x {
      AscendsAbove(c.rest, c.start + 1, x);
    }
  }

  // ----- operations walk past blocks that do not concern them -----

  /** All blocks passed start below `x`. */
  ghost predicate Below(passed: Passed, x: nat) {
    passed.Behind? ==> passed.start < x && Below(passed.before, x)
  }

  lemma {:induction false} InsertPast(passed: Passed, rest: Chain, start: nat, length: nat)
    requires Below(passed, start)
    ensures Inserted(Whole(passed, rest), start, length) == Whole(passed, Inserted(rest, start, length))
    decreases passed
  {
    if passed.Behind? {
      InsertPast(passed.before, Link(passed.start, passed.length, rest), start, length);
    }
  }

  lemma {:induction false} RemovePast(passed: Passed, rest: Chain, start: nat)
    requires Below(passed, start)
    ensures Removed(Whole(passed, rest), start) == Whole(passed, Removed(rest, start))
    decreases passed
  {
    if passed.Behind? {
      RemovePast(passed.before, Link(passed.start, passed.length, rest), start);
    }
  }

  /** Some block lies above `x`. */
  ghost predicate HasAbove(c: Chain, x: nat) {
    c.Link? && (x < c.start || HasAbove(c.rest, x))
  }

  lemma {:induction false} AbovePast(passed: Passed, rest: Chain, x: nat)
    requires Below(passed, x)
    ensures HasAbove(Whole(passed, rest), x) == HasAbove(rest, x)
    decreases passed
  {
    if passed.Behind? {
      AbovePast(passed.before, Link(passed.start, passed.length, rest), x);
    }
  }

  /** A block inside the list is not the one before `start`, so merging passes it. */
  lemma {:induction false} MergePast(passed: Passed, rest: Chain, start: nat)
    requires Below(passed, start) && rest.Link? && rest.start != start
    ensures Merged(Whole(passed, rest), start) == Whole(passed, Merged(rest, start))
    decreases passed
  {
    if passed.Behind? {
      MergePast(passed.before, Link(passed.start, passed.length, rest), start);
    }
  }

  /** The block at `start` in two. */
  ghost function SplitAt(c: Chain, start: nat, size: nat): (r: Chain) {
    match c
    case Nil => Nil
    case Link(s, n, rest) =>
      if s == start && size + HEADER <= n then Link(s, size, Link(Past(s, size), n - HEADER - size, rest))
      else Link(s, n, SplitAt(rest, start, size))
  }

  /** Blocks that do not overlap, from `low` on. */
  ghost predicate Stacked(c: Chain, low: nat) {
    c.Link? ==> low <= c.start && Stacked(c.rest, Past(c.start, c.length))
  }

  lemma {:induction false} StackedAscends(c: Chain, low: nat, lower: nat)
    requires Stacked(c, low) && lower <= low
    ensures Ascends(c, lower)
  {
    if c.Link? {
      StackedAscends(c.rest, Past(c.start, c.length), c.start + 1);
    }
  }

  lemma {:induction false} SpacedStacked(blocks: Chain, at: nat, end: nat)
    requires Spaced(blocks, at, end)
    ensures Stacked(blocks, at) && Stacked(Gaps(blocks, at, end), at)
  {
    if blocks.Link? {
      SpacedStacked(blocks.rest, Past(blocks.start, blocks.length), end);
    }
  }

  lemma {:induction false} InLength(c: Chain, x: nat)
    ensures In(c, x) <==> LengthOf(c, x).Some?
  {
    if c.Link? {
      InLength(c.rest, x);
    }
  }

  /** A block of the list holds no other block's header. */
  lemma {:induction false} StackedInside(c: Chain, low: nat, p: nat, x: nat)
    requires Stacked(c, low) && LengthOf(c, p).Some? && p < x < Past(p, LengthOf(c, p).value)
    ensures !In(c, x) && low <= p
  {
    if c.start == p {
      StackedAscends(c.rest, Past(c.start, c.length), Past(c.start, c.length));
      if In(c.rest, x) {
        AscendsAbove(c.rest, Past(c.start, c.length), x);
      }
    } else {
      StackedInside(c.rest, Past(c.start, c.length), p, x);
    }
  }

  lemma {:induction false} SplitStacked(c: Chain, low: nat, p: nat, size: nat)
    requires Stacked(c, low) && LengthOf(c, p).Some? && LengthOf(c, p).value >= size + HEADER
    ensures Stacked(SplitAt(c, p, size), low) && In(SplitAt(c, p, size), p)
    ensures Removed(SplitAt(c, p, size), p) == Trimmed(c, p, size)
  {
    if c.start != p {
      SplitStacked(c.rest, Past(c.start, c.length), p, size);
    }
  }

  lemma {:induction false} SplitMembers(c: Chain, p: nat, size: nat, x: nat)
    ensures In(SplitAt(c, p, size), x) ==> In(c, x) || (x == Past(p, size) && LengthOf(c, p).Some?)
  {
    if c.Link? {
      SplitMembers(c.rest, p, size, x);
      if c.start == p && size + HEADER <= c.length {
        assert In(Link(Past(p, size), c.length - HEADER - size, c.rest), x) ==> x == Past(p, size) || In(c.rest, x);
      }
    }
  }

  lemma {:induction false} SplitLinked(mem: Memory, after: Memory, head: Option<nat>, c: Chain, low: nat, p: nat,
                                       size: nat)
    requires Linked(mem, head, c) && Ascends(c, low) && LengthOf(c, p).Some? && LengthOf(c, p).value >= size + HEADER
    requires p in mem && p in after && Past(p, size) in after && !In(c, Past(p, size))
    requires after[p] == Cell(size, Some(Past(p, size))) && mem[p].length == LengthOf(c, p).value
    requires after[Past(p, size)] == Cell(mem[p].length - HEADER - size, mem[p].next)
    requires forall x: nat :: x != p && x != Past(p, size) ==> Same(mem, after, x)
    ensures Linked(after, head, SplitAt(c, p, size))
    decreases c
  {
    if c.start == p {
      forall x: nat | In(c.rest, x)
        ensures Same(mem, after, x)
      {
        AscendsAbove(c.rest, c.start + 1, x);
      }
      LinkedFrame(mem, after, mem[p].next, c.rest);
      assert Linked(after, Some(Past(p, size)), Link(Past(p, size), mem[p].length - HEADER - size, c.rest));
    } else {
      assert Same(mem, after, c.start);
      SplitLinked(mem, after, mem[c.start].next, c.rest, c.start + 1, p, size);
    }
  }

  /** The topmost block is free, so some free block lies above every allocated one. */
  lemma {:induction false} GapsTop(blocks: Chain, at: nat, end: nat, p: nat)
    requires Spaced(blocks, at, end) && LengthOf(blocks, p).Some?
    ensures HasAbove(Gaps(blocks, at, end), p)
  {
    var above := Past(blocks.start, blocks.length);
    GapsFirst(blocks.rest, above, end, p);
    if blocks.start != p {
      GapsTop(blocks.rest, above, end, p);
    }
  }

  lemma {:induction false} LinkedIn(mem: Memory, head: Option<nat>, c: Chain, x: nat)
    requires Linked(mem, head, c) && In(c, x)
    ensures x in mem && LengthOf(c, x) == Some(mem[x].length)
    decreases c
  {
    if c.start != x {
      LinkedIn(mem, mem[c.start].next, c.rest, x);
    }
  }

  class Heap {
    const size: nat
    var mem: Memory
    var freeList: Option<nat>
    var allocateList: Option<nat>
    ghost var blocks: Chain

    /** The state of a walk along a list: the blocks passed, then the block at `node`. */
    ghost predicate Walk(head: Option<nat>, c: Chain, passed: Passed, node: nat, rest: Chain)
      reads this
    {
      && node in mem && c == Whole(passed, Link(node, mem[node].length, rest))
      && Leads(mem, head, passed, Some(node), node) && Linked(mem, mem[node].next, rest) && Ascends(rest, node + 1)
    }

    /**
     Put a block into a list. A block that goes behind all others keeps its own link, so that
     link has to be empty unless some block of the list lies above it.
     */
    method Insert(head: Option<nat>, header: nat, ghost c: Chain) returns (r: Option<nat>)
      requires Linked(mem, head, c) && Ascends(c, 0) && header in mem && !In(c, header)
      requires HasAbove(c, header) || mem[header].next == None
      modifies this`mem
      ensures Linked(mem, r, Inserted(c, header, old(mem)[header].length))
      ensures forall x: nat :: x != header && !In(c, x) ==> Same(old(mem), mem, x)
      ensures mem.Keys == old(mem).Keys && forall x: nat :: x in mem ==> mem[x].length == old(mem)[x].length
    {
      ghost var before := mem;
      if head == None {
        return Some(header);
      }
      var node: nat := head.value;
      if node > header {
        mem := mem[header := mem[header].(next := head)];
        LinkedFrame(before, mem, head, c);
        return Some(header);
      }
      ghost var passed, rest := Front, c.rest;
      while mem[node].next.Some? && !(mem[node].next.value > header)
        invariant mem == before && Walk(head, c, passed, node, rest) && Below(passed, header) && node < header
        decreases rest
      {
        WholeMembers(Behind(passed, node, mem[node].length), rest, rest.start);
        passed, rest, node := Behind(passed, node, mem[node].length), rest.rest, mem[node].next.value;
      }
      AbovePast(Behind(passed, node, mem[node].length), rest, header);
      InsertPast(Behind(passed, node, mem[node].length), rest, header, mem[header].length);
      PutBehind(node, header, head, passed, rest, c);
      r := head;
    }

    method PutBehind(node: nat, header: nat, ghost head: Option<nat>, ghost passed: Passed, ghost rest: Chain,
                     ghost c: Chain)
      requires Walk(head, c, passed, node, rest) && header in mem && node < header && !In(c, header)
      requires rest.Nil? ==> mem[header].next == None
      requires rest.Link? ==> header < rest.start
      modifies this`mem
      ensures Linked(mem, head, Whole(Behind(passed, node, old(mem)[node].length),
                                      Link(header, old(mem)[header].length, rest)))
      ensures forall x: nat :: x != header && x != node ==> Same(old(mem), mem, x)
      ensures mem.Keys == old(mem).Keys && forall x: nat :: x in mem ==> mem[x].length == old(mem)[x].length
      ensures In(c, node)
    {
      ghost var before, n := mem, mem[header].length;
      if mem[node].next != None {
        mem := mem[header := mem[header].(next := mem[node].next)];
      }
      mem := mem[node := mem[node].(next := Some(header))];
      WholeMembers(Behind(passed, node, mem[node].length), rest, node);
      forall x: nat | In(rest, x)
        ensures Same(before, mem, x)
      {
        AscendsAbove(rest, node + 1, x);
        WholeMembers(Behind(passed, node, mem[node].length), rest, x);
      }
      LinkedFrame(before, mem, before[node].next, rest);
      LeadsFrame(before, mem, head, passed, Some(node), node);
      Joined(mem, head, passed, Some(node), node, Link(node, mem[node].length, Link(header, n, rest)));
    }

    /** Take a block out of a list; its own link is cleared only if it was the first. */
    method Remove(head: Option<nat>, header: nat, ghost c: Chain) returns (r: Option<nat>)
      requires Linked(mem, head, c) && Ascends(c, 0) && In(c, header)
      modifies this`mem
      ensures Linked(mem, r, Removed(c, header)) && header in mem
      ensures head == Some(header) ==> mem[header].next == None
      ensures forall x: nat :: !In(c, x) ==> Same(old(mem), mem, x)
      ensures mem.Keys == old(mem).Keys && forall x: nat :: x in mem ==> mem[x].length == old(mem)[x].length
    {
      ghost var before := mem;
      if head == Some(header) {
        r := mem[header].next;
        mem := mem[header := mem[header].(next := None)];
        NotInRest(c);
        LinkedFrame(before, mem, r, c.rest);
        return;
      }
      var node: nat := head.value;
      NotInRest(c);
      ghost var passed, rest := Front, c.rest;
      while mem[node].next != Some(header)
        invariant mem == before && Walk(head, c, passed, node, rest) && Below(passed, header) && node < header
        invariant In(rest, header)
        decreases rest
      {
        passed, rest, node := Behind(passed, node, mem[node].length), rest.rest, mem[node].next.value;
        AscendsAbove(rest, node + 1, header);
      }
      RemovePast(Behind(passed, node, mem[node].length), rest, header);
      Unlink(node, header, head, passed, rest, c);
      r := head;
    }

    method Unlink(node: nat, header: nat, ghost head: Option<nat>, ghost passed: Passed, ghost rest: Chain,
                  ghost c: Chain)
      requires Walk(head, c, passed, node, rest) && rest.Link? && rest.start == header
      modifies this`mem
      ensures Linked(mem, head, Whole(Behind(passed, node, old(mem)[node].length), rest.rest)) && In(c, node)
      ensures forall x: nat :: x != node ==> Same(old(mem), mem, x)
      ensures mem.Keys == old(mem).Keys && forall x: nat :: x in mem ==> mem[x].length == old(mem)[x].length
    {
      ghost var before := mem;
      mem := mem[node := mem[node].(next := mem[header].next)];
      WholeMembers(Behind(passed, node, mem[node].length), rest, node);
      forall x: nat | In(rest.rest, x)
        ensures Same(before, mem, x)
      {
        AscendsAbove(rest, node + 1, x);
      }
      LinkedFrame(before, mem, before[header].next, rest.rest);
      LeadsFrame(before, mem, head, passed, Some(node), node);
      Joined(mem, head, passed, Some(node), node, Link(node, mem[node].length, rest.rest));
    }

    /** Cut a block in two; the rest follows it in the list. */
    method Split(header: nat, length: nat, ghost head: Option<nat>, ghost c: Chain)
      requires Linked(mem, head, c) && Stacked(c, 0)
      requires LengthOf(c, header).Some? && LengthOf(c, header).value >= length + HEADER
      modifies this`mem
      ensures Linked(mem, head, SplitAt(c, header, length)) && header in mem && mem[header].length == length
      ensures forall x: nat :: x != header && x != Past(header, length) ==> Same(old(mem), mem, x)
    {
      ghost var before := mem;
      InLength(c, header);
      LinkedIn(mem, head, c, header);
      StackedAscends(c, 0, 0);
      StackedInside(c, 0, header, Past(header, length));
      var next := header + HEADER + length;
      mem := mem[next := Cell(mem[header].length - HEADER - length, mem[header].next)];
      mem := mem[header := Cell(length, Some(next))];
      SplitLinked(before, mem, head, c, 0, header, length);
    }

    /** Join a block of a list with the block before it and the block behind it where they touch. */
    method Merge(head: Option<nat>, header: nat, ghost c: Chain)
      requires Linked(mem, head, c) && Ascends(c, 0) && In(c, header)
      modifies this`mem
      ensures Linked(mem, head, Merged(c, header))
      ensures forall x: nat :: !In(c, x) ==> Same(old(mem), mem, x)
    {
      NotInRest(c);
      if head == Some(header) {
        MergeNext(header, c, head, Front, c.rest);
        return;
      }
      var prev: nat := head.value;
      ghost var passed, rest := Front, c.rest;
      while mem[prev].next != Some(header)
        invariant mem == old(mem) && Walk(head, c, passed, prev, rest) && Below(passed, header) && prev < header
        invariant In(rest, header)
        decreases rest
      {
        passed, rest, prev := Behind(passed, prev, mem[prev].length), rest.rest, mem[prev].next.value;
        AscendsAbove(rest, prev + 1, header);
      }
      MergePast(passed, Link(prev, mem[prev].length, rest), header);
      if prev + mem[prev].length + HEADER == header {
        MergeBefore(prev, header, c, head, passed, rest);
      } else {
        MergeNext(header, c, head, Behind(passed, prev, mem[prev].length), rest.rest);
      }
    }

    /** The block joins the next one if they touch. */
    method MergeNext(header: nat, ghost c: Chain, ghost head: Option<nat>, ghost passed: Passed, ghost rest: Chain)
      requires Walk(head, c, passed, header, rest)
      modifies this`mem
      ensures Linked(mem, head, Whole(passed, JoinNext(header, old(mem)[header].length, rest)))
      ensures forall x: nat :: !In(c, x) ==> Same(old(mem), mem, x)
    {
      ghost var before, tail := mem, rest;
      WholeMembers(passed, Link(header, mem[header].length, rest), header);
      var next := mem[header].next;
      if next.Some? && header + mem[header].length + HEADER == next.value {
        mem := mem[header := Cell(mem[header].length + mem[next.value].length + HEADER, mem[next.value].next)];
        tail := rest.rest;
      }
      Relinked(before, mem, head, passed, header, rest, tail);
    }

    /** The block before takes the block in, and the next one too if they touch. */
    method MergeBefore(prev: nat, header: nat, ghost c: Chain, ghost head: Option<nat>, ghost passed: Passed,
                       ghost rest: Chain)
      requires Walk(head, c, passed, prev, rest) && rest.Link? && rest.start == header
      requires Past(prev, mem[prev].length) == header
      modifies this`mem
      ensures Linked(mem, head, Whole(passed, JoinNext(prev, old(mem)[prev].length + rest.length + HEADER, rest.rest)))
      ensures forall x: nat :: !In(c, x) ==> Same(old(mem), mem, x)
    {
      ghost var before, tail := mem, rest.rest;
      WholeMembers(passed, Link(prev, mem[prev].length, rest), prev);
      assert mem[header].length == rest.length && Linked(mem, mem[header].next, rest.rest);
      var next := mem[header].next;
      if next.Some? && header + mem[header].length + HEADER == next.value {
        var length := mem[prev].length + mem[header].length + mem[next.value].length + 2 * HEADER;
        mem := mem[prev := Cell(length, mem[next.value].next)];
        tail := rest.rest.rest;
      } else {
        mem := mem[prev := Cell(mem[prev].length + mem[header].length + HEADER, mem[header].next)];
      }
      Relinked(before, mem, head, passed, prev, rest, tail);
    }

    /** The free list fills the gaps of the allocated list. */
    ghost predicate Valid()
      reads this
    {
      && Spaced(blocks, 0, size)
      && Linked(mem, freeList, Gaps(blocks, 0, size)) && Linked(mem, allocateList, blocks)
    }

    constructor (size: nat)
      requires size >= HEADER
      ensures Valid() && blocks == Nil && this.size == size
    {
      this.size := size;
      mem := map[0 := Cell(size - HEADER, None)];
      freeList, allocateList, blocks := Some(0), None, Nil;
    }

    /** Facts about the two lists. */
    lemma Lists()
      requires Valid()
      ensures Stacked(blocks, 0) && Stacked(Gaps(blocks, 0, size), 0)
      ensures Ascends(blocks, 0) && Ascends(Gaps(blocks, 0, size), 0)
      ensures forall x: nat :: In(Gaps(blocks, 0, size), x) ==> !In(blocks, x)
    {
      var free := Gaps(blocks, 0, size);
      SpacedStacked(blocks, 0, size);
      StackedAscends(blocks, 0, 0);
      StackedAscends(free, 0, 0);
      forall x: nat | In(free, x)
        ensures !In(blocks, x)
      {
        InLength(free, x);
        InLength(blocks, x);
        GapsDisjoint(blocks, 0, size, x);
      }
    }

    /** Release an allocated block. */
    method Free(ptr: nat)
      requires Valid() && ptr >= HEADER && LengthOf(blocks, ptr - HEADER).Some?
      modifies this
      ensures Valid() && blocks == Removed(old(blocks), ptr - HEADER)
    {
      var header := ptr - HEADER;
      ghost var free, before := Gaps(blocks, 0, size), mem;
      Lists();
      InLength(blocks, header);
      LinkedIn(mem, allocateList, blocks, header);
      RemovedMembers(blocks, header);
      GapsTop(blocks, 0, size, header);
      allocateList := Remove(allocateList, header, blocks);
      LinkedFrame(before, mem, freeList, free);
      ToFree(header, free, Removed(blocks, header));
      ReleaseGaps(blocks, 0, size, header);
      blocks := Removed(blocks, header);
    }

    /** Release every allocated block that no variable points to. */
    method Collect(used: seq<nat>)
      requires Valid()
      modifies this
      ensures Valid() && blocks == Kept(old(blocks), used)
    {
      var header := allocateList;
      ghost var passed, todo := Front, blocks;
      while header.Some?
        invariant Valid() && blocks == Whole(passed, todo) && header == Head(todo)
        invariant Kept(old(blocks), used) == Whole(passed, Kept(todo, used))
        decreases todo
      {
        Lists();
        LinkedPart(mem, allocateList, passed, todo);
        StackedPart(passed, todo);
        var temp: nat := header.value;
        header := mem[temp].next;
        if temp + HEADER !in used {
          RemovePast(passed, todo, temp);
          Free(temp + HEADER);
        } else {
          passed := Behind(passed, todo.start, todo.length);
        }
        todo := todo.rest;
      }
    }

    /** Walk the free list to the first block that is long enough. */
    method Search(need: nat, strict: bool) returns (r: Option<nat>)
      requires Valid()
      ensures r == FirstFit(Gaps(blocks, 0, size), need, strict)
    {
      r := freeList;
      ghost var rest := Gaps(blocks, 0, size);
      while r.Some? && (mem[r.value].length < need || (strict && mem[r.value].length == need))
        invariant Linked(mem, r, rest) && FirstFit(Gaps(blocks, 0, size), need, strict) == FirstFit(rest, need, strict)
        decreases rest
      {
        r := mem[r.value].next;
        rest := rest.rest;
      }
    }

    /** Take the front of a free block. */
    method Take(header: nat, length: nat)
      requires Valid() && LengthOf(Gaps(blocks, 0, size), header).Some?
      requires LengthOf(Gaps(blocks, 0, size), header).value >= length + HEADER
      modifies this
      ensures Valid() && blocks == Inserted(old(blocks), header, length)
    {
      ghost var free, before := Gaps(blocks, 0, size), mem;
      Lists();
      AllocateGaps(blocks, 0, size, header, length);
      SplitStacked(free, 0, header, length);
      StackedAscends(SplitAt(free, header, length), 0, 0);
      NotAllocated(header, length);
      Split(header, length, freeList, free);
      LinkedFrame(before, mem, allocateList, blocks);
      ghost var middle, split := mem, SplitAt(free, header, length);
      freeList := Remove(freeList, header, split);
      SplitApart(free, blocks, header, length);
      LinkedFrame(middle, mem, allocateList, blocks);
      RemovedMembers(split, header);
      ToAllocated(header, Removed(split, header));
      blocks := Inserted(blocks, header, length);
    }

    /** A block on neither list goes on the allocated list, its link empty. */
    method ToAllocated(header: nat, ghost free: Chain)
      requires header in mem && !In(blocks, header) && !In(free, header) && Ascends(blocks, 0)
      requires Linked(mem, allocateList, blocks) && Linked(mem, freeList, free)
      requires forall x: nat :: In(free, x) ==> !In(blocks, x)
      modifies this`mem, this`allocateList
      ensures Linked(mem, allocateList, Inserted(blocks, header, old(mem)[header].length))
      ensures Linked(mem, freeList, free)
    {
      ghost var before := mem;
      mem := mem[header := mem[header].(next := None)];
      LinkedFrame(before, mem, allocateList, blocks);
      ghost var middle := mem;
      allocateList := Insert(allocateList, header, blocks);
      LinkedFrame(before, mem, freeList, free);
    }

    /** Neither part of a free block is allocated. */
    lemma NotAllocated(header: nat, length: nat)
      requires Valid() && LengthOf(Gaps(blocks, 0, size), header).Some?
      requires LengthOf(Gaps(blocks, 0, size), header).value >= length + HEADER
      ensures !In(blocks, header) && !In(blocks, Past(header, length))
    {
      GapsDisjoint(blocks, 0, size, header);
      InLength(blocks, header);
      AllocateGaps(blocks, 0, size, header, length);
      TrimmedLength(Gaps(blocks, 0, size), header, length);
      GapsDisjoint(Inserted(blocks, header, length), 0, size, Past(header, length));
      InLength(Inserted(blocks, header, length), Past(header, length));
      Lists();
      InsertedMembers(blocks, header, length);
    }

    /** Allocate: the first block longer than needed; after collecting, the first that is long enough. */
    method Allocate(bytes: nat, used: seq<nat>) returns (r: Option<nat>)
      requires Valid()
      modifies this
      ensures Valid()
      ensures var length := Align(bytes);
              match FirstFit(Gaps(old(blocks), 0, size), length + HEADER, true)
              case Some(p) => r == Some(p + HEADER) && blocks == Inserted(old(blocks), p, length)
              case None =>
                var kept := Kept(old(blocks), used);
                if !Spaced(kept, 0, size) || FirstFit(Gaps(kept, 0, size), length + HEADER, false).None? then
                  r == None && blocks == kept
                else
                  var p := FirstFit(Gaps(kept, 0, size), length + HEADER, false).value;
                  r == Some(p + HEADER) && blocks == Inserted(kept, p, length)
    {
      var length := Align(bytes);
      var header := Search(length + HEADER, true);
      if header == None {
        Collect(used);
        header := Search(length + HEADER, false);
        if header == None {
          return None;
        }
        Lists();
        FirstFitLength(Gaps(blocks, 0, size), length + HEADER, false, 0);
      } else {
        Lists();
        FirstFitLength(Gaps(blocks, 0, size), length + HEADER, true, 0);
      }
      Take(header.value, length);
      return Some(header.value + HEADER);
    }

    /** A block on neither list goes on the free list. */
    method ToFree(header: nat, ghost free: Chain, ghost others: Chain)
      requires header in mem && !In(free, header) && HasAbove(free, header) && Ascends(free, 0)
      requires Linked(mem, freeList, free)
      requires Linked(mem, allocateList, others) && !In(others, header)
      requires forall x: nat :: In(free, x) ==> !In(others, x)
      modifies this`mem, this`freeList
      ensures Linked(mem, freeList, Merged(Inserted(free, header, old(mem)[header].length), header))
      ensures Linked(mem, allocateList, others)
    {
      ghost var before, n := mem, mem[header].length;
      freeList := Insert(freeList, header, free);
      InsertedMembers(free, header, n);
      LinkedFrame(before, mem, allocateList, others);
      ghost var middle := mem;
      Merge(freeList, header, Inserted(free, header, n));
      LinkedFrame(middle, mem, allocateList, others);
    }
  }

  /** Sizes are rounded up to a multiple of four. */
  function Align(bytes: nat): (n: nat)
    ensures bytes <= n < bytes + 4 && n % 4 == 0
  {
    (bytes + 3) / 4 * 4
  }

  lemma {:induction false} TrimmedLength(c: Chain, p: nat, size: nat)
    requires LengthOf(c, p).Some? && LengthOf(c, p).value >= size + HEADER
    ensures LengthOf(Trimmed(c, p, size), Past(p, size)).Some?
  {
    if c.start != p {
      TrimmedLength(c.rest, p, size);
    }
  }

  lemma SplitApart(free: Chain, blocks: Chain, p: nat, size: nat)
    requires !In(blocks, Past(p, size)) && forall x: nat :: In(free, x) ==> !In(blocks, x)
    ensures forall x: nat :: In(SplitAt(free, p, size), x) ==> !In(blocks, x)
  {
    forall x: nat | In(SplitAt(free, p, size), x)
      ensures !In(blocks, x)
    {
      SplitMembers(free, p, size, x);
    }
  }

  /** The blocks that some variable points to. */
  ghost function Kept(c: Chain, used: seq<nat>): (r: Chain) {
    match c
    case Nil => Nil
    case Link(s, n, rest) => if s + HEADER in used then Link(s, n, Kept(rest, used)) else Kept(rest, used)
  }

  /** The first block longer than `need`, or at least as long. */
  ghost function FirstFit(c: Chain, need: nat, strict: bool): (r: Option<nat>) {
    match c
    case Nil => None
    case Link(s, n, rest) => if n > need || (n == need && !strict) then Some(s) else FirstFit(rest, need, strict)
  }

  /** Exactly the blocks that some variable points to are kept, with their lengths. */
  lemma {:induction false} KeptLength(c: Chain, used: seq<nat>, x: nat)
    requires Single(c)
    ensures LengthOf(Kept(c, used), x) == if x + 8 in used then LengthOf(c, x) else None
  {
    if c.Link? {
      KeptLength(c.rest, used, x);
    }
  }

  /** Block `x` comes before block `y` on the list. */
  ghost predicate Before(c: Chain, x: nat, y: nat) {
    c.Link? && c.start != y && (c.start == x || Before(c.rest, x, y))
  }

  /** The search takes a block that is long enough, before which none is, and fails only if none is. */
  lemma {:induction false} FirstFitMeans(c: Chain, need: nat, strict: bool, x: nat)
    requires Single(c)
    ensures match FirstFit(c, need, strict)
            case None => LengthOf(c, x).Some? ==> !LongEnough(LengthOf(c, x).value, need, strict)
            case Some(p) =>
              && LengthOf(c, p).Some? && LongEnough(LengthOf(c, p).value, need, strict)
              && (Before(c, x, p) ==> LengthOf(c, x).Some? && !LongEnough(LengthOf(c, x).value, need, strict))
  {
    if c.Link? {
      FirstFitMeans(c.rest, need, strict, x);
    }
  }

  predicate LongEnough(length: nat, need: nat, strict: bool) {
    if strict then length > need else length >= need
  }

  function Head(c: Chain): (h: Option<nat>) {
    if c.Link? then Some(c.start) else None
  }

  lemma {:induction false} LinkedPart(mem: Memory, head: Option<nat>, passed: Passed, rest: Chain)
    requires Linked(mem, head, Whole(passed, rest))
    ensures Linked(mem, Head(rest), rest)
    decreases passed
  {
    if passed.Behind? {
      LinkedPart(mem, head, passed.before, Link(passed.start, passed.length, rest));
    }
  }

  lemma {:induction false} StackedPart(passed: Passed, rest: Chain)
    requires Stacked(Whole(passed, rest), 0)
    ensures Stacked(rest, 0)
    ensures rest.Link? ==> Below(passed, rest.start) && LengthOf(Whole(passed, rest), rest.start).Some?
    decreases passed
  {
    if passed.Behind? {
      StackedPart(passed.before, Link(passed.start, passed.length, rest));
      if rest.Link? {
        StackedBelow(passed, rest);
        WholeMembers(passed, rest, rest.start);
        InLength(Whole(passed, rest), rest.start);
      }
    }
  }

  lemma {:induction false} StackedBelow(passed: Passed, rest: Chain)
    requires Stacked(Whole(passed, rest), 0) && rest.Link?
    ensures Below(passed, rest.start)
    decreases passed
  {
    if passed.Behind? {
      StackedBelow(passed.before, Link(passed.start, passed.length, rest));
      StackedRest(passed.before, Link(passed.start, passed.length, rest));
      BelowMore(passed.before, passed.start, rest.start);
    }
  }

  lemma {:induction false} StackedRest(passed: Passed, rest: Chain)
    requires Stacked(Whole(passed, rest), 0)
    ensures Stacked(rest, 0)
    decreases passed
  {
    if passed.Behind? {
      StackedRest(passed.before, Link(passed.start, passed.length, rest));
    }
  }

  lemma {:induction false} BelowMore(passed: Passed, x: nat, y: nat)
    requires Below(passed, x) && x <= y
    ensures Below(passed, y)
  {
    if passed.Behind? {
      BelowMore(passed.before, x, y);
    }
  }

  lemma {:induction false} FirstFitLength(c: Chain, need: nat, strict: bool, low: nat)
    requires Ascends(c, low)
    ensures match FirstFit(c, need, strict)
            case None => true
            case Some(p) => LengthOf(c, p).Some? && LengthOf(c, p).value >= need && low <= p
  {
    if c.Link? {
      FirstFitLength(c.rest, need, strict, c.start + 1);
    }
  }

  lemma {:induction false} RemovedMembers(c: Chain, x: nat)
    requires Ascends(c, 0)
    ensures forall y: nat :: In(Removed(c, x), y) <==> In(c, y) && y != x
    decreases c
  {
    if c.Link? {
      NotInRest(c);
      AscendsLower(c.rest, c.start + 1);
      RemovedMembers(c.rest, x);
    }
  }

  lemma AscendsLower(c: Chain, low: nat)
    requires Ascends(c, low)
    ensures Ascends(c, 0)
  {
  }

  lemma {:induction false} InsertedMembers(c: Chain, x: nat, n: nat)
    requires Ascends(c, 0) && !In(c, x)
    ensures forall y: nat :: In(Inserted(c, x, n), y) <==> In(c, y) || y == x
    ensures Ascends(Inserted(c, x, n), 0)
    decreases c
  {
    InsertedAscends(c, x, n, 0);
    if c.Link? && c.start <= x {
      AscendsLower(c.rest, c.start + 1);
      InsertedMembers(c.rest, x, n);
    }
  }

  lemma {:induction false} InsertedAscends(c: Chain, x: nat, n: nat, low: nat)
    requires Ascends(c, low) && !In(c, x) && low <= x
    ensures Ascends(Inserted(c, x, n), low)
    decreases c
  {
    if c.Link? && c.start <= x {
      InsertedAscends(c.rest, x, n, c.start + 1);
    }
  }

  /** The block at `node` was changed to go on with `tail`, a later part of its list. */
  lemma Relinked(mem: Memory, after: Memory, head: Option<nat>, passed: Passed, node: nat, rest: Chain, tail: Chain)
    requires Leads(mem, head, passed, Some(node), node) && node in after
    requires forall x: nat :: x != node ==> Same(mem, after, x)
    requires Ascends(rest, node + 1) && Linked(mem, after[node].next, tail)
    requires tail == rest || (rest.Link? && (tail == rest.rest || (rest.rest.Link? && tail == rest.rest.rest)))
    ensures Linked(after, head, Whole(passed, Link(node, after[node].length, tail)))
  {
    forall x: nat | In(tail, x)
      ensures Same(mem, after, x)
    {
      AscendsAbove(rest, node + 1, x);
    }
    LinkedFrame(mem, after, after[node].next, tail);
    LeadsFrame(mem, after, head, passed, Some(node), node);
    Joined(after, head, passed, Some(node), node, Link(node, after[node].length, tail));
  }

  lemma NotInRest(c: Chain)
    requires c.Link? && Ascends(c, 0)
    ensures forall x: nat :: In(c.rest, x) ==> c.start < x
  {
    forall x: nat | In(c.rest, x)
      ensures c.start < x
    {
      AscendsAbove(c.rest, c.start + 1, x);
    }
  }
}
