/**
 The headers of a memory heap. Every header is a member of a ring in address order, and
 the header of a free block also of a ring of free blocks. Positions count words.
 */
module MemRing {

  const HEADER: nat := 6
  const MIN_SIZE: nat := 3

  datatype Item = Item(used: bool, next: nat, prev: nat, nextFree: nat, prevFree: nat)

  /** Headers by position. */
  type Items = map<nat, Item>

  function Size(items: Items, p: nat): (n: int)
    requires p in items
  {
    items[p].next - p - HEADER
  }

  /** The header of the free ring itself lies outside the pool. */
  function Anchor(end: nat): (p: nat) {
    end + 1
  }

  // ----- the ring in address order -----

  /** Block `p` ends at the header that knows it as its predecessor. */
  ghost predicate Follows(items: Items, end: nat, p: nat) {
    p in items && p < end ==>
      p + HEADER <= items[p].next <= end && items[p].next in items && items[items[p].next].prev == p
  }

  /** No header lies inside block `p`. */
  ghost predicate Clear(items: Items, end: nat, p: nat, q: nat) {
    p in items && q in items && p < q <= end ==> items[p].next <= q
  }

  /** The blocks tile the pool up to the tail, which is used and closes the ring. */
  ghost predicate Tiled(items: Items, end: nat) {
    && 0 < end && 0 in items && end in items && Anchor(end) in items
    && (forall p :: p in items ==> p <= Anchor(end))
    && items[end].used && items[end].next == 0 && items[0].prev == end
    && (forall p :: Follows(items, end, p))
    && (forall p, q :: Clear(items, end, p, q))
  }

  /** Block `p` and the next one are not both free. */
  ghost predicate Apart(items: Items, end: nat, p: nat) {
    p in items && p < end && items[p].next in items ==> items[p].used || items[items[p].next].used
  }

  ghost predicate Coalesced(items: Items, end: nat) {
    forall p :: Apart(items, end, p)
  }

  /** Cut block `p` in two; the new header belongs to a free block. */
  function Cut(items: Items, p: nat, cut: nat): (r: Items)
    requires p in items && items[p].next in items
  {
    var next := items[p].next;
    var new' := items[cut := Item(false, next, p, 0, 0)];
    var linked := new'[next := new'[next].(prev := cut)];
    linked[p := linked[p].(next := cut)]
  }

  /** Drop the header behind block `a`. */
  function Joined(items: Items, a: nat): (r: Items)
    requires a in items && items[a].next in items && items[items[a].next].next in items
  {
    var b := items[a].next;
    var linked := items[items[b].next := items[items[b].next].(prev := a)];
    linked[a := linked[a].(next := items[b].next)] - {b}
  }

  function Flagged(items: Items, p: nat, used: bool): (r: Items)
    requires p in items
  {
    items[p := items[p].(used := used)]
  }

  lemma FlaggedTiled(items: Items, end: nat, p: nat, used: bool)
    requires Tiled(items, end) && p in items && p < end
    ensures Tiled(Flagged(items, p, used), end)
  {
    var r := Flagged(items, p, used);
    forall q
      ensures Follows(r, end, q)
    {
      assert Follows(items, end, q);
    }
    forall q, x
      ensures Clear(r, end, q, x)
    {
      assert Clear(items, end, q, x);
    }
  }

  lemma CutTiled(items: Items, end: nat, p: nat, cut: nat)
    requires Tiled(items, end) && p in items && p < end
    requires p + HEADER <= cut && cut + HEADER <= items[p].next
    ensures cut !in items && items[p].next in items && Tiled(Cut(items, p, cut), end)
  {
    assert Follows(items, end, p);
    assert Clear(items, end, p, cut);
    var r := Cut(items, p, cut);
    forall q
      ensures Follows(r, end, q)
    {
      assert Follows(items, end, q);
    }
    forall q, x
      ensures Clear(r, end, q, x)
    {
      assert Clear(items, end, q, x) && Clear(items, end, p, x) && Clear(items, end, q, p) && Clear(items, end, p, q);
    }
  }

  lemma JoinedTiled(items: Items, end: nat, a: nat)
    requires Tiled(items, end) && a in items && a < end && items[a].next < end
    ensures items[a].next in items && items[items[a].next].next in items
    ensures Tiled(Joined(items, a), end)
  {
    var b := items[a].next;
    assert Follows(items, end, a) && Follows(items, end, b);
    var r := Joined(items, a);
    forall q
      ensures Follows(r, end, q)
    {
      assert Follows(items, end, q);
    }
    forall q, x
      ensures Clear(r, end, q, x)
    {
      assert Clear(items, end, q, x) && Clear(items, end, b, x);
    }
  }

  // ----- the ring of free blocks -----

  /** Free blocks in ring order. */
  datatype Ring = Stop | Node(at: nat, rest: Ring)

  ghost predicate In(x: nat, ring: Ring) {
    ring.Node? && (ring.at == x || In(x, ring.rest))
  }

  ghost predicate Distinct(ring: Ring) {
    ring.Node? ==> !In(ring.at, ring.rest) && Distinct(ring.rest)
  }

  ghost function Without(ring: Ring, x: nat): (r: Ring) {
    match ring
    case Stop => Stop
    case Node(at, rest) => if at == x then rest else Node(at, Without(rest, x))
  }

  /** The links lead from `from` through the ring to `to`, forwards and backwards. */
  ghost predicate Linked(items: Items, from: nat, ring: Ring, to: nat)
    decreases ring
  {
    && from in items && to in items
    && match ring
       case Stop => items[from].nextFree == to && items[to].prevFree == from
       case Node(at, rest) =>
         at in items && items[from].nextFree == at && items[at].prevFree == from && Linked(items, at, rest, to)
  }

  /** The free-ring links of a header are the same. */
  ghost predicate SameLinks(items: Items, after: Items, x: nat) {
    x in items ==> x in after && after[x].nextFree == items[x].nextFree && after[x].prevFree == items[x].prevFree
  }

  lemma {:induction false} LinkedSame(items: Items, after: Items, from: nat, ring: Ring, to: nat)
    requires Linked(items, from, ring, to)
    requires forall x :: x == from || x == to || In(x, ring) ==> SameLinks(items, after, x)
    ensures Linked(after, from, ring, to)
    decreases ring
  {
    assert SameLinks(items, after, from) && SameLinks(items, after, to);
    if ring.Node? {
      assert SameLinks(items, after, ring.at);
      LinkedSame(items, after, ring.at, ring.rest, to);
    }
  }

  /** All links are the same but for the link on from `x` and the link back from `y`. */
  ghost predicate LinksBut(items: Items, after: Items, x: nat, y: nat) {
    forall z :: z in items ==>
                  && z in after
                  && (z != x ==> after[z].nextFree == items[z].nextFree)
                  && (z != y ==> after[z].prevFree == items[z].prevFree)
  }

  lemma {:induction false} LinkedInner(items: Items, after: Items, from: nat, ring: Ring, to: nat, x: nat, y: nat)
    requires Linked(items, from, ring, to) && LinksBut(items, after, x, y)
    requires x != from && !In(x, ring) && y != to && !In(y, ring)
    ensures Linked(after, from, ring, to)
    decreases ring
  {
    if ring.Node? {
      LinkedInner(items, after, ring.at, ring.rest, to, x, y);
    }
  }

  /** Take `x` out of the ring. */
  function Unlinked(items: Items, x: nat): (r: Items)
    requires x in items && items[x].nextFree in items && items[x].prevFree in items
  {
    var a, b := items[x].prevFree, items[x].nextFree;
    var back := items[b := items[b].(prevFree := a)];
    back[a := back[a].(nextFree := b)]
  }

  lemma {:induction false} Neighbours(items: Items, from: nat, ring: Ring, to: nat, x: nat)
    requires Linked(items, from, ring, to) && In(x, ring)
    ensures x in items && items[x].nextFree in items && items[x].prevFree in items
    ensures In(items[x].nextFree, ring) || items[x].nextFree == to
    ensures In(x, ring) && ring.at != x && Distinct(ring) ==> In(items[x].prevFree, ring)
    ensures ring.at == x && Distinct(ring) ==> items[x].prevFree == from
    decreases ring
  {
    if ring.at != x {
      Neighbours(items, ring.at, ring.rest, to, x);
    }
  }

  lemma {:induction false} UnlinkedLinked(items: Items, from: nat, ring: Ring, to: nat, x: nat)
    requires Linked(items, from, ring, to) && In(x, ring) && Distinct(ring) && !In(from, ring) && !In(to, ring)
    ensures x in items && items[x].nextFree in items && items[x].prevFree in items
    ensures Linked(Unlinked(items, x), from, Without(ring, x), to)
    decreases ring
  {
    Neighbours(items, from, ring, to, x);
    var after, rest := Unlinked(items, x), ring.rest;
    if ring.at == x {
      if rest.Node? {
        LinkedInner(items, after, rest.at, rest.rest, to, from, rest.at);
      }
    } else {
      Neighbours(items, ring.at, rest, to, x);
      UnlinkedLinked(items, ring.at, rest, to, x);
    }
  }

  /** Put `x` at the front of the ring. */
  function Pushed(items: Items, anchor: nat, x: nat): (r: Items)
    requires anchor in items && items[anchor].nextFree in items && x in items
  {
    var first := items[anchor].nextFree;
    var new' := items[x := items[x].(nextFree := first, prevFree := anchor)];
    var back := new'[first := new'[first].(prevFree := x)];
    back[anchor := back[anchor].(nextFree := x)]
  }

  lemma PushedLinked(items: Items, anchor: nat, ring: Ring, x: nat)
    requires Linked(items, anchor, ring, anchor) && x in items && x != anchor && !In(x, ring) && Distinct(ring)
    requires !In(anchor, ring)
    ensures items[anchor].nextFree in items
    ensures Linked(Pushed(items, anchor, x), anchor, Node(x, ring), anchor)
  {
    var after := Pushed(items, anchor, x);
    if ring.Node? {
      var mid := items[x := items[x].(nextFree := ring.at, prevFree := anchor)];
      LinkedSame(items, mid, ring.at, ring.rest, anchor);
      LinkedInner(mid, after, ring.at, ring.rest, anchor, anchor, ring.at);
    }
  }

  lemma {:induction false} WithoutMembers(ring: Ring, x: nat)
    requires Distinct(ring)
    ensures Distinct(Without(ring, x))
    ensures forall z :: In(z, Without(ring, x)) <==> In(z, ring) && z != x
  {
    if ring.Node? {
      WithoutMembers(ring.rest, x);
    }
  }

  // ----- the data size of the free blocks -----

  ghost function Sum(items: Items, ring: Ring): (n: int) {
    match ring
    case Stop => 0
    case Node(at, rest) => (if at in items then Size(items, at) else 0) + Sum(items, rest)
  }

  lemma {:induction false} SumSame(items: Items, after: Items, ring: Ring)
    requires forall x :: In(x, ring) ==> (x in items <==> x in after) && (x in items ==> after[x].next == items[x].next)
    ensures Sum(after, ring) == Sum(items, ring)
  {
    if ring.Node? {
      SumSame(items, after, ring.rest);
    }
  }

  lemma {:induction false} SumWithout(items: Items, ring: Ring, x: nat)
    requires In(x, ring) && x in items
    ensures Sum(items, Without(ring, x)) == Sum(items, ring) - Size(items, x)
  {
    if ring.at != x {
      SumWithout(items, ring.rest, x);
    }
  }

  /** One block of the ring changes its size. */
  lemma {:induction false} SumResized(items: Items, after: Items, ring: Ring, x: nat)
    requires In(x, ring) && Distinct(ring) && x in items && x in after
    requires forall z :: In(z, ring) && z != x ==>
               (z in items <==> z in after) && (z in items ==> after[z].next == items[z].next)
    ensures Sum(after, ring) == Sum(items, ring) - Size(items, x) + Size(after, x)
  {
    if ring.at == x {
      SumSame(items, after, ring.rest);
    } else {
      SumResized(items, after, ring.rest, x);
    }
  }
}
