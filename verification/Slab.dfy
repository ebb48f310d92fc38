/** The slab allocator: zones of equal chunks on top of the page allocator. */
module Slab {
  import opened Options
  import opened Lists
  import opened SlabSizes
  import PageList

  // ----- one zone -----

  /** Chunks above `last` were never used; `free` are those given back, the latest first. */
  datatype Zone = Zone(index: nat, size: nat, count: nat, left: nat, last: nat, free: seq<nat>)

  /** Allocated, given back and never used chunks are disjoint and all there are; `left` counts the last two. */
  ghost predicate Partition(z: Zone, live: set<nat>) {
    && z.last < z.count && Nodup(z.free)
    && (forall i :: i in z.free ==> i <= z.last && i !in live)
    && (forall i :: i in live ==> i <= z.last)
    && (forall i :: 0 <= i <= z.last ==> i in z.free || i in live)
    && z.left == |z.free| + z.count - 1 - z.last
  }

  /** The next chunk: one never used if there is one, else the one given back last. */
  function Next(z: Zone): (i: nat) {
    if z.last + 1 != z.count || z.free == [] then z.last + 1 else z.free[0]
  }

  function Took(z: Zone): (r: Zone) {
    if z.last + 1 != z.count || z.free == [] then z.(left := if z.left > 0 then z.left - 1 else 0, last := z.last + 1)
    else z.(left := if z.left > 0 then z.left - 1 else 0, free := z.free[1..])
  }

  function Gave(z: Zone, i: nat): (r: Zone) {
    z.(left := z.left + 1, free := [i] + z.free)
  }

  lemma TookPartition(z: Zone, live: set<nat>)
    requires Partition(z, live) && z.left > 0
    ensures Next(z) < z.count && Next(z) !in live && Partition(Took(z), live + {Next(z)})
  {
    if z.last + 1 == z.count {
      TookFreed(z, live);
    } else {
      var r, more := Took(z), live + {z.last + 1};
      forall i | 0 <= i <= r.last
        ensures i in r.free || i in more
      {
        assert i <= z.last ==> i in z.free || i in live;
      }
    }
  }

  lemma TookFreed(z: Zone, live: set<nat>)
    requires Partition(z, live) && z.left > 0 && z.last + 1 == z.count
    ensures z.free != [] && Next(z) == z.free[0] && Partition(Took(z), live + {z.free[0]})
  {
    var r, first := Took(z), z.free[0];
    NodupTail(z.free);
    forall i | i in r.free
      ensures i <= r.last && i !in live + {first}
    {
      assert i in z.free;
    }
    forall i | i in live + {first}
      ensures i <= r.last
    {
      assert i in live || i in z.free;
    }
    forall i | 0 <= i <= r.last
      ensures i in r.free || i in live + {first}
    {
      assert i in z.free || i in live;
    }
  }

  lemma GavePartition(z: Zone, live: set<nat>, i: nat)
    requires Partition(z, live) && i in live
    ensures Partition(Gave(z, i), live - {i}) && z.left + 1 <= z.count
    ensures z.left + 1 == z.count <==> live == {i}
  {
    var r := Gave(z, i);
    assert forall x :: x in r.free <==> x == i || x in z.free;
    CountLive(z, live);
    CountLive(r, live - {i});
  }

  /** Chunks that were never used go first, in their order; then the chunk given back last is the next one. */
  lemma TakeUndoesGive(z: Zone, live: set<nat>, i: nat)
    requires Partition(z, live) && i in live
    ensures z.last + 1 < z.count ==> Next(Gave(z, i)) == z.last + 1
    ensures z.last + 1 == z.count ==> Next(Gave(z, i)) == i && Took(Gave(z, i)) == z
  {
    assert ([i] + z.free)[1..] == z.free;
  }

  /** The live chunks are those not counted. */
  lemma CountLive(z: Zone, live: set<nat>)
    requires Partition(z, live)
    ensures |live| == z.count - z.left
  {
    var freed := set i | i in z.free;
    assert Below(z.last + 1) == freed + live;
    CountDistinct(z.free, freed);
  }

  lemma {:induction false} CountDistinct(list: seq<nat>, s: set<nat>)
    requires Nodup(list) && s == set i | i in list
    ensures |s| == |list|
  {
    if list != [] {
      NodupTail(list);
      CountDistinct(list[1..], s - {list[0]});
    }
  }

  ghost function Below(n: nat): (s: set<nat>)
    ensures |s| == n && forall i :: i in s <==> 0 <= i < n
  {
    if n == 0 then {} else Below(n - 1) + {n - 1}
  }

  // ----- the allocator in place -----

  datatype Usage = Unused | Small(offset: nat) | Large(count: nat)

  /** What an allocation returns: a chunk of a zone, or whole pages. */
  datatype Memory = Chunk(zone: nat, number: nat) | Pages(start: nat)

  class Slab {
    const pages: nat
    const zonePages: nat
    const zoneLimit: nat
    var heap: PageList.Heap
    var zones: map<nat, Zone>
    var lists: seq<seq<nat>>
    var spare: seq<nat>
    var usage: seq<Usage>
    ghost var live: map<nat, set<nat>>
    ghost var large: map<nat, nat>

    /** All pages are free but those of the table of descriptors, which are allocated first. */
    constructor (pages: nat, zonePages: nat, zoneLimit: nat)
      requires pages > 0 && zonePages > 0 && (zoneLimit == 8192 || zoneLimit == 16384)
      requires 4 * zoneLimit <= zonePages * PAGE
      ensures Valid() && live == map[] && large == map[] && zones == map[] && spare == []
    {
      this.pages, this.zonePages, this.zoneLimit := pages, zonePages, zoneLimit;
      var all := PageList.Heap(PageList.Run(0, pages, PageList.Nil), {});
      var table := (pages * 4 + PAGE - 1) / PAGE;
      WholeHeap(pages);
      PageList.AllocKeeps(all, table, pages);
      heap := PageList.Step(all, PageList.PageAlloc(table));
      zones, live, large, spare := map[], map[], map[], [];
      lists := seq(NZONES, _ => []);
      usage := seq(pages, _ => Unused);
    }

    ghost predicate Limits() {
      zonePages > 0 && (zoneLimit == 8192 || zoneLimit == 16384) && 4 * zoneLimit <= zonePages * PAGE
    }

    /** The pages of a zone are held as one range and their descriptors lead back to its first page. */
    ghost predicate Owned(z: nat)
      reads this`heap, this`usage
    {
      && (z, zonePages) in heap.held
      && forall off :: 0 <= off < zonePages && z + off < |usage| ==> usage[z + off] == Small(off)
    }

    /** A zone owns its pages, has the chunk size of its list, and its chunks are accounted for. */
    ghost predicate ZoneOk(z: nat)
      reads this`heap, this`usage, this`zones, this`live
    {
      z in zones ==>
        && Owned(z) && z in live && Partition(zones[z], live[z])
        && zones[z].index < NZONES && zones[z].size == ChunkOf(zones[z].index) && zones[z].size >= 8
        && 4 * zones[z].size <= zonePages * PAGE
        && zones[z].count == ChunkCount(zonePages * PAGE, zones[z].size)
    }

    /** A zone is on its list exactly while it has chunks left. */
    ghost predicate ListedOk(z: nat)
      reads this`zones, this`lists
    {
      z in zones && zones[z].index < |lists| ==> (z in lists[zones[z].index] <==> zones[z].left > 0)
    }

    ghost predicate ListOk(k: nat)
      reads this`zones, this`lists
    {
      k < |lists| ==> Nodup(lists[k]) && forall z :: z in lists[k] ==> z in zones && zones[z].index == k
    }

    ghost predicate SparesOk()
      reads this`heap, this`usage, this`zones, this`spare
    {
      Nodup(spare) && forall z :: z in spare ==> z !in zones && Owned(z)
    }

    ghost predicate LargeOk()
      reads this`heap, this`usage, this`large
    {
      forall p :: p in large ==> (p, large[p]) in heap.held && p < |usage| && usage[p] == Large(large[p])
    }

    ghost predicate Valid()
      reads this
    {
      && Limits() && PageList.Valid(heap, pages) && |usage| == pages && |lists| == NZONES
      && live.Keys == zones.Keys
      && (forall z: nat :: ZoneOk(z)) && (forall z: nat :: ListedOk(z)) && (forall k: nat :: ListOk(k))
      && SparesOk() && LargeOk()
    }

    /** A held range lies inside the heap. */
    lemma HeldInside(at: nat, n: nat)
      requires PageList.Valid(heap, pages) && (at, n) in heap.held
      ensures at + n <= pages && n > 0
    {
      assert PageList.Within(at + n - 1, at, n);
      assert PageList.Held(heap, at + n - 1);
    }

    ghost predicate LiveChunk(z: nat, i: nat)
      reads this`zones, this`live
    {
      z in zones && z in live && i in live[z] && zones[z].size >= 8
    }

    /** The page an allocated chunk starts in is described as a page of its zone. */
    lemma ChunkPage(address: nat, z: nat, i: nat)
      requires Valid() && LiveChunk(z, i) && address == z * PAGE + Place(zones[z].size, i)
      ensures address / PAGE < |usage| && z <= address / PAGE && usage[address / PAGE] == Small(address / PAGE - z)
    {
      var page := address / PAGE;
      assert ZoneOk(z);
      HeldInside(z, zonePages);
      SeveralChunks(zonePages * PAGE, zones[z].size);
      ChunkInside(zonePages * PAGE, zones[z].size, i);
      PageOf(z, Place(zones[z].size, i), zonePages);
      assert usage[z + (page - z)] == Small(page - z);
    }

    /** The descriptor of the page an allocated chunk starts in leads to its zone. */
    method Owner(address: nat, ghost z: nat, ghost i: nat) returns (zone: nat)
      requires Valid() && LiveChunk(z, i) && address == z * PAGE + Place(zones[z].size, i)
      ensures zone == z
    {
      ChunkPage(address, z, i);
      var page := address / PAGE;
      zone := page - usage[page].offset;
    }

    /** Allocate from the first zone of a list. */
    method TakeChunk(k: nat) returns (z: nat, i: nat)
      requires Valid() && k < |lists| && lists[k] != []
      modifies this`zones, this`lists, this`live
      ensures Valid()
      ensures z == old(lists)[k][0] && z in old(zones) && z in old(live) && i == Next(old(zones)[z])
      ensures i !in old(live)[z] && live == old(live)[z := old(live)[z] + {i}]
      ensures zones == old(zones)[z := Took(old(zones)[z])]
      ensures lists == if old(zones)[z].left == 1 then old(lists)[k := old(lists)[k][1..]] else old(lists)
    {
      z := lists[k][0];
      assert z in lists[k] && ListOk(k) && ZoneOk(z) && ListedOk(z);
      if zones[z].left == 1 {
        i := TakeLast(k, z);
      } else {
        i := TakeOne(z);
      }
    }

    /** Take a chunk of a zone that has more. */
    method TakeOne(z: nat) returns (i: nat)
      requires Valid() && z in zones && zones[z].left > 1
      modifies this`zones, this`live
      ensures Valid() && z in old(live) && i == Next(old(zones)[z]) && i !in old(live)[z]
      ensures live == old(live)[z := old(live)[z] + {i}] && zones == old(zones)[z := Took(old(zones)[z])]
    {
      assert ZoneOk(z) && ListedOk(z);
      TookPartition(zones[z], live[z]);
      i := Next(zones[z]);
      zones := zones[z := Took(zones[z])];
      live := live[z := live[z] + {i}];
      forall x: nat
        ensures ZoneOk(x) && ListedOk(x)
      {
        assert old(ZoneOk(x)) && old(ListedOk(x));
      }
      forall l: nat
        ensures ListOk(l)
      {
        assert old(ListOk(l));
      }
    }

    /** Take the last chunk of the first zone of a list, which leaves the list. */
    method TakeLast(k: nat, z: nat) returns (i: nat)
      requires Valid() && k < |lists| && lists[k] != [] && lists[k][0] == z && z in zones && zones[z].left == 1
      modifies this`zones, this`lists, this`live
      ensures Valid() && z in old(live) && i == Next(old(zones)[z]) && i !in old(live)[z]
      ensures live == old(live)[z := old(live)[z] + {i}] && zones == old(zones)[z := Took(old(zones)[z])]
      ensures lists == old(lists)[k := old(lists)[k][1..]]
    {
      assert z in lists[k] && ListOk(k) && ZoneOk(z) && ListedOk(z);
      NodupTail(lists[k]);
      TookPartition(zones[z], live[z]);
      lists := lists[k := lists[k][1..]];
      i := Next(zones[z]);
      zones := zones[z := Took(zones[z])];
      live := live[z := live[z] + {i}];
      forall x: nat
        ensures ZoneOk(x)
      {
        assert old(ZoneOk(x));
      }
      forall x: nat
        ensures ListedOk(x)
      {
        assert old(ListedOk(x));
      }
      forall l: nat
        ensures ListOk(l)
      {
        assert old(ListOk(l));
      }
    }

    /** Describe the pages of a new zone. */
    method Describe(z: nat)
      requires z + zonePages <= |usage|
      modifies this`usage
      ensures |usage| == |old(usage)|
      ensures forall off :: 0 <= off < zonePages ==> usage[z + off] == Small(off)
      ensures forall p :: 0 <= p < |usage| && !(z <= p < z + zonePages) ==> usage[p] == old(usage)[p]
    {
      var off := 0;
      while off < zonePages
        invariant 0 <= off <= zonePages && |usage| == |old(usage)|
        invariant forall k :: 0 <= k < off ==> usage[z + k] == Small(k)
        invariant forall p :: 0 <= p < |usage| && !(z <= p < z + off) ==> usage[p] == old(usage)[p]
      {
        usage := usage[z + off := Small(off)];
        off := off + 1;
      }
    }

    /** Get the pages of a new zone from the page allocator; nobody held them. */
    method TakePages() returns (r: Option<nat>)
      requires Valid()
      modifies this`heap, this`usage
      ensures Valid()
      ensures r.None? ==> PageList.Alloc(old(heap).list, zonePages).0 == None
      ensures r.None? ==> heap == old(heap) && usage == old(usage)
      ensures r.Some? ==> Owned(r.value) && r.value !in zones && r.value !in spare
    {
      var got := PageList.Alloc(heap.list, zonePages).0;
      if got.None? {
        return None;
      }
      var z := got.value;
      PageList.AllocKeeps(heap, zonePages, pages);
      NewRange(heap, zonePages, pages);
      heap := PageList.Step(heap, PageList.PageAlloc(zonePages));
      HeldInside(z, zonePages);
      Describe(z);
      forall x: nat
        ensures ZoneOk(x)
      {
        assert old(ZoneOk(x));
        if x in zones {
          Elsewhere(x, z, old(usage));
        }
      }
      forall x | x in spare
        ensures Owned(x)
      {
        Elsewhere(x, z, old(usage));
      }
      forall p | p in large
        ensures usage[p] == Large(large[p])
      {
        assert PageList.Apart((p, large[p]), (z, zonePages)) && large[p] > 0;
      }
      forall k: nat
        ensures ListOk(k)
      {
        assert old(ListOk(k));
      }
      assert old(ZoneOk(z));
      return Some(z);
    }

    /** Describing the pages of zone `z` leaves those of another zone alone. */
    lemma Elsewhere(x: nat, z: nat, before: seq<Usage>)
      requires PageList.Valid(heap, pages) && |usage| == |before| == pages
      requires (x, zonePages) in heap.held && (z, zonePages) in heap.held && x != z
      requires forall off :: 0 <= off < zonePages && x + off < |before| ==> before[x + off] == Small(off)
      requires forall p :: 0 <= p < |usage| && !(z <= p < z + zonePages) ==> usage[p] == before[p]
      ensures Owned(x)
    {
      assert PageList.Apart((x, zonePages), (z, zonePages));
      forall off | 0 <= off < zonePages && x + off < |usage|
        ensures usage[x + off] == Small(off)
      {
        assert before[x + off] == Small(off);
      }
    }

    /** Set up zone `z` for chunks of list `k`; the first chunk is allocated. */
    method OpenZone(z: nat, k: nat)
      requires Valid() && Owned(z) && z !in zones && z !in spare && k < NZONES
      requires ChunkOf(k) >= 8 && 4 * ChunkOf(k) <= zonePages * PAGE
      modifies this`zones, this`lists, this`live
      ensures Valid()
      ensures z in zones && zones == old(zones)[z := zones[z]] && zones[z].index == k && zones[z].size == ChunkOf(k)
      ensures live == old(live)[z := {0}] && lists == old(lists)[k := [z] + old(lists)[k]]
    {
      var size := ChunkOf(k);
      SeveralChunks(zonePages * PAGE, size);
      var count := ChunkCount(zonePages * PAGE, size);
      assert ListOk(k);
      zones := zones[z := Zone(k, size, count, count - 1, 0, [])];
      live := live[z := {0}];
      lists := lists[k := [z] + lists[k]];
      forall x: nat
        ensures ZoneOk(x)
      {
        assert old(ZoneOk(x));
      }
      forall x: nat
        ensures ListedOk(x)
      {
        assert old(ListedOk(x));
      }
      forall l: nat
        ensures ListOk(l)
      {
        assert old(ListOk(l));
      }
    }

    /** Allocate a chunk of list `k`: from its first zone, from a spare zone, or from a new one. */
    method AllocateChunk(k: nat) returns (r: Option<Memory>)
      requires Valid() && k < NZONES && ChunkOf(k) >= 8 && 4 * ChunkOf(k) <= zonePages * PAGE
      modifies this`heap, this`zones, this`lists, this`spare, this`usage, this`live
      ensures Valid()
      ensures r.None? ==> old(lists)[k] == [] && old(spare) == [] && PageList.Alloc(old(heap).list, zonePages).0 == None
      ensures r.None? ==> zones == old(zones) && live == old(live) && heap == old(heap)
      ensures r.Some? ==> && r.value.Chunk? && LiveChunk(r.value.zone, r.value.number) && zones[r.value.zone].index == k
                          && zones[r.value.zone].size == ChunkOf(k)
                          && Grown(old(live), live, r.value.zone, r.value.number)
    {
      if lists[k] != [] {
        assert ListOk(k) && lists[k][0] in lists[k] && ZoneOk(lists[k][0]) && ListedOk(lists[k][0]);
        var z, i := TakeChunk(k);
        return Some(Chunk(z, i));
      }
      var z: nat;
      if spare != [] {
        z := DropSpare();
      } else {
        var got := TakePages();
        if got.None? {
          return None;
        }
        z := got.value;
      }
      OpenZone(z, k);
      return Some(Chunk(z, 0));
    }

    method DropSpare() returns (z: nat)
      requires Valid() && spare != []
      modifies this`spare
      ensures Valid() && z == old(spare)[0] && spare == old(spare)[1..] && z !in spare && z !in zones && Owned(z)
    {
      z := spare[0];
      NodupTail(spare);
      spare := spare[1..];
    }

    /** Give a chunk back to its zone, which goes to the front of its list if it had nothing left. */
    method GiveChunk(z: nat, i: nat)
      requires Valid() && LiveChunk(z, i)
      modifies this`zones, this`lists, this`live
      ensures Valid()
      ensures z in old(zones) && zones == old(zones)[z := Gave(old(zones)[z], i)]
      ensures z in old(live) && live == old(live)[z := old(live)[z] - {i}]
      ensures zones[z].left > 0 && zones[z].index < |lists| && z in lists[zones[z].index]
      ensures zones[z].left == zones[z].count <==> live[z] == {}
      ensures var k := zones[z].index;
              && k == old(zones)[z].index && k < |old(lists)|
              && lists == if old(zones)[z].left == 0 then old(lists)[k := [z] + old(lists)[k]] else old(lists)
    {
      assert ZoneOk(z) && ListedOk(z);
      var zone := zones[z];
      var k := zone.index;
      assert ListOk(k);
      GavePartition(zone, live[z], i);
      if zone.left == 0 {
        lists := lists[k := [z] + lists[k]];
      }
      zones := zones[z := Gave(zone, i)];
      live := live[z := live[z] - {i}];
      forall x: nat
        ensures ZoneOk(x)
      {
        assert old(ZoneOk(x));
      }
      forall x: nat
        ensures ListedOk(x)
      {
        assert old(ListedOk(x));
      }
      forall l: nat
        ensures ListOk(l)
      {
        assert old(ListOk(l));
      }
    }

    /** A zone without live chunks leaves its list and becomes a spare zone. */
    method Retire(z: nat)
      requires Valid() && z in zones && live[z] == {} && zones[z].index < |lists| && z in lists[zones[z].index]
      modifies this`zones, this`lists, this`spare, this`live
      ensures Valid() && zones == old(zones) - {z} && live == old(live) - {z} && spare == [z] + old(spare)
    {
      var k := zones[z].index;
      assert ZoneOk(z) && ListedOk(z) && ListOk(k);
      WithoutMembers(lists[k], z);
      lists := lists[k := Without(lists[k], z)];
      zones := zones - {z};
      live := live - {z};
      spare := [z] + spare;
      forall x: nat
        ensures ZoneOk(x)
      {
        assert old(ZoneOk(x));
      }
      forall x: nat
        ensures ListedOk(x)
      {
        assert old(ListedOk(x));
      }
      forall l: nat
        ensures ListOk(l)
      {
        assert old(ListOk(l));
      }
    }

    /** Give the pages of the first spare zone back. */
    method ReleaseSpare()
      requires Valid() && spare != []
      modifies this`heap, this`spare, this`usage
      ensures Valid() && spare == old(spare)[1..]
      ensures heap == PageList.Step(old(heap), PageList.PageFree(old(spare)[0], zonePages))
      ensures forall p :: old(spare)[0] <= p < old(spare)[0] + zonePages ==> p < |usage| && usage[p] == Unused
    {
      var z := DropSpare();
      HeldInside(z, zonePages);
      PageList.FreeKeeps(heap, z, zonePages, pages);
      Clear(z);
      heap := PageList.Step(heap, PageList.PageFree(z, zonePages));
      forall x: nat
        ensures ZoneOk(x)
      {
        assert old(ZoneOk(x));
        if x in zones {
          Untouched(old(heap), x, z, old(usage));
        }
      }
      forall x | x in spare
        ensures Owned(x)
      {
        Untouched(old(heap), x, z, old(usage));
      }
      forall p | p in large
        ensures (p, large[p]) in heap.held && usage[p] == Large(large[p])
      {
        assert old(usage)[p] == Large(large[p]) && old(usage)[z + 0] == Small(0);
        assert PageList.Apart((p, large[p]), (z, zonePages));
      }
      forall k: nat
        ensures ListOk(k)
      {
        assert old(ListOk(k));
      }
    }

    method Clear(z: nat)
      requires z + zonePages <= |usage|
      modifies this`usage
      ensures |usage| == |old(usage)|
      ensures forall p :: z <= p < z + zonePages ==> usage[p] == Unused
      ensures forall p :: 0 <= p < |usage| && !(z <= p < z + zonePages) ==> usage[p] == old(usage)[p]
    {
      var off := 0;
      while off < zonePages
        invariant 0 <= off <= zonePages && |usage| == |old(usage)|
        invariant forall p :: z <= p < z + off ==> usage[p] == Unused
        invariant forall p :: 0 <= p < |usage| && !(z <= p < z + off) ==> usage[p] == old(usage)[p]
      {
        usage := usage[z + off := Unused];
        off := off + 1;
      }
    }

    lemma Untouched(was: PageList.Heap, x: nat, z: nat, before: seq<Usage>)
      requires PageList.Valid(was, pages) && |usage| == |before| == pages
      requires (x, zonePages) in was.held && (z, zonePages) in was.held && x != z
      requires heap.held == was.held - {(z, zonePages)}
      requires forall off :: 0 <= off < zonePages && x + off < |before| ==> before[x + off] == Small(off)
      requires forall p :: 0 <= p < |usage| && !(z <= p < z + zonePages) ==> usage[p] == before[p]
      ensures Owned(x)
    {
      assert PageList.Apart((x, zonePages), (z, zonePages));
      forall off | 0 <= off < zonePages && x + off < |usage|
        ensures usage[x + off] == Small(off)
      {
        assert before[x + off] == Small(off);
      }
    }

    /** Another zone with chunks left is on the list of zone `z`. */
    ghost predicate Others(z: nat)
      reads this`zones, this`lists
    {
      z in zones && zones[z].index < |lists| && exists x :: x in lists[zones[z].index] && x != z
    }

    /** Free a chunk; a zone that becomes all free is retired unless it is the only one on its list. */
    method FreeChunk(address: nat, ghost z: nat, ghost i: nat)
      requires Valid() && LiveChunk(z, i) && address == z * PAGE + Place(zones[z].size, i)
      modifies this`heap, this`zones, this`lists, this`spare, this`usage, this`live
      ensures Valid()
      ensures live == if z in live then old(live)[z := old(live)[z] - {i}] else old(live) - {z}
      ensures z !in live <==> old(live)[z] == {i} && old(Others(z))
      ensures spare == if z in live || |old(spare)| >= 2 then old(spare) else [z] + old(spare)
      ensures heap == if z in live || |old(spare)| < 2 then old(heap)
                      else PageList.Step(old(heap), PageList.PageFree(z, zonePages))
    {
      var zone := Owner(address, z, i);
      NumberOf(zones[zone].size, i);
      GiveChunk(zone, (address - zone * PAGE - Offset(zones[zone].size)) / zones[zone].size);
      var k := zones[zone].index;
      assert ListOk(k);
      OnlyOne(lists[k], zone);
      if zones[zone].left == zones[zone].count && |lists[k]| > 1 {
        Retire(zone);
        if |spare| > 2 {
          ReleaseSpare();
        }
      }
    }

    /** Allocate whole pages for a large request. */
    method AllocatePages(n: nat) returns (r: Option<nat>)
      requires Valid() && n > 0
      modifies this`heap, this`usage, this`large
      ensures Valid()
      ensures r == PageList.Alloc(old(heap).list, n).0 && heap == PageList.Step(old(heap), PageList.PageAlloc(n))
      ensures r.None? ==> large == old(large)
      ensures r.Some? ==> r.value !in old(large) && large == old(large)[r.value := n]
    {
      r := PageList.Alloc(heap.list, n).0;
      if r.None? {
        return;
      }
      var p := r.value;
      PageList.AllocKeeps(heap, n, pages);
      NewRange(heap, n, pages);
      forall q | q in large
        ensures q != p
      {
        assert (q, large[q]) in heap.held;
      }
      heap := PageList.Step(heap, PageList.PageAlloc(n));
      HeldInside(p, n);
      usage := usage[p := Large(n)];
      large := large[p := n];
      LargeElsewhere(p, n, old(usage), old(large), old(heap));
      forall k: nat
        ensures ListOk(k)
      {
        assert old(ListOk(k));
      }
      forall x: nat
        ensures ZoneOk(x)
      {
        assert old(ZoneOk(x));
        if x in zones {
          NotAt(x, p, n, old(usage));
        }
      }
      forall x | x in spare
        ensures Owned(x)
      {
        NotAt(x, p, n, old(usage));
      }
    }

    lemma LargeElsewhere(p: nat, n: nat, before: seq<Usage>, others: map<nat, nat>, was: PageList.Heap)
      requires p < |before| && usage == before[p := Large(n)] && large == others[p := n] && p !in others
      requires (p, n) in heap.held
      requires forall q :: q in others ==> (q, others[q]) in was.held && q < |before| && before[q] == Large(others[q])
      requires was.held <= heap.held
      ensures LargeOk()
    {
    }

    lemma NotAt(x: nat, p: nat, n: nat, before: seq<Usage>)
      requires PageList.Valid(heap, pages) && p < |before| == pages && usage == before[p := Large(n)] && n > 0
      requires (x, zonePages) in heap.held && (p, n) in heap.held && (x, zonePages) != (p, n)
      requires forall off :: 0 <= off < zonePages && x + off < |before| ==> before[x + off] == Small(off)
      ensures Owned(x)
    {
      assert PageList.Apart((x, zonePages), (p, n));
      forall off | 0 <= off < zonePages && x + off < |usage|
        ensures usage[x + off] == Small(off)
      {
        assert before[x + off] == Small(off);
      }
    }

    /** Allocate: pages for a large request, a chunk for a small one. */
    method Malloc(bytes: nat) returns (r: Option<Memory>)
      requires Valid()
      modifies this`heap, this`zones, this`lists, this`spare, this`usage, this`live, this`large
      ensures Valid()
      ensures bytes == 0 ==> r == None
      ensures bytes >= zoneLimit && r.Some? ==>
                && r.value.Pages? && r.value.start !in old(large) && live == old(live)
                && large == old(large)[r.value.start := (bytes + PAGE - 1) / PAGE]
                && Some(r.value.start) == PageList.Alloc(old(heap).list, (bytes + PAGE - 1) / PAGE).0
      ensures bytes >= zoneLimit && r.None? ==> PageList.Alloc(old(heap).list, (bytes + PAGE - 1) / PAGE).0 == None
      ensures 0 < bytes < zoneLimit && r.None? ==>
                && 0 <= ZoneIndex(bytes).1 < |old(lists)| && old(lists)[ZoneIndex(bytes).1] == [] && old(spare) == []
                && PageList.Alloc(old(heap).list, zonePages).0 == None
      ensures r.None? ==> heap == old(heap) && zones == old(zones) && live == old(live) && large == old(large)
      ensures 0 < bytes < zoneLimit && r.Some? ==>
                && r.value.Chunk? && LiveChunk(r.value.zone, r.value.number)
                && zones[r.value.zone].size == ZoneIndex(bytes).0 && bytes <= zones[r.value.zone].size
                && Grown(old(live), live, r.value.zone, r.value.number) && large == old(large)
    {
      if bytes == 0 {
        return None;
      }
      if bytes >= zoneLimit {
        var n := (bytes + PAGE - 1) / PAGE;
        var p := AllocatePages(n);
        return match p case None => None case Some(start) => Some(Pages(start));
      }
      ZoneIndexFits(bytes);
      ChunkLimit(bytes, zoneLimit);
      var (size, k) := ZoneIndex(bytes);
      r := AllocateChunk(k);
    }

    /** Free whole pages. */
    method FreePages(start: nat)
      requires Valid() && start in large
      modifies this`heap, this`usage, this`large
      ensures Valid() && large == old(large) - {start}
      ensures heap == PageList.Step(old(heap), PageList.PageFree(start, old(large)[start]))
    {
      var n := usage[start].count;
      PageList.FreeKeeps(heap, start, n, pages);
      HeldInside(start, n);
      usage := usage[start := Large(0)];
      heap := PageList.Step(heap, PageList.PageFree(start, n));
      large := large - {start};
      forall k: nat
        ensures ListOk(k)
      {
        assert old(ListOk(k));
      }
      forall x: nat
        ensures ZoneOk(x)
      {
        assert old(ZoneOk(x));
        if x in zones {
          Kept(x, start, n, old(usage), old(heap));
        }
      }
      forall x | x in spare
        ensures Owned(x)
      {
        Kept(x, start, n, old(usage), old(heap));
      }
    }

    ghost predicate LiveMemory(m: Memory)
      reads this`zones, this`live, this`large
    {
      match m
      case Chunk(z, i) => LiveChunk(z, i)
      case Pages(start) => start in large
    }

    /** The pointer to what was allocated. */
    ghost function Address(m: Memory): (address: nat)
      requires LiveMemory(m)
      reads this`zones, this`live, this`large
    {
      match m
      case Chunk(z, i) => z * PAGE + Place(zones[z].size, i)
      case Pages(start) => start * PAGE
    }

    /** How many bytes an allocated memory has. */
    ghost function Length(m: Memory): (n: nat)
      requires LiveMemory(m)
      reads this`zones, this`live, this`large
    {
      match m
      case Chunk(z, _) => zones[z].size
      case Pages(start) => large[start] * PAGE
    }

    /** Pages of 4096 bytes: where an allocated memory starts and how long it is. */
    lemma AddressMeans(m: Memory)
      requires LiveMemory(m)
      ensures m.Pages? ==> Address(m) == 4096 * m.start && Length(m) == 4096 * large[m.start]
      ensures m.Chunk? ==>
                && Length(m) == zones[m.zone].size
                && Address(m) == 4096 * m.zone + Offset(zones[m.zone].size) + m.number * zones[m.zone].size
    {
    }

    /** The held pages that an allocated memory lies in. */
    ghost function Range(m: Memory): (r: (nat, nat))
      requires LiveMemory(m)
      reads this`zones, this`live, this`large
    {
      match m
      case Chunk(z, _) => (z, zonePages)
      case Pages(start) => (start, large[start])
    }

    lemma InRange(m: Memory)
      requires Valid() && LiveMemory(m)
      ensures Range(m) in heap.held
      ensures Range(m).0 * PAGE <= Address(m) && Address(m) + Length(m) <= (Range(m).0 + Range(m).1) * PAGE
    {
      if m.Chunk? {
        assert ZoneOk(m.zone);
        SeveralChunks(zonePages * PAGE, zones[m.zone].size);
        ChunkInside(zonePages * PAGE, zones[m.zone].size, m.number);
      }
    }

    /** Chunks of different zones, different pages, and a chunk and pages lie in different held pages. */
    lemma RangesDiffer(a: Memory, b: Memory)
      requires Valid() && LiveMemory(a) && LiveMemory(b) && a != b && !(a.Chunk? && b.Chunk? && a.zone == b.zone)
      ensures Range(a) != Range(b)
    {
      if a.Chunk? && b.Pages? {
        StartsSmall(a.zone);
      } else if a.Pages? && b.Chunk? {
        StartsSmall(b.zone);
      }
    }

    lemma StartsSmall(z: nat)
      requires Valid() && z in zones
      ensures z < |usage| && usage[z] == Small(0)
    {
      assert ZoneOk(z);
      HeldInside(z, zonePages);
      assert usage[z + 0] == Small(0);
    }

    /** The bytes of two allocated memories, chunks or pages, never overlap. */
    lemma MemoriesApart(a: Memory, b: Memory)
      requires Valid() && LiveMemory(a) && LiveMemory(b) && a != b
      ensures Address(a) + Length(a) <= Address(b) || Address(b) + Length(b) <= Address(a)
    {
      if a.Chunk? && b.Chunk? && a.zone == b.zone {
        if a.number < b.number {
          ChunksApart(zones[a.zone].size, a.number, b.number);
        } else {
          ChunksApart(zones[a.zone].size, b.number, a.number);
        }
      } else {
        InRange(a);
        InRange(b);
        RangesDiffer(a, b);
        assert PageList.Apart(Range(a), Range(b));
      }
    }

    /** Free whatever the pointer leads to: the descriptor of its page says whether it is a chunk. */
    method Free(address: Option<nat>, ghost m: Memory)
      requires Valid() && (address.Some? ==> LiveMemory(m) && address.value == Address(m))
      modifies this`heap, this`zones, this`lists, this`spare, this`usage, this`live, this`large
      ensures Valid()
      ensures address.None? ==> live == old(live) && large == old(large) && heap == old(heap) && zones == old(zones)
      ensures address.Some? && m.Pages? ==>
                && live == old(live) && large == old(large) - {m.start}
                && heap == PageList.Step(old(heap), PageList.PageFree(m.start, old(large)[m.start]))
      ensures address.Some? && m.Chunk? ==>
                && large == old(large)
                && live == (if m.zone in live then old(live)[m.zone := old(live)[m.zone] - {m.number}]
                            else old(live) - {m.zone})
                && (m.zone !in live <==> old(live)[m.zone] == {m.number} && old(Others(m.zone)))
    {
      if address.Some? {
        var page := address.value / PAGE;
        if m.Chunk? {
          ChunkPage(address.value, m.zone, m.number);
        }
        if usage[page].Large? {
          FreePages(page);
        } else {
          FreeChunk(address.value, m.zone, m.number);
        }
      }
    }

    lemma Kept(x: nat, p: nat, n: nat, before: seq<Usage>, was: PageList.Heap)
      requires PageList.Valid(was, pages) && p < |before| == pages && usage == before[p := Large(0)]
      requires (x, zonePages) in was.held && (p, n) in was.held && before[p] == Large(n) && zonePages > 0
      requires heap.held == was.held - {(p, n)}
      requires forall off :: 0 <= off < zonePages && x + off < |before| ==> before[x + off] == Small(off)
      ensures Owned(x)
    {
      assert PageList.Within(x, x, zonePages);
      assert PageList.Held(was, x);
      assert x < pages && before[x + 0] == Small(0);
      assert PageList.Apart((x, zonePages), (p, n));
      forall off | 0 <= off < zonePages && x + off < |usage|
        ensures usage[x + off] == Small(off)
      {
        assert before[x + off] == Small(off);
      }
    }
  }

  /** A list of which `z` is one holds another member exactly if it is longer than one. */
  lemma OnlyOne(list: seq<nat>, z: nat)
    requires Nodup(list) && z in list
    ensures |list| > 1 <==> exists x :: x in list && x != z
  {
    if |list| > 1 {
      assert list[0] in list && list[1] in list && list[0] != list[1];
    }
  }

  lemma WholeHeap(pages: nat)
    requires pages > 0
    ensures PageList.Valid(PageList.Heap(PageList.Run(0, pages, PageList.Nil), {}), pages)
  {
    var h := PageList.Heap(PageList.Run(0, pages, PageList.Nil), {});
    forall p
      ensures PageList.Free(h.list, p) || PageList.Held(h, p) <==> 0 <= p < pages
    {
      assert !PageList.Free(PageList.Nil, p);
    }
  }

  lemma PageOf(z: nat, place: nat, n: nat)
    requires place < n * PAGE
    ensures var page := (z * PAGE + place) / PAGE; z <= page < z + n
  {
  }

  /** One chunk more is live, in a zone there was or in a new one. */
  ghost predicate Grown(before: map<nat, set<nat>>, after: map<nat, set<nat>>, z: nat, i: nat) {
    if z in before then i !in before[z] && after == before[z := before[z] + {i}] else after == before[z := {i}]
  }

  /** Pages that are allocated were not held before. */
  lemma NewRange(heap: PageList.Heap, n: nat, size: nat)
    requires PageList.Valid(heap, size) && n > 0 && PageList.Alloc(heap.list, n).0.Some?
    ensures forall m :: m > 0 ==> (PageList.Alloc(heap.list, n).0.value, m) !in heap.held
  {
    var at := PageList.Alloc(heap.list, n).0.value;
    PageList.AllocPages(heap.list, n, 0);
    assert PageList.Within(at, at, n);
    forall m | m > 0
      ensures (at, m) !in heap.held
    {
      assert PageList.Within(at, at, m);
    }
  }
}
