/** Chunk sizes of the slab allocator and where the chunks of a zone lie. */
module SlabSizes {
  import opened Quotients

  const PAGE: nat := 4096
  const NZONES: nat := 72

  /** The length of the zone header at the start of a zone. */
  const ZONE_HEADER: nat := 36

  // ----- from a request to a chunk size -----

  /** The spacing of chunk sizes around a request. */
  function Unit(n: nat): (u: nat)
    ensures u > 0
  {
    if n < 128 then 8
    else if n < 256 then 16
    else if n < 512 then 32
    else if n < 1024 then 64
    else if n < 2048 then 128
    else if n < 4096 then 256
    else if n < 8192 then 512
    else 1024
  }

  /** The number of the first chunk size with that spacing. */
  function Bias(u: nat): (b: int) {
    if u == 8 then -1
    else if u == 16 then 7
    else if u == 32 then 15
    else if u == 64 then 23
    else if u == 128 then 31
    else if u == 256 then 39
    else if u == 512 then 47
    else 55
  }

  /** The chunk size a request is rounded up to and the list of zones with that size. */
  function ZoneIndex(n: nat): (r: (nat, int)) {
    if n >= 16384 then (n, 0)
    else
      var u := Unit(n);
      var count := (n + u - 1) / u;
      (count * u, count + Bias(u))
  }

  /** The chunk size that belongs to a list of zones. */
  function ChunkOf(zi: int): (size: int) {
    if zi < 16 then (zi + 1) * 8
    else if zi < 24 then (zi - 7) * 16
    else if zi < 32 then (zi - 15) * 32
    else if zi < 40 then (zi - 23) * 64
    else if zi < 48 then (zi - 31) * 128
    else if zi < 56 then (zi - 39) * 256
    else if zi < 64 then (zi - 47) * 512
    else (zi - 55) * 1024
  }

  lemma Rounded(n: nat, u: nat, count: int)
    requires u > 0 && count == (n + u - 1) / u
    ensures n <= count * u < n + u
  {
    var x := n + u - 1;
    assert x == x / u * u + x % u;
  }

  /** Whole units in a band of requests. */
  lemma Band(n: nat, u: nat, count: int, low: int, high: int)
    requires n <= count * u < n + u && low * u <= n < high * u && u > 0
    ensures low <= count <= high
  {
    assert count <= low - 1 ==> count * u <= (low - 1) * u;
    assert count >= high + 1 ==> count * u >= (high + 1) * u;
  }

  /** A chunk holds the request and wastes less than an eighth of it; its list determines its size. */
  lemma ZoneIndexFits(n: nat)
    requires 0 < n < 16384
    ensures n <= ZoneIndex(n).0 < n + Unit(n)
    ensures 0 <= ZoneIndex(n).1 < NZONES && ChunkOf(ZoneIndex(n).1) == ZoneIndex(n).0
    ensures n >= 128 ==> 8 * (ZoneIndex(n).0 - n) < n
    ensures n < 128 ==> ZoneIndex(n).0 < n + 8 && ZoneIndex(n).0 % 8 == 0
  {
    var u := Unit(n);
    var count := (n + u - 1) / u;
    Rounded(n, u, count);
    if n < 128 {
      Band(n, u, count, 0, 16);
    } else {
      Band(n, u, count, 8, 16);
    }
  }

  lemma ChunksAscend(i: int, j: int)
    requires 0 <= i < j < NZONES
    ensures ChunkOf(i) < ChunkOf(j)
  {
  }

  /** The list before the one of a request has chunks that are too short for it. */
  lemma ShorterBefore(n: nat)
    requires 0 < n < 16384 && ZoneIndex(n).1 > 0
    ensures ChunkOf(ZoneIndex(n).1 - 1) < n
  {
    var u := Unit(n);
    var count := (n + u - 1) / u;
    Rounded(n, u, count);
    if n < 128 {
      Band(n, u, count, 0, 16);
    } else {
      Band(n, u, count, 8, 16);
    }
  }

  /** Of all chunk sizes a request gets the smallest that holds it. */
  lemma SmallestChunk(n: nat, k: int)
    requires 0 < n < 16384 && 0 <= k < NZONES && n <= ChunkOf(k)
    ensures ZoneIndex(n).0 <= ChunkOf(k)
  {
    ZoneIndexFits(n);
    var zi := ZoneIndex(n).1;
    if k < zi {
      ShorterBefore(n);
      if k < zi - 1 {
        ChunksAscend(k, zi - 1);
      }
    } else if k > zi {
      ChunksAscend(zi, k);
    }
  }

  /** Requests below the limit get chunks no longer than the limit. */
  lemma ChunkLimit(n: nat, limit: nat)
    requires 0 < n < limit && (limit == 8192 || limit == 16384)
    ensures 8 <= ZoneIndex(n).0 <= limit
  {
    var u := Unit(n);
    var count := (n + u - 1) / u;
    Rounded(n, u, count);
    if n < 128 {
      Band(n, u, count, 0, 16);
      assert count >= 1;
    } else {
      Band(n, u, count, 8, 16);
    }
  }

  // ----- where the chunks of a zone lie -----

  predicate PowerOfTwo(size: nat) {
    size in {8, 16, 32, 64, 128, 256, 512, 1024, 2048, 4096, 8192, 16384}
  }

  /** Chunks start behind the header, at a multiple of their size if that is a power of two. */
  function Offset(size: nat): (off: nat) {
    if size == 16 then 48 else if size == 32 then 64 else if PowerOfTwo(size) && size > 32 then size else 40
  }

  /** The offset is the header's length rounded up to the size or to eight bytes. */
  lemma OffsetRounds(size: nat)
    requires size > 0
    ensures Offset(size) == if PowerOfTwo(size) then (ZONE_HEADER + size - 1) / size * size
                            else (ZONE_HEADER + 7) / 8 * 8
  {
  }

  /** How many pieces of that size fit into the room. */
  function Fit(room: int, size: nat): (n: nat)
    requires size > 0
    decreases room
  {
    if room < size then 0 else 1 + Fit(room - size, size)
  }

  lemma {:induction false} FitRoom(room: int, size: nat)
    requires size > 0 && room >= 0
    ensures Fit(room, size) * size <= room < Fit(room, size) * size + size
    decreases room
  {
    if room >= size {
      FitRoom(room - size, size);
      assert Fit(room, size) * size == Fit(room - size, size) * size + size;
    }
  }

  /** Counting the pieces is dividing. */
  lemma FitIsQuotient(room: int, size: nat)
    requires size > 0 && room >= 0
    ensures Fit(room, size) == room / size
  {
    FitRoom(room, size);
    assert room == room / size * size + room % size;
    SameQuotient(Fit(room, size), room / size, size, room);
  }

  function ChunkCount(zoneSize: nat, size: nat): (n: nat)
    requires size > 0
  {
    Fit(zoneSize - Offset(size), size)
  }

  /** The position of a chunk in its zone. */
  function Place(size: nat, i: nat): (p: nat)
    requires size > 0
  {
    Offset(size) + i * size
  }

  /** The number of a chunk, from its position. */
  lemma NumberOf(size: nat, i: nat)
    requires size > 0
    ensures (Place(size, i) - Offset(size)) / size == i
  {
    SameQuotient(i, i * size / size, size, i * size);
  }

  lemma OffsetBounds(size: nat)
    requires size >= 8
    ensures ZONE_HEADER <= Offset(size) && Offset(size) <= size + 40
    ensures PowerOfTwo(size) ==> Offset(size) % size == 0 && (size <= PAGE ==> PAGE % size == 0)
  {
  }

  /** Every chunk lies behind the header and inside the zone. */
  lemma ChunkInside(zoneSize: nat, size: nat, i: nat)
    requires size >= 8 && Offset(size) <= zoneSize && i < ChunkCount(zoneSize, size)
    ensures ZONE_HEADER <= Place(size, i) && Place(size, i) + size <= zoneSize
  {
    OffsetBounds(size);
    var x, n := zoneSize - Offset(size), ChunkCount(zoneSize, size);
    FitRoom(x, size);
    Growing(i + 1, n, size);
    assert (i + 1) * size == i * size + size;
  }

  /** Different chunks do not overlap. */
  lemma ChunksApart(size: nat, i: nat, j: nat)
    requires size > 0 && i < j
    ensures Place(size, i) + size <= Place(size, j)
  {
    Growing(i + 1, j, size);
    assert (i + 1) * size == i * size + size;
  }

  lemma Multiple(a: nat, u: nat)
    requires u > 0
    ensures (a * u) % u == 0
  {
    var x := a * u;
    var q, r := x / u, x % u;
    assert x == q * u + r;
    assert (a - q) * u == r;
    assert a - q >= 1 ==> (a - q) * u >= 1 * u;
    assert a - q <= -1 ==> (a - q) * u <= -1 * u;
  }

  lemma SumMultiple(x: nat, y: nat, u: nat)
    requires u > 0 && x % u == 0 && y % u == 0
    ensures (x + y) % u == 0
  {
    var a, b := x / u, y / u;
    assert x == a * u && y == b * u;
    assert x + y == (a + b) * u;
    Multiple(a + b, u);
  }

  /** Chunks of a power of two up to a page start at a multiple of their size. */
  lemma ChunkAligned(page: nat, size: nat, i: nat)
    requires PowerOfTwo(size) && size <= PAGE
    ensures (page * PAGE + Place(size, i)) % size == 0
  {
    OffsetBounds(size);
    Multiple(i, size);
    SumMultiple(Offset(size), i * size, size);
    var k := PAGE / size;
    assert PAGE == k * size;
    assert page * PAGE == (page * k) * size;
    Multiple(page * k, size);
    SumMultiple(page * PAGE, Place(size, i), size);
  }

  /** A zone holds several chunks of any size it serves. */
  lemma SeveralChunks(zoneSize: nat, size: nat)
    requires size >= 8 && 4 * size <= zoneSize && zoneSize >= 1024
    ensures Offset(size) <= zoneSize && ChunkCount(zoneSize, size) >= 2
  {
    OffsetBounds(size);
    var x, n := zoneSize - Offset(size), ChunkCount(zoneSize, size);
    FitRoom(x, size);
    assert n <= 1 ==> n * size <= 1 * size;
  }
}
