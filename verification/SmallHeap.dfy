/** The small memory manager in place: headers and data share one array of words. */
module SmallHeap {
  import opened Options
  import opened Layout
  import opened SmallMem

  // ----- headers in memory -----

  function Tag(used: bool): (t: int) {
    if used then USED_TAG else FREE_TAG
  }

  /** The header of block `i`: tag, offset of the next header, offset of the previous one. */
  ghost predicate Header(ram: seq<int>, bs: seq<Block>, i: int) {
    && 0 <= i < |bs| && bs[i].start + 2 < |ram|
    && ram[bs[i].start] == Tag(bs[i].used)
    && ram[bs[i].start + 1] == bs[i].end
    && ram[bs[i].start + 2] == (if i == 0 then 0 else bs[i - 1].start)
  }

  /** Blocks that tile the memory in front of an end header, which is used and links to itself. */
  ghost predicate Framed(ram: seq<int>, bs: seq<Block>, end: nat) {
    && |ram| == end + HEADER
    && Tiled(bs, HEADER, end)
    && ram[end] == USED_TAG && ram[end + 1] == end
  }

  /** The first `n` headers are in memory. */
  ghost predicate StoredTo(ram: seq<int>, bs: seq<Block>, end: nat, n: int)
    decreases n
  {
    if n <= 0 then Framed(ram, bs, end) else Header(ram, bs, n - 1) && StoredTo(ram, bs, end, n - 1)
  }

  /** The row of blocks is what the headers in memory say. */
  ghost predicate Stored(ram: seq<int>, bs: seq<Block>, end: nat) {
    StoredTo(ram, bs, end, |bs|)
  }

  lemma {:induction false} StoredFrame(ram: seq<int>, bs: seq<Block>, end: nat, n: int)
    requires StoredTo(ram, bs, end, n)
    ensures Framed(ram, bs, end)
    decreases n
  {
    if n > 0 {
      StoredFrame(ram, bs, end, n - 1);
    }
  }

  lemma {:induction false} StoredHeader(ram: seq<int>, bs: seq<Block>, end: nat, n: int, i: int)
    requires StoredTo(ram, bs, end, n) && 0 <= i < n
    ensures Header(ram, bs, i)
    decreases n
  {
    if i < n - 1 {
      StoredHeader(ram, bs, end, n - 1, i);
    }
  }

  lemma {:induction false} HeadersStored(ram: seq<int>, bs: seq<Block>, end: nat, n: int)
    requires Framed(ram, bs, end) && forall i :: 0 <= i < n ==> Header(ram, bs, i)
    ensures StoredTo(ram, bs, end, n)
    decreases n
  {
    if n > 0 {
      HeadersStored(ram, bs, end, n - 1);
    }
  }

  /** What stored memory says about its frame and about block `i`. */
  lemma At(ram: seq<int>, bs: seq<Block>, end: nat, i: int)
    requires Stored(ram, bs, end)
    ensures Framed(ram, bs, end)
    ensures 0 <= i < |bs| ==> Header(ram, bs, i) && bs[i].end <= end && Link(bs, i)
  {
    StoredFrame(ram, bs, end, |bs|);
    if 0 <= i < |bs| {
      StoredHeader(ram, bs, end, |bs|, i);
      Ascending(bs, HEADER, end, i, i);
      assert Link(bs, i);
    }
  }

  /** The link of block `k` leads to a free header exactly when the next block is free. */
  lemma NextHeader(ram: seq<int>, bs: seq<Block>, end: nat, k: nat)
    requires Stored(ram, bs, end) && k < |bs|
    ensures Framed(ram, bs, end) && bs[k].start + 1 < |ram| && 0 <= ram[bs[k].start + 1] < |ram|
    ensures var next := ram[bs[k].start + 1];
            (bs[k].start != next && ram[next] == FREE_TAG && next != end) == NextFree(bs, k)
    ensures k + 1 < |bs| ==> ram[bs[k].start + 1] == bs[k + 1].start
  {
    At(ram, bs, end, k);
    At(ram, bs, end, k + 1);
  }

  /** The link back of block `k` leads to another, free header exactly when the previous block is free. */
  lemma PreviousHeader(ram: seq<int>, bs: seq<Block>, end: nat, k: nat)
    requires Stored(ram, bs, end) && k < |bs|
    ensures Framed(ram, bs, end) && bs[k].start + 2 < |ram| && 0 <= ram[bs[k].start + 2] < |ram|
    ensures var prev := ram[bs[k].start + 2];
            (prev != bs[k].start && ram[prev] == FREE_TAG) == PreviousFree(bs, k)
    ensures k > 0 ==> ram[bs[k].start + 2] == bs[k - 1].start
  {
    At(ram, bs, end, k);
    At(ram, bs, end, k - 1);
  }

  /** `after` differs from `before` at most at the positions in `where`. */
  ghost predicate OnlyAt(before: seq<int>, after: seq<int>, where: set<int>) {
    && |before| == |after|
    && forall x :: 0 <= x < |before| && x !in where ==> after[x] == before[x]
  }

  lemma Before(bs: seq<Block>, end: nat, i: nat, j: nat)
    requires Tiled(bs, HEADER, end) && i < j < |bs|
    ensures bs[i].end <= bs[j].start && bs[j].end <= end
  {
    Ascending(bs, HEADER, end, i, j);
  }

  /** Changing the flag of a block. */
  lemma StoredFlagged(ram: seq<int>, after: seq<int>, bs: seq<Block>, i: nat, used: bool, end: nat)
    requires Stored(ram, bs, end) && i < |bs| && bs[i].start < |ram|
    requires OnlyAt(ram, after, {bs[i].start}) && after[bs[i].start] == Tag(used)
    ensures Stored(after, Flagged(bs, i, used), end)
  {
    var r := Flagged(bs, i, used);
    At(ram, bs, end, i);
    FlaggedTiled(bs, i, used, HEADER, end);
    forall k | 0 <= k < |r|
      ensures Header(after, r, k)
    {
      At(ram, bs, end, k);
      if k < i {
        Before(bs, end, k, i);
      } else if i < k {
        Before(bs, end, i, k);
      }
    }
    HeadersStored(after, r, end, |r|);
  }

  /** The memory after writing the second header of a split block and linking it in. */
  ghost predicate SplitWritten(ram: seq<int>, after: seq<int>, b: Block, cut: nat, end: nat)
    requires b.start + HEADER <= cut && cut + HEADER <= b.end <= end && |ram| == end + HEADER
  {
    && OnlyAt(ram, after, {b.start, b.start + 1, cut, cut + 1, cut + 2, b.end + 2})
    && after[b.start] == USED_TAG && after[b.start + 1] == cut
    && after[cut] == FREE_TAG && after[cut + 1] == b.end && after[cut + 2] == b.start
    && after[end] == ram[end] && after[end + 1] == ram[end + 1]
    && (b.end != end ==> after[b.end + 2] == cut)
  }

  lemma SplitHeaderBelow(ram: seq<int>, after: seq<int>, bs: seq<Block>, i: nat, cut: nat, end: nat, k: nat)
    requires Stored(ram, bs, end) && k < i < |bs|
    requires bs[i].start + HEADER <= cut && cut + HEADER <= bs[i].end <= end && |ram| == end + HEADER
    requires SplitWritten(ram, after, bs[i], cut, end)
    ensures Header(after, Divided(bs, i, cut), k)
  {
    var r := Divided(bs, i, cut);
    At(ram, bs, end, k);
    Before(bs, end, k, i);
    assert r[k] == bs[k] && (k > 0 ==> r[k - 1] == bs[k - 1]);
  }

  lemma SplitHeaderAbove(ram: seq<int>, after: seq<int>, bs: seq<Block>, i: nat, cut: nat, end: nat, k: nat)
    requires Stored(ram, bs, end) && i < k < |bs|
    requires bs[i].start + HEADER <= cut && cut + HEADER <= bs[i].end <= end && |ram| == end + HEADER
    requires SplitWritten(ram, after, bs[i], cut, end)
    ensures Header(after, Divided(bs, i, cut), k + 1)
  {
    var r, p := Divided(bs, i, cut), bs[k].start;
    At(ram, bs, end, k);
    At(ram, bs, end, i);
    Before(bs, end, i, k);
    assert r[k + 1] == bs[k];
    if k > i + 1 {
      Before(bs, end, i + 1, k);
      assert r[k] == bs[k - 1];
      assert p > bs[i].end + 2;
      assert after[p] == ram[p] && after[p + 1] == ram[p + 1] && after[p + 2] == ram[p + 2];
    } else {
      assert after[p] == ram[p] && after[p + 1] == ram[p + 1];
    }
  }

  lemma SplitHeader(ram: seq<int>, after: seq<int>, bs: seq<Block>, i: nat, cut: nat, end: nat, k: nat)
    requires Stored(ram, bs, end) && i < |bs| && k <= |bs|
    requires bs[i].start + HEADER <= cut && cut + HEADER <= bs[i].end <= end && |ram| == end + HEADER
    requires SplitWritten(ram, after, bs[i], cut, end)
    ensures Header(after, Divided(bs, i, cut), k)
  {
    if k < i {
      SplitHeaderBelow(ram, after, bs, i, cut, end, k);
    } else if k > i + 1 {
      SplitHeaderAbove(ram, after, bs, i, cut, end, k - 1);
    } else {
      var r := Divided(bs, i, cut);
      At(ram, bs, end, i);
      assert i > 0 ==> r[i - 1] == bs[i - 1];
    }
  }

  lemma StoredDivided(ram: seq<int>, after: seq<int>, bs: seq<Block>, i: nat, cut: nat, end: nat)
    requires Stored(ram, bs, end) && i < |bs|
    requires bs[i].start + HEADER <= cut && cut + HEADER <= bs[i].end <= end && |ram| == end + HEADER
    requires SplitWritten(ram, after, bs[i], cut, end)
    ensures Stored(after, Divided(bs, i, cut), end)
  {
    var r := Divided(bs, i, cut);
    StoredFrame(ram, bs, end, |bs|);
    DividedTiled(bs, i, cut, HEADER, end);
    forall k | 0 <= k < |r|
      ensures Header(after, r, k)
    {
      SplitHeader(ram, after, bs, i, cut, end, k);
    }
    HeadersStored(after, r, end, |r|);
  }

  /** The memory after dropping the header between blocks `a` and `a + 1`. */
  ghost predicate MergeWritten(ram: seq<int>, after: seq<int>, bs: seq<Block>, a: nat)
    requires a + 1 < |bs| && bs[a].start + 1 < |ram| && bs[a + 1].end + 2 < |ram|
  {
    && OnlyAt(ram, after, {bs[a].start + 1, bs[a + 1].end + 2})
    && after[bs[a].start + 1] == bs[a + 1].end && after[bs[a + 1].end + 2] == bs[a].start
  }

  lemma MergedHeaderAbove(ram: seq<int>, after: seq<int>, bs: seq<Block>, a: nat, end: nat, k: nat)
    requires Stored(ram, bs, end) && a + 1 < k < |bs| && bs[a].start + 1 < |ram| && bs[a + 1].end + 2 < |ram|
    requires MergeWritten(ram, after, bs, a)
    ensures Header(after, Merged(bs, a), k - 1)
  {
    var r, p := Merged(bs, a), bs[k].start;
    At(ram, bs, end, k);
    At(ram, bs, end, a + 1);
    Before(bs, end, a, a + 1);
    Before(bs, end, a + 1, k);
    assert r[k - 1] == bs[k];
    if k > a + 2 {
      Before(bs, end, a + 2, k);
      assert r[k - 2] == bs[k - 1];
      assert p > bs[a + 1].end + 2;
      assert after[p] == ram[p] && after[p + 1] == ram[p + 1] && after[p + 2] == ram[p + 2];
    } else {
      assert after[p] == ram[p] && after[p + 1] == ram[p + 1];
    }
  }

  lemma MergedHeader(ram: seq<int>, after: seq<int>, bs: seq<Block>, a: nat, end: nat, k: nat)
    requires Stored(ram, bs, end) && a + 1 < |bs| && bs[a].start + 1 < |ram| && bs[a + 1].end + 2 < |ram|
    requires MergeWritten(ram, after, bs, a) && k < |bs| - 1
    ensures Header(after, Merged(bs, a), k)
  {
    if k > a {
      MergedHeaderAbove(ram, after, bs, a, end, k + 1);
    } else {
      var r := Merged(bs, a);
      At(ram, bs, end, k);
      Before(bs, end, a, a + 1);
      if k < a {
        Before(bs, end, k, a);
        assert r[k] == bs[k];
      }
      assert k > 0 ==> r[k - 1] == bs[k - 1];
    }
  }

  /** Dropping the header between two free blocks. */
  lemma StoredMerged(ram: seq<int>, after: seq<int>, bs: seq<Block>, a: nat, end: nat)
    requires Stored(ram, bs, end) && a + 1 < |bs| && bs[a].start + 1 < |ram| && bs[a + 1].end + 2 < |ram|
    requires MergeWritten(ram, after, bs, a)
    ensures Stored(after, Merged(bs, a), end)
  {
    var r := Merged(bs, a);
    At(ram, bs, end, a + 1);
    At(ram, bs, end, a + 2);
    Before(bs, end, a, a + 1);
    assert Framed(after, r, end) by {
      MergedTiled(bs, a, HEADER, end);
    }
    forall k | 0 <= k < |r|
      ensures Header(after, r, k)
    {
      MergedHeader(ram, after, bs, a, end, k);
    }
    HeadersStored(after, r, end, |r|);
  }

  // ----- the data of used blocks -----

  /** The word at `p + x` before is the word at `q + x` after. */
  ghost predicate WordAt(before: seq<int>, p: nat, after: seq<int>, q: nat, x: int) {
    0 <= x && p + x < |before| && q + x < |after| && after[q + x] == before[p + x]
  }

  /** The `n` words from `p` on before are the `n` words from `q` on after. */
  ghost predicate SameWords(before: seq<int>, p: nat, after: seq<int>, q: nat, n: int)
    decreases n
  {
    n <= 0 || (WordAt(before, p, after, q, n - 1) && SameWords(before, p, after, q, n - 1))
  }

  /** Words that agree at every place up to `n` are the same words. */
  lemma {:induction false} WordsSame(before: seq<int>, p: nat, after: seq<int>, q: nat, n: int)
    requires forall x :: 0 <= x < n ==> WordAt(before, p, after, q, x)
    ensures SameWords(before, p, after, q, n)
    decreases n
  {
    if n > 0 {
      WordsSame(before, p, after, q, n - 1);
    }
  }

  lemma {:induction false} SameWordsTwice(
    first: seq<int>, p: nat, second: seq<int>, q: nat, third: seq<int>, r: nat, n: int, m: int, l: int)
    requires SameWords(first, p, second, q, n) && SameWords(second, q, third, r, m) && l <= n && l <= m
    ensures SameWords(first, p, third, r, l)
    decreases n, m
  {
    if l > 0 {
      if l < n {
        SameWordsTwice(first, p, second, q, third, r, n - 1, m, l);
      } else if l < m {
        SameWordsTwice(first, p, second, q, third, r, n, m - 1, l);
      } else {
        SameWordsTwice(first, p, second, q, third, r, n - 1, m - 1, l - 1);
      }
    }
  }

  lemma {:induction false} SameWordsItself(ram: seq<int>, p: nat, n: int)
    requires p + n <= |ram|
    ensures SameWords(ram, p, ram, p, n)
    decreases n
  {
    if n > 0 {
      SameWordsItself(ram, p, n - 1);
    }
  }

  /** The data of block `k`, if it is used, are the same. */
  ghost predicate SameData(bs: seq<Block>, k: int, before: seq<int>, after: seq<int>) {
    0 <= k < |bs| && bs[k].used
    ==> SameWords(before, bs[k].start + HEADER, after, bs[k].start + HEADER, Room(bs[k]))
  }

  /** The data of the first `n` used blocks, but for one, are the same. */
  ghost predicate DataKeptTo(bs: seq<Block>, n: int, except: int, before: seq<int>, after: seq<int>)
    decreases n
  {
    n <= 0 || ((n - 1 == except || SameData(bs, n - 1, before, after)) && DataKeptTo(bs, n - 1, except, before, after))
  }

  /** The data of every used block but one are the same. */
  ghost predicate DataKept(bs: seq<Block>, except: int, before: seq<int>, after: seq<int>) {
    DataKeptTo(bs, |bs|, except, before, after)
  }

  lemma {:induction false} DataKeptFrom(bs: seq<Block>, n: int, except: int, before: seq<int>, after: seq<int>)
    requires forall k :: 0 <= k < n && k != except ==> SameData(bs, k, before, after)
    ensures DataKeptTo(bs, n, except, before, after)
    decreases n
  {
    if n > 0 {
      DataKeptFrom(bs, n - 1, except, before, after);
    }
  }

  lemma {:induction false} DataKeptAt(bs: seq<Block>, n: int, except: int, before: seq<int>, after: seq<int>, k: int)
    requires DataKeptTo(bs, n, except, before, after) && k != except && k < n
    ensures 0 <= k ==> SameData(bs, k, before, after)
    decreases n
  {
    if 0 <= k < n - 1 {
      DataKeptAt(bs, n - 1, except, before, after, k);
    }
  }

  /** One block whose data are kept. */
  lemma KeptBlock(bs: seq<Block>, except: int, before: seq<int>, after: seq<int>, k: int)
    requires DataKept(bs, except, before, after) && k != except
    ensures SameData(bs, k, before, after)
  {
    if 0 <= k < |bs| {
      DataKeptAt(bs, |bs|, except, before, after, k);
    }
  }

  /** Writing outside a range leaves its words alone. */
  lemma OutsideWords(ram: seq<int>, after: seq<int>, where: set<int>, lo: nat, n: int)
    requires OnlyAt(ram, after, where) && lo + n <= |ram|
    requires forall x :: x in where ==> x < lo || lo + n <= x
    ensures SameWords(ram, lo, after, lo, n)
  {
    forall x | 0 <= x < n
      ensures WordAt(ram, lo, after, lo, x)
    {
      assert lo + x !in where;
    }
    WordsSame(ram, lo, after, lo, n);
  }

  /** The words that dropping a header writes lie in headers. */
  lemma MergedData(bs: seq<Block>, a: nat, before: seq<int>, after: seq<int>, end: nat)
    requires Tiled(bs, HEADER, end) && a + 1 < |bs| && !bs[a].used && !bs[a + 1].used && |before| == end + HEADER
    requires OnlyAt(before, after, {bs[a].start + 1, bs[a + 1].end + 2})
    ensures DataKept(bs, -1, before, after)
  {
    assert Link(bs, a + 1);
    Ordered(bs, HEADER, end);
    forall k
      ensures SameData(bs, k, before, after)
    {
      if 0 <= k < |bs| && bs[k].used {
        if k < a {
          Before(bs, end, k, a);
          Before(bs, end, k, a + 1);
        } else {
          Before(bs, end, a, k);
          Before(bs, end, a + 1, k);
          if k > a + 2 {
            Before(bs, end, a + 2, k);
          }
        }
        OutsideWords(before, after, {bs[a].start + 1, bs[a + 1].end + 2}, bs[k].start + HEADER, Room(bs[k]));
      }
    }
    DataKeptFrom(bs, |bs|, -1, before, after);
  }

  lemma FlaggedData(bs: seq<Block>, i: nat, before: seq<int>, after: seq<int>, end: nat)
    requires Tiled(bs, HEADER, end) && i < |bs| && |before| == end + HEADER
    requires OnlyAt(before, after, {bs[i].start})
    ensures DataKept(bs, -1, before, after)
  {
    Ordered(bs, HEADER, end);
    forall k
      ensures SameData(bs, k, before, after)
    {
      if 0 <= k < |bs| {
        if k < i {
          Before(bs, end, k, i);
        } else if i < k {
          Before(bs, end, i, k);
        }
        OutsideWords(before, after, {bs[i].start}, bs[k].start + HEADER, Room(bs[k]));
      }
    }
    DataKeptFrom(bs, |bs|, -1, before, after);
  }

  /** A split writes no data word of another block. */
  lemma SplitData(bs: seq<Block>, i: nat, p: nat, cut: nat, n: nat, before: seq<int>, after: seq<int>, end: nat)
    requires Tiled(bs, HEADER, end) && i < |bs| && |before| == end + HEADER
    requires bs[i].start + HEADER <= cut && cut + HEADER <= bs[i].end <= end
    requires SplitWritten(before, after, bs[i], cut, end) && p == bs[i].start + HEADER && cut == p + n
    ensures DataKept(bs, i, before, after)
    ensures SameWords(before, p, after, p, n)
  {
    var where := {bs[i].start, bs[i].start + 1, cut, cut + 1, cut + 2, bs[i].end + 2};
    assert Link(bs, i);
    Ordered(bs, HEADER, end);
    forall k | k != i
      ensures SameData(bs, k, before, after)
    {
      if 0 <= k < |bs| {
        if k < i {
          Before(bs, end, k, i);
        } else {
          Before(bs, end, i, k);
          if k > i + 1 {
            Before(bs, end, i + 1, k);
          }
        }
        OutsideWords(before, after, where, bs[k].start + HEADER, Room(bs[k]));
      }
    }
    OutsideWords(before, after, where, p, n);
    DataKeptFrom(bs, |bs|, i, before, after);
  }

  /** What a split of block `k` needs to know of its header. */
  lemma SplitReady(ram: seq<int>, bs: seq<Block>, k: nat, end: nat)
    requires Stored(ram, bs, end) && k < |bs|
    ensures |ram| == end + HEADER && bs[k].start + 1 < |ram| && ram[bs[k].start + 1] == bs[k].end
    ensures bs[k].start + HEADER <= bs[k].end && (bs[k].end == end || bs[k].end + HEADER <= end)
  {
    At(ram, bs, end, k);
    if k + 1 < |bs| {
      Before(bs, end, k, k + 1);
    }
  }

  lemma SplitDone(before: seq<int>, after: seq<int>, bs: seq<Block>, k: nat, p: nat, need: nat, end: nat)
    requires Stored(before, bs, end) && k < |bs| && p == bs[k].start + HEADER && |before| == end + HEADER
    requires p + need + HEADER <= bs[k].end <= end && SplitWritten(before, after, bs[k], p + need, end)
    ensures Stored(after, Divided(bs, k, p + need), end)
    ensures DataKept(bs, k, before, after) && SameWords(before, p, after, p, need)
  {
    StoredFrame(before, bs, end, |bs|);
    StoredDivided(before, after, bs, k, p + need, end);
    SplitData(bs, k, p, p + need, need, before, after, end);
  }

  lemma DataKeptUnused(bs: seq<Block>, k: nat, before: seq<int>, after: seq<int>)
    requires k < |bs| && !bs[k].used && DataKept(bs, k, before, after)
    ensures DataKept(bs, -1, before, after)
  {
    forall l | 0 <= l < |bs|
      ensures SameData(bs, l, before, after)
    {
      if l != k {
        KeptBlock(bs, k, before, after, l);
      }
    }
    DataKeptFrom(bs, |bs|, -1, before, after);
  }

  /** Nothing was written. */
  lemma DataKeptItself(bs: seq<Block>, except: int, ram: seq<int>, end: nat)
    requires Tiled(bs, HEADER, end) && end <= |ram|
    ensures DataKept(bs, except, ram, ram)
  {
    Ordered(bs, HEADER, end);
    forall k | 0 <= k < |bs| && k != except
      ensures SameData(bs, k, ram, ram)
    {
      SameWordsItself(ram, bs[k].start + HEADER, Room(bs[k]));
    }
    DataKeptFrom(bs, |bs|, except, ram, ram);
  }

  lemma SameDataTwice(bs: seq<Block>, k: int, cs: seq<Block>, l: int, first: seq<int>, second: seq<int>,
                      third: seq<int>)
    requires SameData(bs, k, first, second) && SameData(cs, l, second, third)
    requires 0 <= k < |bs| && bs[k].used ==> 0 <= l < |cs| && cs[l] == bs[k]
    ensures SameData(bs, k, first, third)
  {
    if 0 <= k < |bs| && bs[k].used {
      var p := bs[k].start + HEADER;
      SameWordsTwice(first, p, second, p, third, p, Room(bs[k]), Room(bs[k]), Room(bs[k]));
    }
  }

  /** Two steps, the first of which at most merged two free blocks. */
  lemma DataKeptMerged(bs: seq<Block>, a: nat, first: seq<int>, second: seq<int>, third: seq<int>)
    requires a + 1 < |bs| && !bs[a].used && !bs[a + 1].used
    requires DataKept(bs, -1, first, second) && DataKept(Merged(bs, a), -1, second, third)
    ensures DataKept(bs, -1, first, third)
  {
    forall k | 0 <= k < |bs|
      ensures SameData(bs, k, first, third)
    {
      var l := if k < a then k else if k == 0 then 0 else k - 1;
      KeptBlock(bs, -1, first, second, k);
      KeptBlock(Merged(bs, a), -1, second, third, l);
      SameDataTwice(bs, k, Merged(bs, a), l, first, second, third);
    }
    DataKeptFrom(bs, |bs|, -1, first, third);
  }

  lemma DataKeptPlain(bs: seq<Block>, first: seq<int>, second: seq<int>, third: seq<int>)
    requires DataKept(bs, -1, first, second) && DataKept(bs, -1, second, third)
    ensures DataKept(bs, -1, first, third)
  {
    forall k | 0 <= k < |bs|
      ensures SameData(bs, k, first, third)
    {
      KeptBlock(bs, -1, first, second, k);
      KeptBlock(bs, -1, second, third, k);
      SameDataTwice(bs, k, bs, k, first, second, third);
    }
    DataKeptFrom(bs, |bs|, -1, first, third);
  }

  lemma {:induction false} FirstFreeAt(bs: seq<Block>, j: nat, from: nat, end: nat)
    requires j <= |bs|
    requires forall k :: 0 <= k < j ==> bs[k].used || bs[k].start < from
    requires j < |bs| ==> !bs[j].used && from <= bs[j].start
    ensures FirstFree(bs, from, end) == if j < |bs| then bs[j].start else end
    decreases j
  {
    if 0 < j {
      assert forall k :: 0 <= k < j - 1 ==> bs[1..][k] == bs[k + 1];
      FirstFreeAt(bs[1..], j - 1, from, end);
    }
  }

  /** Writing data words of a block leaves all headers alone. */
  lemma StoredData(ram: seq<int>, after: seq<int>, bs: seq<Block>, j: nat, end: nat)
    requires Stored(ram, bs, end) && j < |bs| && |after| == |ram|
    requires forall x :: 0 <= x < |ram| && !(bs[j].start + HEADER <= x < bs[j].end) ==> after[x] == ram[x]
    ensures Stored(after, bs, end)
  {
    At(ram, bs, end, j);
    forall i | 0 <= i < |bs|
      ensures Header(after, bs, i)
    {
      At(ram, bs, end, i);
      if i < j {
        Before(bs, end, i, j);
      } else if j < i {
        Before(bs, end, j, i);
      }
    }
    HeadersStored(after, bs, end, |bs|);
  }

  /** Releasing block `i` after changing its flag. */
  lemma DataKeptReleased(bs: seq<Block>, i: nat, first: seq<int>, second: seq<int>, third: seq<int>)
    requires i < |bs| && DataKept(bs, -1, first, second) && DataKept(Flagged(bs, i, false), -1, second, third)
    ensures DataKept(bs, i, first, third)
  {
    forall k | 0 <= k < |bs| && k != i
      ensures SameData(bs, k, first, third)
    {
      KeptBlock(bs, -1, first, second, k);
      KeptBlock(Flagged(bs, i, false), -1, second, third, k);
      SameDataTwice(bs, k, Flagged(bs, i, false), k, first, second, third);
    }
    DataKeptFrom(bs, |bs|, i, first, third);
  }

  /** Splitting block `i` behind `n` words and plugging the hole behind the cut. */
  lemma DataKeptShrunk(
    bs: seq<Block>, i: nat, p: nat, n: nat, r: seq<Block>, first: seq<int>, second: seq<int>, third: seq<int>)
    requires i < |bs| && DataKept(bs, i, first, second) && p == bs[i].start + HEADER
    requires r == Divided(bs, i, bs[i].start + HEADER + n) && DataKept(r, -1, second, third)
    requires SameWords(first, p, second, p, n)
    ensures DataKept(bs, i, first, third)
    ensures SameWords(first, p, third, p, n)
  {
    forall k | 0 <= k < |bs| && k != i
      ensures SameData(bs, k, first, third)
    {
      var l := if k < i then k else k + 1;
      KeptBlock(bs, i, first, second, k);
      KeptBlock(r, -1, second, third, l);
      SameDataTwice(bs, k, r, l, first, second, third);
    }
    KeptBlock(r, -1, second, third, i);
    SameWordsTwice(first, p, second, p, third, p, n, n, n);
    DataKeptFrom(bs, |bs|, i, first, third);
  }

  lemma ShrinkFields(s: State, i: nat, need: nat, split: seq<Block>, bs: seq<Block>, lfree: int, used: int)
    requires i < |s.blocks| && split == Divided(s.blocks, i, s.blocks[i].start + HEADER + need)
    requires bs == Plugged(split, i + 1) && lfree == PlugStart(split, i + 1, s.lfree)
    requires used == s.used - (Room(s.blocks[i]) - need)
    ensures State(bs, lfree, used) == Shrink(s, i, need)
  {
  }

  lemma MallocFields(s: State, bytes: nat, need: nat, size: nat, k: nat, r: State)
    requires Request(bytes, size) == Some(need) && FirstFit(s.blocks, 0, s.lfree, need, size) == Some(k)
    requires r.blocks == Taken(s.blocks, k, need) && r.lfree == NextStart(s, k, need, size)
    requires r.used == s.used + r.blocks[k].end - s.blocks[k].start
    ensures Choice(s, bytes, size) == Some(k) && r == SmallMem.Malloc(s, bytes, size)
  {
  }

  lemma TakenRoom(bs: seq<Block>, c: nat, need: nat)
    requires c < |bs| && Room(bs[c]) >= need
    ensures Room(Taken(bs, c, need)[c]) >= need
  {
  }

  /** The data position of a chosen block. */
  ghost function Place(s: State, choice: Option<nat>): (p: Option<nat>) {
    match choice
    case None => None
    case Some(i) => if i < |s.blocks| then Some(s.blocks[i].start + HEADER) else None
  }

  function Min(a: int, b: int): (r: int)
    ensures r <= a && r <= b && (r == a || r == b)
  {
    if a < b then a else b
  }

  /** Where the data of block `i` are after resizing it. */
  ghost function Resized(s: State, i: nat, bytes: nat, size: nat): (q: Option<nat>)
    requires i < |s.blocks|
  {
    var w := Words(bytes);
    if w > size then None
    else if Room(s.blocks[i]) == w || w + HEADER + MIN_SIZE < Room(s.blocks[i]) then Some(s.blocks[i].start + HEADER)
    else Place(s, Choice(s, bytes, size))
  }

  /** What resizing amounts to in each of its cases. */
  lemma ResizeCases(s: State, i: nat, bytes: nat, size: nat)
    requires i < |s.blocks|
    ensures var w, room := Words(bytes), Room(s.blocks[i]);
            if w > size then Realloc(s, i, bytes, size) == s && Resized(s, i, bytes, size) == None
            else if room == w then
              Realloc(s, i, bytes, size) == s && Resized(s, i, bytes, size) == Some(s.blocks[i].start + HEADER)
            else if w + HEADER + MIN_SIZE < room then
              && Realloc(s, i, bytes, size) == Shrink(s, i, w)
              && Resized(s, i, bytes, size) == Some(s.blocks[i].start + HEADER)
            else
              Realloc(s, i, bytes, size) == Relocated(s, i, bytes, size)
              && Resized(s, i, bytes, size) == Place(s, Choice(s, bytes, size))
  {
  }

  /** Allocating block `c`, copying into it and releasing block `i` leaves all other data alone. */
  lemma DataKeptMoved(
    bs: seq<Block>, i: nat, c: nat, need: nat, first: seq<int>, second: seq<int>, third: seq<int>, fourth: seq<int>)
    requires i < |bs| && c < |bs| && bs[i].used && !bs[c].used
    requires DataKept(bs, -1, first, second)
    requires DataKept(Taken(bs, c, need), c, second, third)
    requires DataKept(Taken(bs, c, need), Shifted(bs, i, c, need), third, fourth)
    ensures DataKept(bs, i, first, fourth)
  {
    var r := Taken(bs, c, need);
    forall k | k != i
      ensures SameData(bs, k, first, fourth)
    {
      if 0 <= k < |bs| && bs[k].used {
        var l := Shifted(bs, k, c, need);
        ShiftedBlock(bs, k, c, need);
        KeptBlock(bs, -1, first, second, k);
        KeptBlock(r, c, second, third, l);
        KeptBlock(r, Shifted(bs, i, c, need), third, fourth, l);
        SameDataTwice(bs, k, r, l, first, second, third);
        SameDataTwice(bs, k, r, l, first, third, fourth);
      }
    }
    DataKeptFrom(bs, |bs|, i, first, fourth);
  }

  /** The words copied from block `i` are in block `c` of the new row at the end. */
  lemma MovedWords(
    bs: seq<Block>, i: nat, p: nat, c: nat, q: nat, need: nat, n: int,
    first: seq<int>, second: seq<int>, third: seq<int>, fourth: seq<int>)
    requires i < |bs| && c < |bs| && bs[i].used && !bs[c].used && n <= Room(bs[i])
    requires n <= Room(Taken(bs, c, need)[c]) && p == bs[i].start + HEADER && q == bs[c].start + HEADER
    requires DataKept(bs, -1, first, second)
    requires SameWords(second, p, third, q, n)
    requires DataKept(Taken(bs, c, need), Shifted(bs, i, c, need), third, fourth)
    ensures SameWords(first, p, fourth, q, n)
  {
    var r := Taken(bs, c, need);
    KeptBlock(bs, -1, first, second, i);
    KeptBlock(r, Shifted(bs, i, c, need), third, fourth, c);
    SameWordsTwice(first, p, second, p, third, q, Room(bs[i]), n, n);
    SameWordsTwice(first, p, third, q, fourth, q, n, Room(r[c]), n);
  }

  lemma {:induction false} CopyStep(start: seq<int>, before: seq<int>, after: seq<int>, p: nat, q: nat, j: nat, n: nat)
    requires n <= j && SameWords(start, p, before, q, n)
    requires p + j < |start| && q + j < |before| && after == before[q + j := start[p + j]]
    ensures SameWords(start, p, after, q, n)
  {
    if n > 0 {
      CopyStep(start, before, after, p, q, j, n - 1);
    }
  }

  lemma CopyData(bs: seq<Block>, c: nat, n: nat, before: seq<int>, after: seq<int>, end: nat)
    requires Tiled(bs, HEADER, end) && c < |bs| && n <= Room(bs[c]) && |before| == |after| == end + HEADER
    requires forall x :: 0 <= x < |before| && !(bs[c].start + HEADER <= x < bs[c].start + HEADER + n)
                         ==> after[x] == before[x]
    ensures DataKept(bs, c, before, after)
  {
    Ordered(bs, HEADER, end);
    forall k | k != c
      ensures SameData(bs, k, before, after)
    {
      if 0 <= k < |bs| {
        var p := bs[k].start + HEADER;
        forall x | 0 <= x < Room(bs[k])
          ensures WordAt(before, p, after, p, x)
        {
          assert if k < c then bs[k].end <= bs[c].start else bs[c].end <= bs[k].start;
        }
        WordsSame(before, p, after, p, Room(bs[k]));
      }
    }
    DataKeptFrom(bs, |bs|, c, before, after);
  }

  /** Once the search is at or past its limit, no block further on fits. */
  lemma NoneBehind(bs: seq<Block>, k: nat, from: nat, need: nat, size: nat)
    requires Tiled(bs, HEADER, size + HEADER) && k <= |bs|
    requires k < |bs| ==> bs[k].start >= size - need
    requires forall j :: 0 <= j < k ==> !Fits(bs[j], from, need, size)
    ensures FirstFit(bs, 0, from, need, size) == None
  {
    forall j | k <= j < |bs|
      ensures !Fits(bs[j], from, need, size)
    {
      if k < j {
        Before(bs, size + HEADER, k, j);
      }
    }
  }

  /** No block before the search start is considered. */
  lemma NoneBefore(bs: seq<Block>, k: nat, from: nat, need: nat, size: nat)
    requires Tiled(bs, HEADER, size + HEADER) && k <= |bs|
    requires from == if k < |bs| then bs[k].start else size + HEADER
    ensures forall j :: 0 <= j < k ==> !Fits(bs[j], from, need, size)
  {
    Ordered(bs, HEADER, size + HEADER);
  }

  // ----- the heap -----

  class Heap {
    const size: nat
    const ram: array<int>
    var lfree: nat
    var usedMem: int
    var maxMem: int
    ghost var blocks: seq<Block>

    ghost function View(): (s: State)
      reads this
    {
      State(blocks, lfree, usedMem)
    }

    ghost predicate Valid()
      reads this, ram
    {
      SmallMem.Valid(View(), size) && Stored(ram[..], blocks, size + HEADER)
    }

    /** The whole heap is one free block, followed by the end header. */
    constructor (words: nat)
      requires words >= MIN_SIZE
      ensures Valid() && fresh(ram) && size == words
      ensures View() == Initial(words) && maxMem == 0
    {
      size := words;
      ram := new int[words + 2 * HEADER];
      lfree, usedMem, maxMem := 0, 0, 0;
      blocks := [Block(0, words + HEADER, false)];
      new;
      ram[0], ram[1], ram[2] := FREE_TAG, size + HEADER, 0;
      ram[size + HEADER], ram[size + HEADER + 1], ram[size + HEADER + 2] := USED_TAG, size + HEADER, size + HEADER;
      InitialValid(words);
    }

    /** Join the free block at `mem` with a free block behind it and one before it. */
    method PlugHoles(mem: nat, ghost k: nat)
      requires Stored(ram[..], blocks, size + HEADER)
      requires k < |blocks| && blocks[k].start == mem && !blocks[k].used
      modifies this`lfree, this`blocks, ram
      ensures Stored(ram[..], blocks, size + HEADER)
      ensures blocks == Plugged(old(blocks), k)
      ensures lfree == PlugStart(old(blocks), k, old(lfree))
      ensures DataKept(old(blocks), -1, old(ram[..]), ram[..])
    {
      PlugNext(mem, k);
      ghost var middle := ram[..];
      PlugPrevious(mem, k);
      if NextFree(old(blocks), k) {
        DataKeptMerged(old(blocks), k, old(ram[..]), middle, ram[..]);
      } else {
        DataKeptPlain(old(blocks), old(ram[..]), middle, ram[..]);
      }
    }

    method PlugNext(mem: nat, ghost k: nat)
      requires Stored(ram[..], blocks, size + HEADER)
      requires k < |blocks| && blocks[k].start == mem && !blocks[k].used
      modifies this`lfree, this`blocks, ram
      ensures Stored(ram[..], blocks, size + HEADER)
      ensures blocks == JoinNext(old(blocks), k)
      ensures lfree == if NextFree(old(blocks), k) then MergedStart(old(blocks), k, old(lfree)) else old(lfree)
      ensures DataKept(old(blocks), -1, old(ram[..]), ram[..])
    {
      NextHeader(ram[..], blocks, size + HEADER, k);
      var nmem := ram[mem + 1];
      if mem != nmem && ram[nmem] == FREE_TAG && nmem != size + HEADER {
        if lfree == nmem {
          lfree := mem;
        }
        Unlink(mem, nmem, k);
      } else {
        DataKeptItself(blocks, -1, ram[..], size + HEADER);
      }
    }

    method PlugPrevious(mem: nat, ghost k: nat)
      requires Stored(ram[..], blocks, size + HEADER)
      requires k < |blocks| && blocks[k].start == mem && !blocks[k].used
      modifies this`lfree, this`blocks, ram
      ensures Stored(ram[..], blocks, size + HEADER)
      ensures blocks == JoinPrevious(old(blocks), k)
      ensures lfree == if PreviousFree(old(blocks), k) then MergedStart(old(blocks), k - 1, old(lfree)) else old(lfree)
      ensures DataKept(old(blocks), -1, old(ram[..]), ram[..])
    {
      PreviousHeader(ram[..], blocks, size + HEADER, k);
      var pmem := ram[mem + 2];
      if pmem != mem && ram[pmem] == FREE_TAG {
        if lfree == mem {
          lfree := pmem;
        }
        Unlink(pmem, mem, k - 1);
      } else {
        DataKeptItself(blocks, -1, ram[..], size + HEADER);
      }
    }

    /** Take the header at `gone` out of the row: the free block before it runs on to the next header. */
    method Unlink(mem: nat, gone: nat, ghost a: nat)
      requires Stored(ram[..], blocks, size + HEADER)
      requires a + 1 < |blocks| && blocks[a].start == mem && blocks[a + 1].start == gone
      requires !blocks[a].used && !blocks[a + 1].used
      modifies this`blocks, ram
      ensures Stored(ram[..], blocks, size + HEADER)
      ensures blocks == Merged(old(blocks), a)
      ensures DataKept(old(blocks), -1, old(ram[..]), ram[..])
    {
      ghost var before, end := ram[..], size + HEADER;
      At(before, blocks, end, a);
      At(before, blocks, end, a + 1);
      WriteMerge(mem, gone, a);
      StoredMerged(before, ram[..], blocks, a, end);
      MergedData(blocks, a, before, ram[..], end);
      blocks := Merged(blocks, a);
    }

    method WriteMerge(mem: nat, gone: nat, ghost a: nat)
      requires a + 1 < |blocks| && blocks[a].start == mem && blocks[a + 1].start == gone
      requires Header(ram[..], blocks, a + 1) && mem + 1 < ram.Length && blocks[a + 1].end + 2 < ram.Length
      requires mem + HEADER <= gone && gone < blocks[a + 1].end
      modifies ram
      ensures MergeWritten(old(ram[..]), ram[..], blocks, a)
    {
      var next := ram[gone + 1];
      ram[mem + 1] := next;
      ram[next + 2] := mem;
    }

    /** Split the block at `ptr` behind `need` words: a used block and a free rest. */
    method SplitAt(ptr: nat, need: nat, ghost k: nat, ghost p: nat)
      requires Stored(ram[..], blocks, size + HEADER) && p == ptr + HEADER
      requires k < |blocks| && blocks[k].start == ptr && need + HEADER <= Room(blocks[k])
      modifies this`blocks, ram
      ensures Stored(ram[..], blocks, size + HEADER)
      ensures blocks == Divided(old(blocks), k, old(blocks)[k].start + HEADER + need)
      ensures DataKept(old(blocks), k, old(ram[..]), ram[..])
      ensures SameWords(old(ram[..]), p, ram[..], p, need)
    {
      ghost var before, bs, end := ram[..], blocks, size + HEADER;
      SplitReady(before, bs, k, end);
      WriteSplit(ptr, ptr + HEADER + need, bs[k]);
      SplitDone(before, ram[..], bs, k, p, need, end);
      blocks := Divided(bs, k, ptr + HEADER + need);
    }

    method WriteHeader(mem: nat, tag: int, next: int, prev: int)
      requires mem + 2 < ram.Length
      modifies ram
      ensures ram[mem] == tag && ram[mem + 1] == next && ram[mem + 2] == prev
      ensures forall x :: 0 <= x < ram.Length && !(mem <= x < mem + HEADER) ==> ram[x] == old(ram[x])
    {
      ram[mem] := tag;
      ram[mem + 1] := next;
      ram[mem + 2] := prev;
    }

    /** The header of the rest, the new link and flag of the block, and the link back to the rest. */
    method WriteSplit(ptr: nat, ptr2: nat, ghost b: Block)
      requires b.start == ptr && ptr + HEADER <= ptr2 && ptr2 + HEADER <= b.end <= size + HEADER
      requires ram.Length == size + 2 * HEADER && ram[ptr + 1] == b.end
      requires b.end == size + HEADER || b.end <= size
      modifies ram
      ensures SplitWritten(old(ram[..]), ram[..], b, ptr2, size + HEADER)
    {
      var next := ram[ptr + 1];
      WriteHeader(ptr2, FREE_TAG, next, ptr);
      ram[ptr + 1] := ptr2;
      ram[ptr] := USED_TAG;
      if next != size + HEADER {
        ram[next + 2] := ptr2;
      }
    }

    /** Use the free block at `ptr`, and move the search start if it was that block. */
    method Take(ptr: nat, need: nat, ghost k: nat)
      requires Stored(ram[..], blocks, size + HEADER)
      requires k < |blocks| && blocks[k].start == ptr && !blocks[k].used && Room(blocks[k]) >= need
      modifies this, ram
      ensures Stored(ram[..], blocks, size + HEADER)
      ensures blocks == Taken(old(blocks), k, need)
      ensures lfree == NextStart(old(View()), k, need, size)
      ensures usedMem == old(usedMem) + blocks[k].end - ptr
      ensures maxMem == if old(maxMem) < usedMem then usedMem else old(maxMem)
      ensures DataKept(old(blocks), -1, old(ram[..]), ram[..])
    {
      UseBlock(ptr, need, k);
      if maxMem < usedMem {
        maxMem := usedMem;
      }
      if ptr == lfree {
        Advance(k);
      }
    }

    method UseBlock(ptr: nat, need: nat, ghost k: nat)
      requires Stored(ram[..], blocks, size + HEADER)
      requires k < |blocks| && blocks[k].start == ptr && !blocks[k].used && Room(blocks[k]) >= need
      modifies this`usedMem, this`blocks, ram
      ensures Stored(ram[..], blocks, size + HEADER)
      ensures blocks == Taken(old(blocks), k, need)
      ensures usedMem == old(usedMem) + blocks[k].end - ptr
      ensures DataKept(old(blocks), -1, old(ram[..]), ram[..])
    {
      At(ram[..], blocks, size + HEADER, k);
      if ram[ptr + 1] - (ptr + HEADER) >= need + HEADER + MIN_SIZE {
        UsePart(ptr, need, k);
        usedMem := usedMem + (need + HEADER);
      } else {
        SetFlag(ptr, true, k);
        usedMem := usedMem + (ram[ptr + 1] - ptr);
      }
    }

    method UsePart(ptr: nat, need: nat, ghost k: nat)
      requires Stored(ram[..], blocks, size + HEADER)
      requires k < |blocks| && blocks[k].start == ptr && !blocks[k].used && Splits(blocks[k], need)
      modifies this`blocks, ram
      ensures Stored(ram[..], blocks, size + HEADER)
      ensures blocks == Taken(old(blocks), k, need) && blocks[k].end == ptr + HEADER + need
      ensures DataKept(old(blocks), -1, old(ram[..]), ram[..])
    {
      ghost var before, bs := ram[..], blocks;
      SplitAt(ptr, need, k, ptr + HEADER);
      DataKeptUnused(bs, k, before, ram[..]);
    }

    method SetFlag(ptr: nat, used: bool, ghost k: nat)
      requires Stored(ram[..], blocks, size + HEADER)
      requires k < |blocks| && blocks[k].start == ptr
      modifies this`blocks, ram
      ensures Stored(ram[..], blocks, size + HEADER)
      ensures blocks == Flagged(old(blocks), k, used) && ptr + 1 < ram.Length && ram[ptr + 1] == blocks[k].end
      ensures DataKept(old(blocks), -1, old(ram[..]), ram[..])
    {
      ghost var before, end := ram[..], size + HEADER;
      At(before, blocks, end, k);
      ram[ptr] := if used then USED_TAG else FREE_TAG;
      StoredFlagged(before, ram[..], blocks, k, used, end);
      FlaggedData(blocks, k, before, ram[..], end);
      blocks := Flagged(blocks, k, used);
    }

    /** Move the search start to the next free block, or to the end. */
    method Advance(ghost k: nat)
      requires Stored(ram[..], blocks, size + HEADER)
      requires k < |blocks| && blocks[k].start == lfree
      modifies this`lfree
      ensures lfree == FirstFree(blocks, old(lfree), size + HEADER)
    {
      ghost var end, j := size + HEADER, k;
      ghost var from := lfree;
      StoredFrame(ram[..], blocks, end, |blocks|);
      Ordered(blocks, HEADER, end);
      while ram[lfree] == USED_TAG && lfree != size + HEADER
        invariant k <= j <= |blocks|
        invariant lfree == if j < |blocks| then blocks[j].start else end
        invariant forall i :: 0 <= i < j ==> blocks[i].used || blocks[i].start < from
        decreases end - lfree
      {
        At(ram[..], blocks, size + HEADER, j);
        lfree := ram[lfree + 1];
        j := j + 1;
      }
      if j < |blocks| {
        At(ram[..], blocks, size + HEADER, j);
      }
      FirstFreeAt(blocks, j, from, end);
    }

    /** Allocate: the position of the data words, or nothing. */
    method Malloc(bytes: nat) returns (p: Option<nat>)
      requires Valid()
      modifies this, ram
      ensures Valid()
      ensures View() == SmallMem.Malloc(old(View()), bytes, size)
      ensures p == Place(old(View()), Choice(old(View()), bytes, size))
      ensures p.Some? ==> exists k: nat :: Handed(p.value, k) && Choice(old(View()), bytes, size) == Some(k)
      ensures DataKept(old(blocks), -1, old(ram[..]), ram[..])
      ensures p.Some? ==> maxMem == if old(maxMem) < usedMem then usedMem else old(maxMem)
      ensures p.None? ==> maxMem == old(maxMem) && ram[..] == old(ram[..])
    {
      ghost var start := StartIndex();
      MallocKeeps(View(), bytes, size);
      ghost var choice := Choice(View(), bytes, size);
      p := Allocate(bytes, start);
      assert p.Some? ==> Handed(p.value, choice.value);
    }

    /** The pointer leads to the data of block `k`, which is used. */
    ghost predicate Handed(p: nat, k: nat)
      reads this
    {
      k < |blocks| && blocks[k].used && p == blocks[k].start + 3
    }

    method Allocate(bytes: nat, ghost start: nat) returns (p: Option<nat>)
      requires Stored(ram[..], blocks, size + HEADER) && StartsAt(start) && size >= MIN_SIZE
      modifies this, ram
      ensures Stored(ram[..], blocks, size + HEADER)
      ensures View() == SmallMem.Malloc(old(View()), bytes, size)
      ensures p == Place(old(View()), Choice(old(View()), bytes, size))
      ensures DataKept(old(blocks), -1, old(ram[..]), ram[..])
      ensures p.Some? ==> maxMem == if old(maxMem) < usedMem then usedMem else old(maxMem)
      ensures p.None? ==> maxMem == old(maxMem) && ram[..] == old(ram[..])
    {
      ghost var s := View();
      var found, need, ptr, k := Pick(bytes, start);
      if !found {
        StoredFrame(ram[..], blocks, size + HEADER, |blocks|);
        DataKeptItself(blocks, -1, ram[..], size + HEADER);
        return None;
      }
      Take(ptr, need, k);
      MallocFields(s, bytes, need, size, k, View());
      return Some(ptr + HEADER);
    }

    /** The words a request takes and the block that serves it, if there is one. */
    method Pick(bytes: nat, ghost start: nat) returns (found: bool, need: nat, ptr: nat, ghost k: nat)
      requires Stored(ram[..], blocks, size + HEADER) && StartsAt(start) && size >= MIN_SIZE
      ensures found <==> Choice(View(), bytes, size).Some?
      ensures found ==> Choice(View(), bytes, size) == Some(k) && Request(bytes, size) == Some(need)
      ensures found ==> k < |blocks| && ptr == blocks[k].start && Fits(blocks[k], lfree, need, size)
    {
      found, need, ptr, k := false, Words(bytes), 0, 0;
      if bytes == 0 || need > size {
        return;
      }
      if need < MIN_SIZE {
        need := MIN_SIZE;
      }
      found, ptr, k := Search(need, start);
    }

    /** The loop over the blocks from the search start to the limit. */
    method Search(need: nat, ghost start: nat) returns (found: bool, ptr: nat, ghost k: nat)
      requires Stored(ram[..], blocks, size + HEADER) && StartsAt(start) && need <= size
      ensures found <==> FirstFit(blocks, 0, lfree, need, size).Some?
      ensures found ==> FirstFit(blocks, 0, lfree, need, size) == Some(k) && ptr == blocks[k].start
    {
      k := start;
      StoredFrame(ram[..], blocks, size + HEADER, |blocks|);
      NoneBefore(blocks, k, lfree, need, size);
      ptr, found := lfree, false;
      while !found && ptr < size - need
        invariant 0 <= k <= |blocks| && ptr == (if k < |blocks| then blocks[k].start else size + HEADER)
        invariant lfree <= ptr && forall j :: 0 <= j < k ==> !Fits(blocks[j], lfree, need, size)
        invariant found ==> k < |blocks| && Fits(blocks[k], lfree, need, size)
        decreases !found, size + HEADER - ptr
      {
        At(ram[..], blocks, size + HEADER, k);
        if ram[ptr] == FREE_TAG && ram[ptr + 1] - (ptr + HEADER) >= need {
          found := true;
        } else {
          ptr := ram[ptr + 1];
          k := k + 1;
        }
      }
      if !found {
        NoneBehind(blocks, k, lfree, need, size);
      }
    }

    /** Release a live block; nothing happens without one, or for a pointer behind the heap. */
    method Free(p: Option<nat>)
      requires Valid()
      requires p.Some? && p.value < size + HEADER ==> p.value >= HEADER && IndexOf(blocks, p.value - HEADER).Some?
      modifies this, ram
      ensures Valid() && maxMem == old(maxMem)
      ensures p.None? || p.value >= size + HEADER ==> View() == old(View()) && ram[..] == old(ram[..])
      ensures p.Some? && p.value < size + HEADER ==>
                var k := IndexOf(old(blocks), p.value - HEADER).value;
                View() == SmallMem.Free(old(View()), k) && DataKept(old(blocks), k, old(ram[..]), ram[..])
    {
      if p.Some? && p.value < size + HEADER {
        ghost var k := IndexOf(blocks, p.value - HEADER).value;
        FreeKeeps(View(), k, size);
        Release(p.value - HEADER, k);
      }
    }

    method Release(mem: nat, ghost k: nat)
      requires Stored(ram[..], blocks, size + HEADER)
      requires k < |blocks| && blocks[k].start == mem && blocks[k].used
      modifies this`lfree, this`usedMem, this`blocks, ram
      ensures Stored(ram[..], blocks, size + HEADER)
      ensures View() == SmallMem.Free(old(View()), k)
      ensures DataKept(old(blocks), k, old(ram[..]), ram[..])
    {
      ghost var bs, before := blocks, ram[..];
      SetFlag(mem, false, k);
      if mem < lfree {
        lfree := mem;
      }
      usedMem := usedMem - (ram[mem + 1] - mem);
      ghost var middle := ram[..];
      PlugHoles(mem, k);
      DataKeptReleased(bs, k, before, middle, ram[..]);
    }

    /**
     Resize a live block, in place or by moving it. The block it returns holds the words
     of the old one, up to the shorter of the two lengths; no other live data changes.
     */
    method ReallocLive(p: nat, bytes: nat) returns (q: Option<nat>)
      requires Valid()
      requires p >= HEADER && IndexOf(blocks, p - HEADER).Some?
      modifies this, ram
      ensures Valid()
      ensures View() == SmallMem.Realloc(old(View()), IndexOf(old(blocks), p - HEADER).value, bytes, size)
      ensures q == Resized(old(View()), IndexOf(old(blocks), p - HEADER).value, bytes, size)
      ensures q.Some? ==>
                SameWords(old(ram[..]), p, ram[..], q.value,
                          Min(Room(old(blocks)[IndexOf(old(blocks), p - HEADER).value]), Words(bytes)))
      ensures DataKept(old(blocks), IndexOf(old(blocks), p - HEADER).value, old(ram[..]), ram[..])
    {
      ghost var i, start := IndexOf(blocks, p - HEADER).value, StartIndex();
      ReallocKeeps(View(), i, bytes, size);
      q := Resize(p, bytes, i, start);
    }

    /** Without a block this is an allocation, and a pointer behind the heap is handed back. */
    method Realloc(p: Option<nat>, bytes: nat) returns (q: Option<nat>)
      requires Valid()
      requires p.Some? && p.value < size + HEADER ==> p.value >= HEADER && IndexOf(blocks, p.value - HEADER).Some?
      modifies this, ram
      ensures Valid()
      ensures p.None? ==>
                && View() == SmallMem.Malloc(old(View()), bytes, size)
                && q == Place(old(View()), Choice(old(View()), bytes, size))
                && DataKept(old(blocks), -1, old(ram[..]), ram[..])
      ensures p.Some? && p.value >= size + HEADER ==>
                View() == old(View()) && ram[..] == old(ram[..]) && q == if Words(bytes) > size then None else p
      ensures p.Some? && p.value < size + HEADER ==>
                var i := IndexOf(old(blocks), p.value - HEADER).value;
                && View() == SmallMem.Realloc(old(View()), i, bytes, size)
                && q == Resized(old(View()), i, bytes, size)
                && (q.Some? ==>
                      SameWords(old(ram[..]), p.value, ram[..], q.value, Min(Room(old(blocks)[i]), Words(bytes))))
                && DataKept(old(blocks), i, old(ram[..]), ram[..])
    {
      if p.None? {
        q := Malloc(bytes);
      } else if p.value >= size + HEADER {
        q := if Words(bytes) > size then None else p;
      } else {
        q := ReallocLive(p.value, bytes);
      }
    }

    method Resize(p: nat, bytes: nat, ghost i: nat, ghost start: nat) returns (q: Option<nat>)
      requires Stored(ram[..], blocks, size + HEADER) && StartsAt(start) && size >= MIN_SIZE
      requires i < |blocks| && blocks[i].used && blocks[i].start + HEADER == p
      modifies this, ram
      ensures Stored(ram[..], blocks, size + HEADER)
      ensures View() == SmallMem.Realloc(old(View()), i, bytes, size)
      ensures q == Resized(old(View()), i, bytes, size)
      ensures q.Some? ==> SameWords(old(ram[..]), p, ram[..], q.value, Min(Room(old(blocks)[i]), Words(bytes)))
      ensures DataKept(old(blocks), i, old(ram[..]), ram[..])
    {
      ResizeCases(View(), i, bytes, size);
      At(ram[..], blocks, size + HEADER, i);
      var w := Words(bytes);
      var mem := p - HEADER;
      var room := ram[mem + 1] - mem - HEADER;
      if w > size || room == w {
        DataKeptItself(blocks, i, ram[..], size + HEADER);
        SameWordsItself(ram[..], p, Min(room, w));
        return if w > size then None else Some(p);
      }
      if w + HEADER + MIN_SIZE < room {
        ShrinkAt(p, w, i);
        return Some(p);
      }
      q := Relocate(p, bytes, room, i, start);
    }

    /** Allocate, copy, release. */
    method Relocate(p: nat, bytes: nat, room: nat, ghost i: nat, ghost start: nat) returns (q: Option<nat>)
      requires Stored(ram[..], blocks, size + HEADER) && StartsAt(start) && size >= MIN_SIZE
      requires i < |blocks| && blocks[i].used && blocks[i].start + HEADER == p && room == Room(blocks[i])
      modifies this, ram
      ensures Stored(ram[..], blocks, size + HEADER)
      ensures q == Place(old(View()), Choice(old(View()), bytes, size))
      ensures View() == Relocated(old(View()), i, bytes, size)
      ensures q.Some? ==> SameWords(old(ram[..]), p, ram[..], q.value, Min(room, Words(bytes)))
      ensures DataKept(old(blocks), i, old(ram[..]), ram[..])
    {
      ghost var s, first := View(), ram[..];
      StoredFrame(ram[..], blocks, size + HEADER, |blocks|);
      DataKeptItself(blocks, i, ram[..], size + HEADER);
      var w := Words(bytes);
      q := Allocate(bytes, start);
      if q.Some? {
        ghost var c, need := Choice(s, bytes, size).value, Request(bytes, size).value;
        ghost var k, second, m := Shifted(s.blocks, i, c, need), ram[..], View();
        assert m == SmallMem.Malloc(s, bytes, size) && blocks == Taken(s.blocks, c, need);
        ShiftedBlock(s.blocks, i, c, need);
        TakenRoom(s.blocks, c, need);
        var n := Min(room, w);
        Copy(p, q.value, n, k, c);
        ghost var third := ram[..];
        Release(p - HEADER, k);
        assert View() == SmallMem.Free(m, k);
        DataKeptMoved(s.blocks, i, c, need, first, second, third, ram[..]);
        MovedWords(s.blocks, i, p, c, q.value, need, n, first, second, third, ram[..]);
      }
    }

    /** Cut block `i` behind `need` words. */
    method ShrinkAt(p: nat, need: nat, ghost i: nat)
      requires Stored(ram[..], blocks, size + HEADER) && p >= HEADER
      requires i < |blocks| && blocks[i].start == p - HEADER && blocks[i].used && need + HEADER <= Room(blocks[i])
      modifies this`lfree, this`usedMem, this`blocks, ram
      ensures Stored(ram[..], blocks, size + HEADER)
      ensures View() == Shrink(old(View()), i, need)
      ensures DataKept(old(blocks), i, old(ram[..]), ram[..])
      ensures SameWords(old(ram[..]), p, ram[..], p, need)
    {
      ghost var s, before := View(), ram[..];
      var mem := p - HEADER;
      At(ram[..], blocks, size + HEADER, i);
      usedMem := usedMem - (ram[mem + 1] - mem - HEADER - need);
      assert usedMem == s.used - (Room(s.blocks[i]) - need);
      SplitAt(mem, need, i, p);
      ghost var middle, split := ram[..], blocks;
      assert split == Divided(s.blocks, i, s.blocks[i].start + HEADER + need);
      assert DataKept(s.blocks, i, before, middle) && SameWords(before, p, middle, p, need);
      PlugHoles(mem + HEADER + need, i + 1);
      assert DataKept(split, -1, middle, ram[..]);
      ShrinkFields(s, i, need, split, blocks, lfree, usedMem);
      DataKeptShrunk(s.blocks, i, p, need, split, before, middle, ram[..]);
    }

    method Copy(p: nat, q: nat, n: nat, ghost k: nat, ghost c: nat)
      requires Stored(ram[..], blocks, size + HEADER)
      requires k < |blocks| && blocks[k].start + HEADER == p && n <= Room(blocks[k])
      requires c < |blocks| && blocks[c].start + HEADER == q && n <= Room(blocks[c])
      requires k != c
      modifies ram
      ensures Stored(ram[..], blocks, size + HEADER)
      ensures SameWords(old(ram[..]), p, ram[..], q, n)
      ensures DataKept(blocks, c, old(ram[..]), ram[..])
    {
      StoredFrame(ram[..], blocks, size + HEADER, |blocks|);
      Ordered(blocks, HEADER, size + HEADER);
      CopyWords(p, q, n);
      StoredData(old(ram[..]), ram[..], blocks, c, size + HEADER);
      CopyData(blocks, c, n, old(ram[..]), ram[..], size + HEADER);
    }

    method CopyWords(p: nat, q: nat, n: nat)
      requires p + n <= ram.Length && q + n <= ram.Length && (p + n <= q || q + n <= p)
      modifies ram
      ensures forall x :: 0 <= x < ram.Length && !(q <= x < q + n) ==> ram[x] == old(ram[x])
      ensures SameWords(old(ram[..]), p, ram[..], q, n)
    {
      var j := 0;
      while j < n
        invariant 0 <= j <= n
        invariant forall x :: 0 <= x < ram.Length && !(q <= x < q + j) ==> ram[x] == old(ram[x])
        invariant SameWords(old(ram[..]), p, ram[..], q, j)
      {
        ghost var before := ram[..];
        ram[q + j] := ram[p + j];
        CopyStep(old(ram[..]), before, ram[..], p, q, j, j);
        j := j + 1;
      }
    }

    /** The search starts at block `k`, or at the end. */
    ghost predicate StartsAt(k: nat)
      reads this
    {
      k <= |blocks| && lfree == if k < |blocks| then blocks[k].start else size + HEADER
    }

    /** The index of the block where the search starts. */
    ghost function StartIndex(): (k: nat)
      requires Valid()
      reads this, ram
      ensures StartsAt(k)
    {
      if lfree == size + HEADER then |blocks|
      else
        var k :| 0 <= k < |blocks| && !blocks[k].used && blocks[k].start == lfree;
        k
    }
  }
}
