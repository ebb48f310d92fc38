/** The page allocator: an address-ordered list of runs of free pages. */
module PageList {
  import opened Options

  /** Runs of free pages; pages are numbered. */
  datatype Runs = Nil | Run(start: nat, pages: nat, rest: Runs)

  /** Ascending, non-empty runs from page `low` on, no two of which touch. */
  predicate Canonical(list: Runs, low: nat) {
    match list
    case Nil => true
    case Run(start, pages, rest) => low <= start && pages > 0 && Canonical(rest, start + pages + 1)
  }

  predicate Free(list: Runs, p: int) {
    match list
    case Nil => false
    case Run(start, pages, rest) => start <= p < start + pages || Free(rest, p)
  }

  predicate Within(p: int, at: nat, n: nat) {
    at <= p < at + n
  }

  /** The lowest run that is long enough gives its first pages. */
  function Alloc(list: Runs, n: nat): (r: (Option<nat>, Runs)) {
    match list
    case Nil => (None, Nil)
    case Run(start, pages, rest) =>
      if pages > n then (Some(start), Run(start + n, pages - n, rest))
      else if pages == n then (Some(start), rest)
      else
        var (got, left) := Alloc(rest, n);
        (got, Run(start, pages, left))
  }

  /** A run that grew upwards swallows the next one if it reaches it. */
  function Grown(start: nat, pages: nat, rest: Runs): (r: Runs) {
    if rest.Run? && start + pages == rest.start then Run(start, pages + rest.pages, rest.rest)
    else Run(start, pages, rest)
  }

  function Release(list: Runs, at: nat, n: nat): (r: Runs) {
    match list
    case Nil => Run(at, n, Nil)
    case Run(start, pages, rest) =>
      if start + pages == at then Grown(start, pages + n, rest)
      else if start == at + n then Run(at, pages + n, rest)
      else if start > at + n then Run(at, n, list)
      else Run(start, pages, Release(rest, at, n))
  }

  // ----- one list for one set of free pages -----

  lemma {:induction false} CanonicalBounds(list: Runs, low: nat, p: int)
    requires Canonical(list, low)
    ensures Free(list, p) ==> low <= p
  {
    if list.Run? {
      CanonicalBounds(list.rest, list.start + list.pages + 1, p);
    }
  }

  lemma {:induction false} CanonicalLower(list: Runs, low: nat, lower: nat)
    requires Canonical(list, low) && lower <= low
    ensures Canonical(list, lower)
  {
  }

  ghost predicate SamePages(a: Runs, b: Runs) {
    forall p :: Free(a, p) <==> Free(b, p)
  }

  /** The first run is the pages up to the first page that is not free. */
  lemma FirstRun(list: Runs, low: nat)
    requires Canonical(list, low) && list.Run?
    ensures Free(list, list.start) && !Free(list, list.start + list.pages)
    ensures forall p :: Free(list, p) ==> list.start <= p
  {
    CanonicalBounds(list.rest, list.start + list.pages + 1, list.start + list.pages);
    forall p | Free(list, p)
      ensures list.start <= p
    {
      CanonicalBounds(list.rest, list.start + list.pages + 1, p);
    }
  }

  lemma SameFirst(a: Runs, b: Runs, low: nat)
    requires Canonical(a, low) && Canonical(b, low) && SamePages(a, b) && a.Run? && b.Run?
    ensures a.start == b.start && a.pages == b.pages && SamePages(a.rest, b.rest)
  {
    FirstRun(a, low);
    FirstRun(b, low);
    assert a.start == b.start;
    assert Free(b, a.start + a.pages) == Free(a, a.start + a.pages);
    assert Free(a, b.start + b.pages) == Free(b, b.start + b.pages);
    assert a.pages < b.pages ==> Free(b, a.start + a.pages);
    assert b.pages < a.pages ==> Free(a, b.start + b.pages);
    forall p
      ensures Free(a.rest, p) == Free(b.rest, p)
    {
      assert Free(a, p) == Free(b, p);
      RestAbove(a, low, p);
      RestAbove(b, low, p);
    }
  }

  lemma RestAbove(list: Runs, low: nat, p: int)
    requires Canonical(list, low) && list.Run?
    ensures Free(list.rest, p) <==> Free(list, p) && !(list.start <= p < list.start + list.pages)
  {
    CanonicalBounds(list.rest, list.start + list.pages + 1, p);
  }

  /** The free pages determine the list. */
  lemma {:induction false} CanonicalUnique(a: Runs, b: Runs, low: nat)
    requires Canonical(a, low) && Canonical(b, low) && SamePages(a, b)
    ensures a == b
    decreases a
  {
    assert a.Run? ==> Free(a, a.start);
    assert b.Run? ==> Free(b, b.start);
    if a.Run? && b.Run? {
      SameFirst(a, b, low);
      CanonicalUnique(a.rest, b.rest, a.start + a.pages + 1);
    }
  }

  // ----- what the operations do to the set of free pages -----

  lemma {:induction false} AllocPages(list: Runs, n: nat, low: nat)
    requires Canonical(list, low) && n > 0
    ensures Canonical(Alloc(list, n).1, low)
    ensures Alloc(list, n).0.None? ==> Alloc(list, n).1 == list
    ensures Alloc(list, n).0.Some? ==>
              forall p :: Free(Alloc(list, n).1, p) <==> Free(list, p) && !Within(p, Alloc(list, n).0.value, n)
    ensures Alloc(list, n).0.Some? ==> forall p :: Within(p, Alloc(list, n).0.value, n) ==> Free(list, p)
  {
    if list.Run? {
      var rest := list.rest;
      if list.pages >= n {
        if list.pages == n {
          CanonicalLower(rest, list.start + list.pages + 1, low);
        }
        forall p
          ensures Free(Alloc(list, n).1, p) <==> Free(list, p) && !Within(p, list.start, n)
        {
          RestAbove(list, low, p);
        }
      } else {
        AllocPages(rest, n, list.start + list.pages + 1);
        if Alloc(rest, n).0.Some? {
          var at := Alloc(rest, n).0.value;
          assert Within(at, at, n);
          CanonicalBounds(rest, list.start + list.pages + 1, at);
        }
      }
    }
  }

  /** None of these pages is free. */
  ghost predicate Taken(list: Runs, at: nat, n: nat) {
    forall p :: Within(p, at, n) ==> !Free(list, p)
  }

  lemma {:induction false} ReleasePages(list: Runs, at: nat, n: nat, low: nat)
    requires Canonical(list, low) && n > 0 && low <= at && Taken(list, at, n)
    ensures Canonical(Release(list, at, n), low)
    ensures forall p :: Free(Release(list, at, n), p) <==> Free(list, p) || Within(p, at, n)
  {
    if list.Run? {
      var start, pages, rest := list.start, list.pages, list.rest;
      assert Within(at, at, n) && Within(at + n - 1, at, n);
      assert Taken(rest, at, n);
      if start + pages == at {
        forall p | start <= p < start + pages + n
          ensures !Free(rest, p)
        {
          CanonicalBounds(rest, start + pages + 1, p);
          assert Within(p, at, n) == (p >= at);
        }
        GrownPages(start, pages + n, rest, low, start + pages + 1);
      } else if start == at + n || start > at + n {
      } else {
        assert !(start <= at < start + pages) && !(start <= at + n - 1 < start + pages);
        assert Within(start, at, n) == (at <= start < at + n);
        ReleasePages(rest, at, n, start + pages + 1);
      }
    }
  }

  lemma GrownPages(start: nat, pages: nat, rest: Runs, low: nat, above: nat)
    requires Canonical(rest, above) && low <= start && pages > 0
    requires forall p :: start <= p < start + pages ==> !Free(rest, p)
    requires start <= above <= start + pages
    ensures Canonical(Grown(start, pages, rest), low)
    ensures forall p :: Free(Grown(start, pages, rest), p) <==> start <= p < start + pages || Free(rest, p)
  {
    if rest.Run? {
      assert Free(rest, rest.start);
    }
  }

  // ----- first fit, inverse, commutation -----

  /** A run of at least `n` pages starts at page `at`. */
  predicate Fits(list: Runs, at: nat, n: nat) {
    list.Run? && ((list.start == at && list.pages >= n) || Fits(list.rest, at, n))
  }

  /** Allocation takes the lowest run that is long enough, and fails exactly when there is none. */
  lemma {:induction false} AllocLowest(list: Runs, n: nat, low: nat)
    requires Canonical(list, low) && n > 0
    ensures match Alloc(list, n).0
            case None => forall at :: !Fits(list, at, n)
            case Some(got) => Fits(list, got, n) && forall at :: Fits(list, at, n) ==> got <= at
  {
    if list.Run? {
      FitsAbove(list.rest, list.start + list.pages + 1, n);
      if list.pages < n {
        AllocLowest(list.rest, n, list.start + list.pages + 1);
      }
    }
  }

  lemma {:induction false} FitsAbove(list: Runs, low: nat, n: nat)
    requires Canonical(list, low)
    ensures forall at :: Fits(list, at, n) ==> low <= at
  {
    if list.Run? {
      FitsAbove(list.rest, list.start + list.pages + 1, n);
    }
  }

  /** Giving back what was just allocated restores the list. */
  lemma ReleaseUndoesAlloc(list: Runs, n: nat, low: nat)
    requires Canonical(list, low) && n > 0 && Alloc(list, n).0.Some?
    ensures Release(Alloc(list, n).1, Alloc(list, n).0.value, n) == list
  {
    var at, left := Alloc(list, n).0.value, Alloc(list, n).1;
    AllocPages(list, n, low);
    assert Within(at, at, n);
    CanonicalBounds(list, low, at);
    ReleasePages(left, at, n, low);
    CanonicalUnique(Release(left, at, n), list, low);
  }

  lemma ReleasedTaken(list: Runs, at: nat, n: nat, at': nat, n': nat, low: nat)
    requires Canonical(list, low) && n > 0 && n' > 0 && low <= at && low <= at'
    requires Taken(list, at, n) && Taken(list, at', n') && (at + n <= at' || at' + n' <= at)
    ensures Canonical(Release(list, at, n), low) && Taken(Release(list, at, n), at', n')
  {
    ReleasePages(list, at, n, low);
  }

  /** The order in which disjoint ranges are given back does not matter. */
  lemma ReleasesCommute(list: Runs, at: nat, n: nat, at': nat, n': nat, low: nat)
    requires Canonical(list, low) && n > 0 && n' > 0 && low <= at && low <= at'
    requires Taken(list, at, n) && Taken(list, at', n') && (at + n <= at' || at' + n' <= at)
    ensures Release(Release(list, at, n), at', n') == Release(Release(list, at', n'), at, n)
  {
    var a, b := Release(list, at, n), Release(list, at', n');
    ReleasedTaken(list, at, n, at', n', low);
    ReleasedTaken(list, at', n', at, n, low);
    ReleasePages(list, at, n, low);
    ReleasePages(list, at', n', low);
    ReleasePages(a, at', n', low);
    ReleasePages(b, at, n, low);
    CanonicalUnique(Release(a, at', n'), Release(b, at, n), low);
  }

  // ----- whole runs -----

  /** Ranges that callers hold, and the free list. */
  datatype Heap = Heap(list: Runs, held: set<(nat, nat)>)

  datatype Call = PageAlloc(n: nat) | PageFree(at: nat, n: nat)

  function Step(h: Heap, call: Call): (r: Heap) {
    match call
    case PageAlloc(n) =>
      if n == 0 || Alloc(h.list, n).0.None? then h
      else Heap(Alloc(h.list, n).1, h.held + {(Alloc(h.list, n).0.value, n)})
    case PageFree(at, n) =>
      if (at, n) in h.held then Heap(Release(h.list, at, n), h.held - {(at, n)}) else h
  }

  ghost predicate Apart(x: (nat, nat), y: (nat, nat)) {
    x.0 + x.1 <= y.0 || y.0 + y.1 <= x.0
  }

  /** The list is canonical, held ranges are not free and do not overlap, and no page of the heap is lost. */
  ghost predicate Valid(h: Heap, size: nat) {
    && Canonical(h.list, 0)
    && (forall x :: x in h.held ==> x.1 > 0 && Taken(h.list, x.0, x.1))
    && (forall x, y :: x in h.held && y in h.held && x != y ==> Apart(x, y))
    && (forall p :: Free(h.list, p) || Held(h, p) <==> 0 <= p < size)
  }

  ghost predicate Held(h: Heap, p: int) {
    exists x :: x in h.held && Within(p, x.0, x.1)
  }

  lemma AllocKeeps(h: Heap, n: nat, size: nat)
    requires Valid(h, size) && n > 0
    ensures Valid(Step(h, PageAlloc(n)), size)
  {
    AllocPages(h.list, n, 0);
    if Alloc(h.list, n).0.Some? {
      var r, got := Step(h, PageAlloc(n)), (Alloc(h.list, n).0.value, n);
      forall x | x in h.held
        ensures Apart(x, got)
      {
        assert Within(x.0, x.0, x.1) && Within(got.0, got.0, n);
      }
      forall p
        ensures Held(r, p) <==> Held(h, p) || Within(p, got.0, n)
      {
        assert got in r.held;
      }
    }
  }

  lemma FreeKeeps(h: Heap, at: nat, n: nat, size: nat)
    requires Valid(h, size) && (at, n) in h.held
    ensures Valid(Step(h, PageFree(at, n)), size)
  {
    var r, x := Step(h, PageFree(at, n)), (at, n);
    ReleasePages(h.list, at, n, 0);
    forall p
      ensures Held(h, p) <==> Held(r, p) || Within(p, at, n)
    {
      assert x in h.held;
    }
    forall y | y in r.held
      ensures Taken(r.list, y.0, y.1)
    {
      assert Apart(x, y);
    }
  }

  function RunCalls(h: Heap, calls: seq<Call>): (r: Heap)
    decreases |calls|
  {
    if calls == [] then h else RunCalls(Step(h, calls[0]), calls[1..])
  }

  /** A run makes every one of its calls, the last one last. */
  lemma {:induction false} RunSteps(h: Heap, calls: seq<Call>, last: Call)
    ensures RunCalls(h, []) == h && RunCalls(h, calls + [last]) == Step(RunCalls(h, calls), last)
    decreases |calls|
  {
    assert [last][1..] == [];
    if calls == [] {
      assert calls + [last] == [last];
    } else {
      RunSteps(Step(h, calls[0]), calls[1..], last);
      assert (calls + [last])[1..] == calls[1..] + [last];
    }
  }

  /** Every heap that calls can reach is canonical and loses no page. */
  lemma {:induction false} RunKeeps(h: Heap, calls: seq<Call>, size: nat)
    requires Valid(h, size)
    ensures Valid(RunCalls(h, calls), size)
    decreases |calls|
  {
    if calls != [] {
      match calls[0] {
        case PageAlloc(n) =>
          if n > 0 {
            AllocKeeps(h, n, size);
          }
        case PageFree(at, n) =>
          if (at, n) in h.held {
            FreeKeeps(h, at, n, size);
          }
      }
      RunKeeps(Step(h, calls[0]), calls[1..], size);
    }
  }
}
