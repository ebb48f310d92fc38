/** The page allocator in place: a free run keeps its link and its length in its first page. */
module PageHeap {
  import opened Options
  import opened PageList

  /** The links from `head` on lead through exactly these runs. */
  ghost predicate Linked(next: seq<Option<nat>>, count: seq<nat>, head: Option<nat>, list: Runs)
    requires |next| == |count|
    decreases list
  {
    match list
    case Nil => head == None
    case Run(start, pages, rest) =>
      && head == Some(start) && start < |next| && start + pages <= |next|
      && count[start] == pages && Linked(next, count, next[start], rest)
  }

  /** Runs passed on the way, in order. */
  datatype Passed = Front | Behind(before: Passed, start: nat, pages: nat)

  /** The runs passed and then the rest. */
  ghost function Whole(passed: Passed, rest: Runs): (list: Runs) {
    match passed
    case Front => rest
    case Behind(before, start, pages) => Whole(before, Run(start, pages, rest))
  }

  /** The links from `head` through the runs passed lead to `at`. */
  ghost predicate Leads(next: seq<Option<nat>>, count: seq<nat>, head: Option<nat>, passed: Passed, at: Option<nat>)
    requires |next| == |count|
  {
    match passed
    case Front => head == at
    case Behind(before, start, pages) =>
      && start < |next| && start + pages <= |next|
      && count[start] == pages && next[start] == at && Leads(next, count, head, before, Some(start))
  }

  /** All runs passed start below `limit`, later ones higher. */
  ghost predicate Below(passed: Passed, limit: nat) {
    match passed
    case Front => true
    case Behind(before, start, pages) => start < limit && Below(before, start)
  }

  lemma {:induction false} LeadsFrame(
    next: seq<Option<nat>>, count: seq<nat>, next': seq<Option<nat>>, count': seq<nat>,
    head: Option<nat>, passed: Passed, at: Option<nat>, limit: nat)
    requires |next| == |count| == |next'| == |count'| && Leads(next, count, head, passed, at) && Below(passed, limit)
    requires forall x :: 0 <= x < limit && x < |next| ==> next'[x] == next[x] && count'[x] == count[x]
    ensures Leads(next', count', head, passed, at)
  {
    if passed.Behind? {
      LeadsFrame(next, count, next', count', head, passed.before, Some(passed.start), passed.start);
    }
  }

  lemma {:induction false} LinkedFrame(
    next: seq<Option<nat>>, count: seq<nat>, next': seq<Option<nat>>, count': seq<nat>,
    head: Option<nat>, list: Runs, low: nat)
    requires |next| == |count| == |next'| == |count'| && Linked(next, count, head, list) && Canonical(list, low)
    requires forall x :: low <= x < |next| ==> next'[x] == next[x] && count'[x] == count[x]
    ensures Linked(next', count', head, list)
    decreases list
  {
    if list.Run? {
      LinkedFrame(next, count, next', count', next[list.start], list.rest, list.start + list.pages + 1);
    }
  }

  /** A list in two parts. */
  lemma {:induction false} Joined(
    next: seq<Option<nat>>, count: seq<nat>, head: Option<nat>, passed: Passed, at: Option<nat>, rest: Runs)
    requires |next| == |count| && Leads(next, count, head, passed, at) && Linked(next, count, at, rest)
    ensures Linked(next, count, head, Whole(passed, rest))
    decreases passed
  {
    if passed.Behind? {
      Joined(next, count, head, passed.before, Some(passed.start), Run(passed.start, passed.pages, rest));
    }
  }

  /** A search for `n` pages passes runs that are too short. */
  ghost predicate Short(passed: Passed, n: nat) {
    passed.Behind? ==> passed.pages < n && Short(passed.before, n)
  }

  lemma {:induction false} AllocPast(passed: Passed, rest: Runs, n: nat)
    requires Short(passed, n)
    ensures Alloc(Whole(passed, rest), n) == (Alloc(rest, n).0, Whole(passed, Alloc(rest, n).1))
    decreases passed
  {
    if passed.Behind? {
      AllocPast(passed.before, Run(passed.start, passed.pages, rest), n);
    }
  }

  /** A release of pages from `at` on passes runs that end below them. */
  ghost predicate Under(passed: Passed, at: nat) {
    passed.Behind? ==> passed.start + passed.pages < at && Under(passed.before, at)
  }

  lemma {:induction false} ReleasePast(passed: Passed, rest: Runs, at: nat, n: nat)
    requires Under(passed, at)
    ensures Release(Whole(passed, rest), at, n) == Whole(passed, Release(rest, at, n))
    decreases passed
  {
    if passed.Behind? {
      ReleasePast(passed.before, Run(passed.start, passed.pages, rest), at, n);
    }
  }

  lemma BelowMore(passed: Passed, low: nat, limit: nat)
    requires Below(passed, low) && low <= limit
    ensures Below(passed, limit)
  {
  }

  /** What is left of a list whose first run gives `n` pages. */
  ghost function Given(rest: Runs, n: nat): (r: Runs)
    requires rest.Run? && n <= rest.pages
  {
    if n < rest.pages then Run(rest.start + n, rest.pages - n, rest.rest) else rest.rest
  }

  /** The first run of the rest is the lowest that is long enough. */
  lemma AllocHere(passed: Passed, rest: Runs, n: nat)
    requires Short(passed, n) && rest.Run? && 0 < n <= rest.pages
    ensures Alloc(Whole(passed, rest), n) == (Some(rest.start), Whole(passed, Given(rest, n)))
  {
    AllocPast(passed, rest, n);
  }

  class Pages {
    const size: nat
    const next: array<Option<nat>>
    const count: array<nat>
    var head: Option<nat>
    ghost var list: Runs

    /** A heap whose pages are all free. */
    constructor (size: nat)
      requires size > 0
      ensures Valid() && list == Run(0, size, Nil) && this.size == size && fresh(next) && fresh(count)
    {
      this.size, head, list := size, None, Nil;
      next, count := new Option<nat>[size], new nat[size];
      new;
      PageFree(0, size);
    }

    ghost predicate Shape()
      reads this
    {
      next.Length == count.Length == size
    }

    ghost predicate Valid()
      reads this, next, count
    {
      Shape() && Canonical(list, 0) && Linked(next[..], count[..], head, list)
    }

    /** Put `x` into the link that was followed last. */
    method SetLink(prev: Option<nat>, x: Option<nat>, ghost passed: Passed, ghost at: Option<nat>)
      requires Shape() && Leads(next[..], count[..], head, passed, at)
      requires match prev
               case None => passed == Front
               case Some(p) => passed.Behind? && passed.start == p && Below(passed.before, p)
      modifies this`head, next
      ensures Leads(next[..], count[..], head, passed, x)
      ensures forall y :: 0 <= y < size && prev != Some(y) ==> next[y] == old(next[y])
    {
      match prev
      case None =>
        head := x;
      case Some(p) =>
        ghost var before := next[..];
        next[p] := x;
        LeadsFrame(before, count[..], next[..], count[..], head, passed.before, Some(p), p);
    }

    /** The state of a walk: the runs passed lead to `b`, where the rest of the list starts. */
    ghost predicate Walk(prev: Option<nat>, b: Option<nat>, passed: Passed, rest: Runs, low: nat)
      reads this, next, count
    {
      && Shape() && list == Whole(passed, rest) && Canonical(rest, low) && Below(passed, low)
      && Leads(next[..], count[..], head, passed, b) && Linked(next[..], count[..], b, rest)
      && match prev case None => passed == Front case Some(p) => passed.Behind? && passed.start == p
    }

    /** One step of a walk. */
    lemma WalkOn(prev: Option<nat>, at: nat, passed: Passed, rest: Runs, low: nat)
      requires Walk(prev, Some(at), passed, rest, low)
      ensures rest.Run? && at == rest.start && at < size && count[at] == rest.pages
      ensures Walk(Some(at), next[at], Behind(passed, rest.start, rest.pages), rest.rest, rest.start + rest.pages + 1)
      ensures low <= at && Canonical(rest.rest, low)
    {
      CanonicalLower(rest.rest, rest.start + rest.pages + 1, low);
      BelowMore(passed, low, at);
    }

    /** End a walk with another rest of the list. */
    method Finish(prev: Option<nat>, x: Option<nat>, ghost b: Option<nat>, ghost passed: Passed, ghost low: nat,
                  ghost rest: Runs)
      requires Shape() && Leads(next[..], count[..], head, passed, b) && Below(passed, low)
      requires match prev case None => passed == Front case Some(p) => passed.Behind? && passed.start == p
      requires Linked(next[..], count[..], x, rest) && Canonical(rest, low) && Canonical(Whole(passed, rest), 0)
      modifies this`head, this`list, next
      ensures Valid() && list == Whole(passed, rest)
    {
      ghost var before := next[..];
      SetLink(prev, x, passed, b);
      LinkedFrame(before, count[..], next[..], count[..], x, rest, low);
      Joined(next[..], count[..], head, passed, x, rest);
      list := Whole(passed, rest);
    }

    /** Give the first `n` pages of the run at `at`; the rest of it takes its place in the list. */
    method SplitRun(prev: Option<nat>, at: nat, n: nat, ghost passed: Passed, ghost rest: Runs, ghost low: nat)
      requires Walk(prev, Some(at), passed, rest, low) && rest.Run? && 0 < n < rest.pages
      requires Canonical(Whole(passed, Run(at + n, rest.pages - n, rest.rest)), 0)
      modifies this`head, this`list, next, count
      ensures Valid() && list == Whole(passed, Run(at + n, rest.pages - n, rest.rest))
    {
      ghost var next0, count0 := next[..], count[..];
      var m := at + n;
      next[m], count[m] := next[at], count[at] - n;
      LeadsFrame(next0, count0, next[..], count[..], head, passed, Some(at), low);
      LinkedFrame(next0, count0, next[..], count[..], next0[at], rest.rest, at + rest.pages + 1);
      Finish(prev, Some(m), Some(at), passed, low, Run(m, rest.pages - n, rest.rest));
    }

    /** The run at `at` gives its first `n` pages, or all of them and leaves the list. */
    method TakeRun(prev: Option<nat>, at: nat, n: nat, ghost passed: Passed, ghost rest: Runs, ghost low: nat)
      requires Walk(prev, Some(at), passed, rest, low) && rest.Run? && 0 < n <= rest.pages
      requires Canonical(Whole(passed, Given(rest, n)), 0)
      modifies this`head, this`list, next, count
      ensures Valid() && list == Whole(passed, Given(rest, n))
    {
      WalkOn(prev, at, passed, rest, low);
      if count[at] > n {
        SplitRun(prev, at, n, passed, rest, low);
      } else {
        Finish(prev, next[at], Some(at), passed, low, rest.rest);
      }
    }

    /** The lowest run that is long enough gives its first pages. */
    method PageAlloc(n: nat) returns (r: Option<nat>)
      requires Valid()
      modifies this`head, this`list, next, count
      ensures Valid()
      ensures n == 0 ==> r == None && list == old(list)
      ensures n > 0 ==> (r, list) == Alloc(old(list), n)
    {
      if n == 0 {
        return None;
      }
      AllocPages(list, n, 0);
      var prev: Option<nat>, b := None, head;
      ghost var passed, rest, low: nat := Front, list, 0;
      while b.Some?
        invariant Walk(prev, b, passed, rest, low) && Short(passed, n)
        invariant list == old(list) && Canonical(Alloc(list, n).1, 0) && Canonical(list, 0)
        decreases rest
      {
        var at := b.value;
        WalkOn(prev, at, passed, rest, low);
        if count[at] >= n {
          AllocHere(passed, rest, n);
          TakeRun(prev, at, n, passed, rest, low);
          return Some(at);
        }
        prev, passed := b, Behind(passed, rest.start, rest.pages);
        b, low, rest := next[at], rest.start + rest.pages + 1, rest.rest;
      }
      AllocPast(passed, rest, n);
      Joined(next[..], count[..], head, passed, b, rest);
      return None;
    }

    /** The run at `at` reaches up to the pages given back, and perhaps on to the next run. */
    method GrowRun(at: nat, n: nat, ghost prev: Option<nat>, ghost passed: Passed, ghost rest: Runs, ghost low: nat)
      requires Walk(prev, Some(at), passed, rest, low) && rest.Run? && at + rest.pages + n <= size
      requires Canonical(Whole(passed, Grown(at, rest.pages + n, rest.rest)), 0)
      requires rest.rest.Run? ==> at + rest.pages + n <= rest.rest.start
      modifies this`list, next, count
      ensures Valid() && list == Whole(passed, Grown(at, rest.pages + n, rest.rest))
    {
      ghost var next0, count0 := next[..], count[..];
      ghost var tail := rest.rest;
      WalkOn(prev, at, passed, rest, low);
      assert tail.Run? ==> next[at] == Some(tail.start) && tail.start < size && next[tail.start] == next0[tail.start];
      count[at] := count[at] + n;
      if next[at] == Some(at + count[at]) {
        var b := next[at].value;
        count[at] := count[at] + count[b];
        next[at] := next[b];
        tail := rest.rest.rest;
      }
      LeadsFrame(next0, count0, next[..], count[..], head, passed, Some(at), low);
      ghost var above := if tail == rest.rest then at + rest.pages + 1 else rest.rest.start + rest.rest.pages + 1;
      LinkedFrame(next0, count0, next[..], count[..], next[at], tail, above);
      list := Whole(passed, Grown(at, rest.pages + n, rest.rest));
      Joined(next[..], count[..], head, passed, Some(at), Grown(at, rest.pages + n, rest.rest));
    }

    /** Put a run in front of the rest of the list, or join it with the run it reaches. */
    method PutRun(prev: Option<nat>, b: Option<nat>, at: nat, n: nat, ghost passed: Passed, ghost rest: Runs,
                  ghost low: nat)
      requires Walk(prev, b, passed, rest, low) && low <= at && n > 0 && at + n <= size
      requires rest.Run? ==> at + n <= rest.start
      requires Canonical(Release(rest, at, n), low) && Canonical(Whole(passed, Release(rest, at, n)), 0)
      modifies this`head, this`list, next, count
      ensures Valid() && list == Whole(passed, Release(rest, at, n))
    {
      ghost var next0, count0 := next[..], count[..];
      if b == Some(at + n) {
        next[at], count[at] := next[at + n], count[at + n] + n;
        LinkedFrame(next0, count0, next[..], count[..], next0[at + n], rest.rest, rest.start + rest.pages + 1);
      } else {
        next[at], count[at] := b, n;
        LinkedFrame(next0, count0, next[..], count[..], b, rest, if rest.Run? then rest.start else at + 1);
      }
      LeadsFrame(next0, count0, next[..], count[..], head, passed, b, low);
      Finish(prev, Some(at), b, passed, low, Release(rest, at, n));
    }

    /** Give a range of pages back. */
    method PageFree(at: nat, n: nat)
      requires Valid() && n > 0 && at + n <= size && Taken(list, at, n)
      modifies this`head, this`list, next, count
      ensures Valid() && list == Release(old(list), at, n)
    {
      ReleasePages(list, at, n, 0);
      var prev: Option<nat>, b := None, head;
      ghost var passed, rest, low: nat := Front, list, 0;
      while b.Some?
        invariant Walk(prev, b, passed, rest, low) && Under(passed, at) && low <= at
        invariant list == old(list) && Taken(rest, at, n) && Canonical(Release(list, at, n), 0)
        decreases rest
      {
        ReleasePast(passed, rest, at, n);
        ReleasePages(rest, at, n, low);
        var first := b.value;
        WalkOn(prev, first, passed, rest, low);
        OutsideRun(rest, at, n);
        if first + count[first] == at {
          GrowRun(first, n, prev, passed, rest, low);
          return;
        }
        if first >= at + n {
          break;
        }
        prev, passed := b, Behind(passed, rest.start, rest.pages);
        b, low, rest := next[first], rest.start + rest.pages + 1, rest.rest;
      }
      ReleasePast(passed, rest, at, n);
      ReleasePages(rest, at, n, low);
      PutRun(prev, b, at, n, passed, rest, low);
    }
  }

  lemma OutsideRun(rest: Runs, at: nat, n: nat)
    requires rest.Run? && Taken(rest, at, n) && rest.pages > 0 && n > 0
    ensures rest.start + rest.pages <= at || at + n <= rest.start
    ensures Taken(rest.rest, at, n)
    ensures var tail := rest.rest;
            tail.Run? && tail.pages > 0 ==> tail.start + tail.pages <= at || at + n <= tail.start
  {
    assert Within(at, at, n);
    assert Free(rest, rest.start) && !Within(rest.start, at, n);
    if rest.rest.Run? && rest.rest.pages > 0 {
      var s := rest.rest.start;
      assert Free(rest.rest, s) && !Within(s, at, n);
    }
  }
}
