/**
 A mutex with priority inheritance. A thread record carries its base priority; the
 priorities threads run at are part of the state.
 */
module Mutex {
  import opened Options
  import opened Lists
  import opened WaitList

  const NO_PRIORITY: nat := 0xff

  /**
   `current` holds the priorities that differ from the base by a change of priority;
   `since` and `clock` number the suspensions in the order they happen.
   */
  datatype State = State(
    value: nat, owner: Option<Thread>, original: nat, hold: nat, waiting: seq<Thread>,
    current: map<Thread, nat>, since: map<Thread, nat>, clock: nat)

  datatype Event = Take(t: Thread, time: int) | Release(t: Thread) | Expire(t: Thread)

  function Current(s: State, t: Thread): (p: nat) {
    if t in s.current then s.current[t] else t.priority
  }

  function Initial(): (s: State) {
    State(1, None, NO_PRIORITY, 0, [], map[], map[], 0)
  }

  /** The counter is one byte wide. */
  function Increment(hold: nat): (r: nat)
    ensures hold < 255 ==> r == hold + 1
  {
    (hold + 1) % 256
  }

  /** Lend the owner the priority of a more urgent thread and suspend that thread. */
  function Suspended(s: State, t: Thread, owner: Thread): (r: State) {
    s.(current := if Current(s, t) < Current(s, owner) then s.current[owner := Current(s, t)] else s.current,
       waiting := Enqueued(s.waiting, t, Prio), since := s.since[t := s.clock], clock := s.clock + 1)
  }

  function AfterTake(s: State, t: Thread, time: int): (r: State) {
    if s.owner == Some(t) then s.(hold := Increment(s.hold))
    else if s.value > 0 then
      s.(value := s.value - 1, owner := Some(t), original := Current(s, t), hold := Increment(s.hold))
    else if time == 0 || s.owner.None? then s
    else Suspended(s, t, s.owner.value)
  }

  /** The owner goes back to its priority and the first waiting thread owns the mutex. */
  function Released(s: State, t: Thread): (r: State) {
    var current := if s.original != Current(s, t) then s.current[t := s.original] else s.current;
    if s.waiting != [] then
      var next := s.waiting[0];
      s.(current := current, owner := Some(next), original := Current(s.(current := current), next), hold := 1,
         waiting := s.waiting[1..])
    else s.(current := current, owner := None, original := NO_PRIORITY, hold := 0, value := s.value + 1)
  }

  function AfterRelease(s: State, t: Thread): (r: State) {
    if s.owner != Some(t) then s
    else if s.hold == 1 then Released(s, t)
    else s.(hold := (s.hold - 1) % 256)
  }

  /** One event; a suspended thread makes no call, and only a suspended one can time out. */
  function Step(s: State, e: Event): (r: State) {
    match e
    case Take(t, time) => if t in s.waiting then s else AfterTake(s, t, time)
    case Release(t) => if t in s.waiting then s else AfterRelease(s, t)
    case Expire(t) => s.(waiting := Without(s.waiting, t))
  }

  function Run(s: State, events: seq<Event>): (r: State)
    decreases |events|
  {
    if events == [] then s else Run(Step(s, events[0]), events[1..])
  }

  // ----- what every run keeps -----

  /** Value, owner and hold count say the same thing, and only an owned mutex is waited for. */
  ghost predicate Consistent(s: State) {
    && (s.value == 1 <==> s.owner.None?) && (s.value == 0 || s.value == 1)
    && (s.hold == 0 <==> s.owner.None?) && s.hold < 256
    && (s.waiting != [] ==> s.owner.Some?)
    && (s.owner.Some? ==> s.owner.value !in s.waiting)
    && Nodup(s.waiting)
  }

  /** The owner is as urgent as every waiting thread, all others run at their base priority. */
  ghost predicate Inherits(s: State) {
    && (forall t :: s.owner != Some(t) ==> Current(s, t) == t.priority)
    && (s.owner.None? ==> s.original == NO_PRIORITY)
    && (s.owner.Some? ==> s.original == s.owner.value.priority && Current(s, s.owner.value) <= s.original)
    && (forall t :: t in s.waiting ==> s.owner.Some? && Current(s, s.owner.value) <= t.priority)
  }

  /** Thread `a` is served before thread `b`: more urgent, or as urgent and suspended earlier. */
  ghost predicate Precedes(since: map<Thread, nat>, a: Thread, b: Thread) {
    && a in since && b in since
    && (a.priority < b.priority || (a.priority == b.priority && since[a] < since[b]))
  }

  ghost predicate InTurn(since: map<Thread, nat>, list: seq<Thread>) {
    forall i, j {:trigger Precedes(since, list[i], list[j])} ::
      0 <= i < j < |list| ==> Precedes(since, list[i], list[j])
  }

  ghost predicate Fair(s: State) {
    && (forall t :: t in s.waiting ==> t in s.since && s.since[t] < s.clock)
    && InTurn(s.since, s.waiting)
  }

  ghost predicate Invariant(s: State) {
    Consistent(s) && Inherits(s) && Fair(s)
  }

  /** The owner takes the mutex once more than its counter can hold. */
  predicate Overflows(s: State, e: Event) {
    e.Take? && s.owner == Some(e.t) && s.hold == 255 && e.t !in s.waiting
  }

  lemma SuspendFair(s: State, t: Thread, owner: Thread)
    requires Fair(s) && t !in s.waiting && Sorted(s.waiting)
    ensures Fair(Suspended(s, t, owner))
  {
    var r := Suspended(s, t, owner);
    EnqueuedMembers(s.waiting, t, Prio);
    var k, list := Place(s.waiting, t.priority), s.waiting;
    PlaceAbove(list, t.priority);
    forall x | x in list
      ensures x in r.since && r.since[x] == s.since[x] < r.since[t]
    {
    }
    InsertedInOrder(s, r, list, t, k);
  }

  lemma InsertedInOrder(s: State, r: State, list: seq<Thread>, t: Thread, k: nat)
    requires InTurn(s.since, list)
    requires t in r.since
    requires forall x :: x in list ==> x in s.since && x in r.since && r.since[x] == s.since[x] < r.since[t]
    requires k <= |list| && (forall i :: 0 <= i < k ==> list[i].priority <= t.priority)
    requires forall i :: k <= i < |list| ==> t.priority < list[i].priority
    ensures InTurn(r.since, list[..k] + [t] + list[k..])
  {
    var q := list[..k] + [t] + list[k..];
    forall i, j | 0 <= i < j < |q|
      ensures Precedes(r.since, q[i], q[j])
    {
      var a, b := if i > k then i - 1 else i, if j > k then j - 1 else j;
      if i != k && j != k {
        assert q[i] == list[a] && q[j] == list[b];
        assert Precedes(s.since, list[a], list[b]);
      } else if i == k {
        assert q[j] == list[b];
      } else {
        assert q[i] == list[a];
      }
    }
  }

  lemma FairSorted(s: State)
    requires Fair(s)
    ensures Sorted(s.waiting)
  {
    forall i, j | 0 <= i < j < |s.waiting|
      ensures s.waiting[i].priority <= s.waiting[j].priority
    {
      assert Precedes(s.since, s.waiting[i], s.waiting[j]);
    }
  }

  lemma SuspendKeeps(s: State, t: Thread)
    requires Invariant(s) && t !in s.waiting && s.owner.Some? && s.owner.value != t
    ensures Invariant(Suspended(s, t, s.owner.value))
  {
    var r := Suspended(s, t, s.owner.value);
    FairSorted(s);
    SuspendFair(s, t, s.owner.value);
    EnqueuedMembers(s.waiting, t, Prio);
    assert forall x :: x != s.owner.value ==> Current(r, x) == Current(s, x);
  }

  lemma TakeKeeps(s: State, t: Thread, time: int)
    requires Invariant(s) && t !in s.waiting && !Overflows(s, Take(t, time))
    ensures Invariant(AfterTake(s, t, time))
  {
    var r := AfterTake(s, t, time);
    if s.owner == Some(t) {
      assert forall x :: Current(r, x) == Current(s, x);
    } else if s.value > 0 {
      assert forall x :: Current(r, x) == Current(s, x);
    } else if time != 0 {
      SuspendKeeps(s, t);
    }
  }

  lemma ReleaseFair(s: State, r: State)
    requires Fair(s) && s.waiting != [] && r.waiting == s.waiting[1..] && r.since == s.since && r.clock == s.clock
    ensures Fair(r)
  {
    var q := r.waiting;
    forall i, j | 0 <= i < j < |q|
      ensures Precedes(r.since, q[i], q[j])
    {
      assert Precedes(s.since, s.waiting[i + 1], s.waiting[j + 1]);
    }
  }

  lemma ReleasedKeeps(s: State, t: Thread)
    requires Invariant(s) && s.owner == Some(t)
    ensures Invariant(Released(s, t))
  {
    var r := Released(s, t);
    assert forall x :: Current(r, x) == x.priority by {
      assert forall x :: x != t ==> Current(r, x) == Current(s, x);
    }
    if s.waiting != [] {
      NodupTail(s.waiting);
      ReleaseFair(s, r);
      assert forall i :: 0 < i < |s.waiting| ==> Precedes(s.since, s.waiting[0], s.waiting[i]);
    }
  }

  lemma ReleaseKeeps(s: State, t: Thread)
    requires Invariant(s)
    ensures Invariant(AfterRelease(s, t))
  {
    if s.owner == Some(t) {
      if s.hold == 1 {
        ReleasedKeeps(s, t);
      } else {
        assert forall x :: Current(AfterRelease(s, t), x) == Current(s, x);
      }
    }
  }

  /** A list in turn by its first thread and the others. */
  lemma TurnFirst(since: map<Thread, nat>, t: Thread, rest: seq<Thread>)
    ensures InTurn(since, [t] + rest) <==> InTurn(since, rest) && forall x :: x in rest ==> Precedes(since, t, x)
  {
    var list := [t] + rest;
    if InTurn(since, list) {
      forall i, j | 0 <= i < j < |rest|
        ensures Precedes(since, rest[i], rest[j])
      {
        assert Precedes(since, list[i + 1], list[j + 1]);
      }
      forall x | x in rest
        ensures Precedes(since, t, x)
      {
        var j :| 0 <= j < |rest| && rest[j] == x;
        assert Precedes(since, list[0], list[j + 1]);
      }
    } else if forall x :: x in rest ==> Precedes(since, t, x) {
      var i, j :| 0 <= i < j < |list| && !Precedes(since, list[i], list[j]);
      assert list[j] == rest[j - 1] && rest[j - 1] in rest;
      assert i > 0 && !Precedes(since, rest[i - 1], rest[j - 1]);
    }
  }

  lemma {:induction false} WithoutFair(since: map<Thread, nat>, t: Thread, list: seq<Thread>)
    requires InTurn(since, list)
    ensures InTurn(since, Without(list, t))
    ensures forall x :: x in Without(list, t) ==> x in list
  {
    if list != [] {
      var rest := list[1..];
      assert list == [list[0]] + rest;
      TurnFirst(since, list[0], rest);
      WithoutFair(since, t, rest);
      TurnFirst(since, list[0], Without(rest, t));
    }
  }

  lemma ExpireKeeps(s: State, t: Thread)
    requires Invariant(s)
    ensures Invariant(Step(s, Expire(t)))
  {
    var r := Step(s, Expire(t));
    WithoutOrder(s.waiting, t);
    WithoutFair(s.since, t, s.waiting);
    NonEmpty(r.waiting, s.waiting);
    assert forall x :: Current(r, x) == Current(s, x);
  }

  /** One step keeps the invariant exactly when it does not take the mutex a 256th time. */
  lemma StepKeeps(s: State, e: Event)
    requires Invariant(s)
    ensures Invariant(Step(s, e)) <==> !Overflows(s, e)
  {
    match e
    case Take(t, time) =>
      if t !in s.waiting && !Overflows(s, e) {
        TakeKeeps(s, t, time);
      }
    case Release(t) =>
      if t !in s.waiting {
        ReleaseKeeps(s, t);
      }
    case Expire(t) => ExpireKeeps(s, t);
  }

  /** No step of the run overflows the counter. */
  ghost predicate Shallow(s: State, events: seq<Event>)
    decreases |events|
  {
    events == [] || (!Overflows(s, events[0]) && Shallow(Step(s, events[0]), events[1..]))
  }

  lemma {:induction false} RunKeeps(s: State, events: seq<Event>)
    requires Invariant(s) && Shallow(s, events)
    ensures Invariant(Run(s, events))
    decreases |events|
  {
    if events != [] {
      StepKeeps(s, events[0]);
      RunKeeps(Step(s, events[0]), events[1..]);
    }
  }

  lemma Reachable(events: seq<Event>)
    requires Shallow(Initial(), events)
    ensures Invariant(Run(Initial(), events))
  {
    RunKeeps(Initial(), events);
  }

  /** A full release puts the old owner back to its base and serves the first thread by urgency, then by age. */
  lemma HandOver(s: State, t: Thread)
    requires Invariant(s) && s.owner == Some(t) && s.hold == 1
    ensures var r := Step(s, Release(t));
            && Current(r, t) == t.priority
            && (s.waiting == [] ==> r.owner == None && r.value == 1)
            && (s.waiting != [] ==>
                  r.owner.Some? && r.hold == 1 && r.owner.value in s.waiting
                  && forall x :: x in s.waiting && x != r.owner.value ==> Precedes(s.since, r.owner.value, x))
  {
    ReleasedKeeps(s, t);
    var r := Released(s, t);
    if s.waiting != [] {
      forall x | x in s.waiting && x != s.waiting[0]
        ensures Precedes(s.since, s.waiting[0], x)
      {
        var j :| 0 <= j < |s.waiting| && s.waiting[j] == x;
        assert Precedes(s.since, s.waiting[0], s.waiting[j]);
      }
    }
  }

  // ----- what each event does -----

  /** A thread that is not the owner and has a waiting time joins those that wait; nothing is given or taken. */
  lemma TakeWaits(s: State, e: Event)
    requires Invariant(s) && Suspends(s, e)
    ensures var r := Step(s, e);
            && Joins(s.waiting, e.t, r.waiting) && r.owner == s.owner && r.hold == s.hold && r.value == s.value
            && r.original == s.original
  {
    FairSorted(s);
    EnqueuedOrder(s.waiting, e.t, Prio);
  }

  /** A free mutex goes to who takes it, the owner takes it once more, and without a waiting time others get nothing. */
  lemma TakeMeans(s: State, t: Thread, time: int)
    requires Invariant(s) && t !in s.waiting
    ensures var r := Step(s, Take(t, time));
            && (s.owner == None ==> r == s.(value := 0, owner := Some(t), original := t.priority, hold := 1))
            && (s.owner == Some(t) ==> r == s.(hold := if s.hold == 255 then 0 else s.hold + 1))
            && (s.owner.Some? && s.owner != Some(t) ==>
                  (time == 0 ==> r == s) && (time != 0 ==> Suspends(s, Take(t, time))))
  {
    assert s.owner != Some(t) ==> Current(s, t) == t.priority;
  }

  /**
   A release by another thread does nothing; the owner counts down; the last release frees the mutex
   or hands it to the thread that waits first.
   */
  lemma ReleaseMeans(s: State, t: Thread)
    requires Invariant(s)
    ensures var r := Step(s, Release(t));
            && (s.owner != Some(t) ==> r == s)
            && (s.owner == Some(t) && s.hold > 1 ==> r == s.(hold := s.hold - 1))
            && (s.owner == Some(t) && s.hold == 1 ==>
                  if s.waiting == [] then r.owner == None && r.value == 1 && r.hold == 0 && r.waiting == []
                  else
                    && s.waiting == [s.waiting[0]] + r.waiting && r.owner == Some(s.waiting[0])
                    && r.value == 0 && r.hold == 1)
  {
  }

  /** A thread that alone waits owns the mutex after the last release. */
  lemma WaiterServed(s: State, t: Thread, u: Thread)
    requires Invariant(s) && s.owner == Some(t) && s.hold == 1 && s.waiting == [u]
    ensures Step(s, Release(t)).owner == Some(u)
  {
    ReleaseMeans(s, t);
  }

  /** A thread whose waiting time is over leaves the list; nothing else changes. */
  lemma ExpireMeans(s: State, t: Thread)
    ensures var r := Step(s, Expire(t));
            Drops(s.waiting, t, r.waiting) && r == s.(waiting := r.waiting)
  {
    WithoutSplits(s.waiting, t);
  }

  // ----- the priority the owner runs at -----

  /** The step suspends its thread on the mutex. */
  predicate Suspends(s: State, e: Event) {
    e.Take? && e.t !in s.waiting && s.owner.Some? && s.owner != Some(e.t) && s.value == 0 && e.time != 0
  }

  ghost predicate OwnerStays(s: State, events: seq<Event>)
    decreases |events|
  {
    events == [] || (Step(s, events[0]).owner == s.owner && OwnerStays(Step(s, events[0]), events[1..]))
  }

  /** The most urgent of priority `p` and the threads that the run suspends. */
  ghost function Lowest(s: State, events: seq<Event>, p: nat): (r: nat)
    decreases |events|
  {
    if events == [] then p
    else
      var e := events[0];
      Lowest(Step(s, e), events[1..], if Suspends(s, e) && e.t.priority < p then e.t.priority else p)
  }

  lemma OwnerStep(s: State, e: Event, o: Thread)
    requires Invariant(s) && s.owner == Some(o) && Step(s, e).owner == s.owner
    ensures Current(Step(s, e), o)
            == if Suspends(s, e) && e.t.priority < Current(s, o) then e.t.priority else Current(s, o)
  {
    if Suspends(s, e) {
      assert Current(s, e.t) == e.t.priority;
    }
  }

  lemma {:induction false} OwnerRaised(s: State, events: seq<Event>, o: Thread)
    requires Invariant(s) && s.owner == Some(o) && Shallow(s, events) && OwnerStays(s, events)
    ensures Current(Run(s, events), o) == Lowest(s, events, Current(s, o))
    decreases |events|
  {
    if events != [] {
      StepKeeps(s, events[0]);
      OwnerStep(s, events[0], o);
      OwnerRaised(Step(s, events[0]), events[1..], o);
    }
  }

  /**
   From the step that made a thread the owner, for as long as it is, it runs at the most urgent of its
   base priority and the priorities of all threads suspended since, also those that have timed out.
   */
  lemma OwnerPriority(s: State, e: Event, events: seq<Event>, o: Thread)
    requires Invariant(s) && !Overflows(s, e) && Step(s, e).owner == Some(o) && s.owner != Some(o)
    requires Shallow(Step(s, e), events) && OwnerStays(Step(s, e), events)
    ensures Current(Run(Step(s, e), events), o) == Lowest(Step(s, e), events, o.priority)
  {
    StepKeeps(s, e);
    OwnerRaised(Step(s, e), events, o);
    if e.Release? && e.t !in s.waiting && s.owner == Some(e.t) {
      HandOver(s, e.t);
    }
    assert Current(s, o) == o.priority;
  }

  /** The most urgent of the owner and those that wait for it. */
  ghost function Deserved(s: State): (p: nat)
    requires s.owner.Some?
  {
    var base := s.owner.value.priority;
    if s.waiting != [] && s.waiting[0].priority < base then s.waiting[0].priority else base
  }

  /** The owner runs at the priority of the most urgent thread that waits, if that is above its own. */
  ghost predicate Right(s: State) {
    s.owner.Some? ==> Current(s, s.owner.value) == Deserved(s)
  }

  /** The thread that raised the owner times out, and no other that waits is as urgent. */
  ghost predicate Strands(s: State, e: Event) {
    && e.Expire? && e.t in s.waiting && s.owner.Some? && e.t.priority < s.owner.value.priority
    && forall x :: x in s.waiting && x != e.t ==> e.t.priority < x.priority
  }

  lemma FirstLeast(s: State)
    requires Fair(s)
    ensures forall x :: x in s.waiting ==> s.waiting[0].priority <= x.priority
  {
    FairSorted(s);
  }

  lemma SuspendRight(s: State, t: Thread, o: Thread)
    requires Invariant(s) && Right(s) && t !in s.waiting && s.owner == Some(o) && o != t
    ensures Right(Suspended(s, t, o))
  {
    var r := Suspended(s, t, o);
    SuspendKeeps(s, t);
    EnqueuedMembers(s.waiting, t, Prio);
    FirstLeast(s);
    FirstLeast(r);
    assert r.waiting[0] in r.waiting && t in r.waiting;
    assert s.waiting != [] ==> s.waiting[0] in r.waiting;
  }

  lemma ExpireRight(s: State, t: Thread)
    requires Invariant(s) && Right(s)
    ensures Right(Step(s, Expire(t))) <==> !Strands(s, Expire(t))
  {
    var r := Step(s, Expire(t));
    ExpireKeeps(s, t);
    WithoutMembers(s.waiting, t);
    FirstLeast(s);
    FirstLeast(r);
    assert r.waiting != [] ==> r.waiting[0] in r.waiting;
    assert s.waiting != [] && s.waiting[0] != t ==> s.waiting[0] in r.waiting;
    assert forall x :: Current(r, x) == Current(s, x);
  }

  /** A step keeps the owner at the priority it deserves unless it is the timeout of the thread that raised it. */
  lemma StepRight(s: State, e: Event)
    requires Invariant(s) && Right(s) && !Overflows(s, e)
    ensures Right(Step(s, e)) <==> !Strands(s, e)
  {
    match e
    case Take(t, time) =>
      if Suspends(s, e) {
        SuspendRight(s, t, s.owner.value);
      } else {
        assert forall x :: Current(Step(s, e), x) == Current(s, x);
      }
    case Release(t) =>
      if t !in s.waiting && s.owner == Some(t) && s.hold == 1 {
        ReleasedRight(s, t);
      }
    case Expire(t) => ExpireRight(s, t);
  }

  lemma ReleasedRight(s: State, t: Thread)
    requires Invariant(s) && s.owner == Some(t)
    ensures Right(Released(s, t))
  {
    ReleasedKeeps(s, t);
    FirstLeast(s);
    var r := Released(s, t);
    assert r.waiting != [] ==> r.waiting[0] in s.waiting;
    assert forall x :: Current(r, x) == x.priority by {
      assert forall x :: x != t ==> Current(r, x) == Current(s, x);
    }
  }

  /** A thread that raised the owner has timed out: nobody waits, and the owner stays raised. */
  lemma StaysRaised(low: Thread, high: Thread)
    requires high.priority < low.priority
    ensures var s := Step(Step(Step(Initial(), Take(low, 0)), Take(high, 1)), Expire(high));
            s.owner == Some(low) && s.waiting == [] && Current(s, low) == high.priority && !Right(s)
  {
    var a := Step(Initial(), Take(low, 0));
    assert a == HeldBy(low, 1);
    var b := Step(a, Take(high, 1));
    assert b.waiting == [high];
    assert Without([high], high) == [];
  }

  /** A recursive take is undone by a release. */
  lemma ReleaseUndoesTake(s: State, t: Thread, time: int)
    requires Invariant(s) && s.owner == Some(t) && s.hold < 255
    ensures Step(Step(s, Take(t, time)), Release(t)) == s
  {
  }

  ghost function Takes(t: Thread, n: nat): (events: seq<Event>) {
    if n == 0 then [] else [Take(t, 0)] + Takes(t, n - 1)
  }

  ghost function HeldBy(t: Thread, hold: nat): (s: State) {
    State(0, Some(t), t.priority, hold, [], map[], map[], 0)
  }

  lemma {:induction false} TakesHold(t: Thread, hold: nat, n: nat)
    requires 0 < hold && hold + n < 256
    ensures Run(HeldBy(t, hold), Takes(t, n)) == HeldBy(t, hold + n)
    ensures Run(HeldBy(t, hold), Takes(t, n + 1)) == HeldBy(t, Increment(hold + n))
    decreases n
  {
    var s := HeldBy(t, hold);
    assert Takes(t, n + 1)[1..] == Takes(t, n);
    if n == 0 {
      assert Step(s, Take(t, 0)) == HeldBy(t, Increment(hold));
      assert Takes(t, 1) == [Take(t, 0)];
    } else {
      assert Takes(t, n)[1..] == Takes(t, n - 1);
      assert Step(s, Take(t, 0)) == HeldBy(t, hold + 1);
      TakesHold(t, hold + 1, n - 1);
    }
  }

  /** Taking the mutex 256 times breaks it: it has an owner and a hold count of zero. */
  lemma OverflowReached(t: Thread)
    ensures Run(Initial(), Takes(t, 256)) == HeldBy(t, 0) && !Invariant(HeldBy(t, 0))
  {
    assert Takes(t, 256)[1..] == Takes(t, 255);
    assert Step(Initial(), Take(t, 0)) == HeldBy(t, 1);
    TakesHold(t, 1, 254);
  }

  // ----- the mutex in place -----

  class MutexObject {
    var value: nat
    var owner: Option<Thread>
    var original: nat
    var hold: nat
    var waiting: seq<Thread>
    var current: map<Thread, nat>
    ghost var since: map<Thread, nat>
    ghost var clock: nat

    ghost function View(): (s: State)
      reads this
    {
      State(value, owner, original, hold, waiting, current, since, clock)
    }

    constructor ()
      ensures View() == Initial()
    {
      value, owner, original, hold := 1, None, NO_PRIORITY, 0;
      waiting, current, since, clock := [], map[], map[], 0;
    }

    function PriorityOf(t: Thread): (p: nat)
      reads this
      ensures p == Current(View(), t)
    {
      if t in current then current[t] else t.priority
    }

    /** Take, wait or fail: whether the call returns with the mutex at once. */
    method Take(t: Thread, time: int) returns (taken: bool)
      requires Invariant(View()) && t !in waiting
      modifies this
      ensures View() == AfterTake(old(View()), t, time)
      ensures taken <==> owner == Some(t)
    {
      if owner == Some(t) {
        hold := (hold + 1) % 256;
        return true;
      }
      if value > 0 {
        value := value - 1;
        owner := Some(t);
        original := PriorityOf(t);
        hold := (hold + 1) % 256;
        return true;
      }
      if time == 0 {
        return false;
      }
      FairSorted(View());
      if PriorityOf(t) < PriorityOf(owner.value) {
        current := current[owner.value := PriorityOf(t)];
      }
      Suspend(t);
      return false;
    }

    /** Find the place by the priorities the threads run at. */
    method Suspend(t: Thread)
      requires PriorityOf(t) == t.priority && forall x :: x in waiting ==> PriorityOf(x) == x.priority
      modifies this`waiting, this`since, this`clock
      ensures waiting == Enqueued(old(waiting), t, Prio)
      ensures since == old(since)[t := old(clock)] && clock == old(clock) + 1
    {
      var n := FindPlace(t);
      waiting := waiting[..n] + [t] + waiting[n..];
      since, clock := since[t := clock], clock + 1;
    }

    method FindPlace(t: Thread) returns (n: nat)
      requires PriorityOf(t) == t.priority && forall x :: x in waiting ==> PriorityOf(x) == x.priority
      ensures n == Place(waiting, t.priority)
    {
      n := 0;
      while n < |waiting| && PriorityOf(t) >= PriorityOf(waiting[n])
        invariant 0 <= n <= |waiting|
        invariant Place(waiting, t.priority) == n + Place(waiting[n..], t.priority)
      {
        assert waiting[n..][1..] == waiting[n + 1..];
        n := n + 1;
      }
    }

    method Release(t: Thread) returns (ok: bool)
      requires Invariant(View()) && t !in waiting
      modifies this
      ensures View() == AfterRelease(old(View()), t)
      ensures ok <==> old(owner) == Some(t)
    {
      if owner != Some(t) {
        return false;
      }
      hold := hold - 1;
      if hold == 0 {
        if original != PriorityOf(t) {
          current := current[t := original];
        }
        if waiting != [] {
          owner := Some(waiting[0]);
          original := PriorityOf(waiting[0]);
          hold := hold + 1;
          waiting := waiting[1..];
        } else {
          value := value + 1;
          owner := None;
          original := NO_PRIORITY;
        }
      }
      ok := true;
    }
  }
}
