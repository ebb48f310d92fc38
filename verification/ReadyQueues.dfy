/**
 Threads, ready queues and wait lists. Each step is one stretch with interrupts off, so the
 regions of a call that enables them in between can be interleaved with any other step.
 */
module ReadyQueues {
  import opened Options
  import opened Lists
  import opened PriorityBitmap

  datatype Stat = Created | Ready | Suspended

  /** A thread; `number` and `high` are its bits in the bitmap and `list` the wait list its node is on. */
  datatype Tcb = Tcb(stat: Stat, initial: nat, priority: nat, number: nat, high: nat, list: Option<nat>)

  datatype Kernel = Kernel(
    wide: bool, bitmap: Bitmap, queues: seq<seq<nat>>, threads: map<nat, Tcb>, waits: seq<seq<nat>>,
    current: Option<nat>, locks: nat)

  // ----- what is always true -----

  /** The bits of the thread are those of its priority. */
  predicate Attributes(wide: bool, c: Tcb) {
    c.priority < Levels(wide) && c.number == Number(wide, c.priority) && c.high == High(c.priority)
  }

  /** Queue `p` holds distinct threads that are ready at that priority, and is marked if there are any. */
  ghost predicate QueueOk(k: Kernel, p: nat) {
    p < |k.queues| && |k.queues| == Levels(k.wide) && |k.bitmap.table| == 32 ==>
      && Nodup(k.queues[p]) && (Marked(k.bitmap, k.wide, p) <==> k.queues[p] != [])
      && forall t :: t in k.queues[p] ==> t in k.threads && k.threads[t].stat == Ready && k.threads[t].priority == p
  }

  ghost predicate WaitOk(k: Kernel, l: nat) {
    l < |k.waits| ==>
      && Nodup(k.waits[l])
      && forall t :: t in k.waits[l] ==>
           t in k.threads && k.threads[t].stat == Suspended && k.threads[t].list == Some(l)
  }

  /** A ready thread is in the queue of its priority, a suspended one on at most the wait list it names. */
  ghost predicate ThreadOk(k: Kernel, t: nat) {
    t in k.threads ==>
      var c := k.threads[t];
      && c.initial < Levels(k.wide)
      && (c.stat != Created ==> Attributes(k.wide, c))
      && (c.stat == Ready ==> c.list == None && c.priority < |k.queues| && t in k.queues[c.priority])
      && (c.stat == Created ==> c.list == None)
      && (c.list.Some? ==> c.list.value < |k.waits| && t in k.waits[c.list.value])
  }

  ghost predicate Valid(k: Kernel) {
    && |k.queues| == Levels(k.wide) && Shape(k.bitmap, k.wide)
    && (forall p: nat :: QueueOk(k, p)) && (forall l: nat :: WaitOk(k, l)) && (forall t: nat :: ThreadOk(k, t))
  }

  // ----- the regions -----

  predicate Started(k: Kernel, t: nat) {
    && |k.queues| == Levels(k.wide) && |k.bitmap.table| == 32
    && t in k.threads && k.threads[t].stat != Created && Attributes(k.wide, k.threads[t])
  }

  /** The thread becomes ready, at the end of the queue of its priority. */
  function Insert(k: Kernel, t: nat): (r: Kernel)
    requires Started(k, t)
  {
    var c := k.threads[t];
    k.(threads := k.threads[t := c.(stat := Ready, list := None)],
       queues := k.queues[c.priority := k.queues[c.priority] + [t]],
       bitmap := WithMark(k.bitmap, k.wide, c.number, c.high))
  }

  /** The wait lists after a thread has left the one it was on, if any. */
  function Left(waits: seq<seq<nat>>, list: Option<nat>, t: nat): (r: seq<seq<nat>>) {
    if list.Some? && list.value < |waits| then waits[list.value := Without(waits[list.value], t)] else waits
  }

  /** The node of a thread leaves the list it is on; the bitmap stays. */
  function Unlink(k: Kernel, t: nat): (r: Kernel)
    requires Started(k, t)
  {
    var c := k.threads[t];
    if c.stat == Ready then k.(queues := k.queues[c.priority := Without(k.queues[c.priority], t)])
    else k.(threads := k.threads[t := c.(list := None)], waits := Left(k.waits, c.list, t))
  }

  /** The thread leaves its queue or list, and its queue's bit is cleared if the queue is empty. */
  function Remove(k: Kernel, t: nat): (r: Kernel)
    requires Started(k, t)
  {
    var c, u := k.threads[t], Unlink(k, t);
    u.(threads := k.threads[t := c.(stat := Suspended, list := None)],
       bitmap := if u.queues[c.priority] == [] then WithoutMark(k.bitmap, k.wide, c.number, c.high) else k.bitmap)
  }

  /** A suspended thread goes on a wait list. */
  function Enter(k: Kernel, t: nat, l: nat, i: nat): (r: Kernel)
    requires t in k.threads && l < |k.waits| && i <= |k.waits[l]|
  {
    k.(threads := k.threads[t := k.threads[t].(list := Some(l))],
       waits := k.waits[l := k.waits[l][..i] + [t] + k.waits[l][i..]])
  }

  function Prioritized(wide: bool, c: Tcb, p: nat): (r: Tcb) {
    c.(priority := p, number := Number(wide, p), high := High(p))
  }

  /** Run the first thread of the most urgent queue, unless scheduling is locked. */
  function Scheduled(k: Kernel): (r: Kernel) {
    if k.locks > 0 || |k.bitmap.table| != 32 then k
    else
      var p := Highest(k.bitmap, k.wide);
      if 0 <= p < |k.queues| && k.queues[p] != [] then k.(current := Some(k.queues[p][0])) else k
  }

  // ----- the steps -----

  /**
   `Resume` is the call with interrupts off, `ResumeUnlink` and `ResumeInsert` its two regions
   when they are on; `SuspendAnyway` is the region of a suspension whose test was made earlier.
   A call that schedules when interrupts are on again is its region, and a `Schedule` later.
   */
  datatype Event =
    | Startup(t: nat)
    | Suspend(t: nat)
    | SuspendAnyway(t: nat)
    | SuspendOn(t: nat, l: nat, i: nat)
    | Resume(t: nat)
    | ResumeUnlink(t: nat)
    | ResumeInsert(t: nat)
    | Timeout(t: nat)
    | ChangePriority(t: nat, p: nat)
    | Yield
    | Sleep
    | Schedule
    | Lock
    | Unlock

  predicate HasStat(k: Kernel, t: nat, stat: Stat) {
    Started(k, t) && k.threads[t].stat == stat
  }

  /** What a thread is before it is resumed for the first time. */
  function AfterStartup(k: Kernel, t: nat): (r: Kernel) {
    if t in k.threads && k.threads[t].stat == Created then
      var c := k.threads[t];
      k.(threads := k.threads[t := Prioritized(k.wide, c, c.initial).(stat := Suspended)])
    else k
  }

  function AfterPriority(k: Kernel, t: nat, p: nat): (r: Kernel) {
    if Started(k, t) && p < Levels(k.wide) then
      if k.threads[t].stat == Ready then
        var q := Remove(k, t);
        Insert(q.(threads := q.threads[t := Prioritized(k.wide, q.threads[t], p)]), t)
      else k.(threads := k.threads[t := Prioritized(k.wide, k.threads[t], p)])
    else k
  }

  /** The running thread is not alone in its queue. */
  predicate CanTurn(k: Kernel) {
    k.current.Some? && HasStat(k, k.current.value, Ready) && |k.queues[k.threads[k.current.value].priority]| > 1
  }

  /** The running thread goes to the end of its queue. */
  function AfterYield(k: Kernel): (r: Kernel)
    requires CanTurn(k)
  {
    var t := k.current.value;
    var p := k.threads[t].priority;
    k.(queues := k.queues[p := Without(k.queues[p], t) + [t]])
  }

  /** One step; a step that cannot happen changes nothing. */
  function Step(k: Kernel, e: Event): (r: Kernel) {
    match e
    case Startup(t) => AfterStartup(k, t)
    case Suspend(t) => if HasStat(k, t, Ready) then Remove(k, t) else k
    case SuspendAnyway(t) => if Started(k, t) then Remove(k, t) else k
    case SuspendOn(t, l, i) =>
      if HasStat(k, t, Ready) && l < |k.waits| && i <= |k.waits[l]| then Enter(Remove(k, t), t, l, i) else k
    case Resume(t) => if HasStat(k, t, Suspended) then Insert(Unlink(k, t), t) else k
    case ResumeUnlink(t) => if Started(k, t) then Unlink(k, t) else k
    case ResumeInsert(t) => if Started(k, t) then Insert(k, t) else k
    case Timeout(t) => if HasStat(k, t, Suspended) then Scheduled(Insert(Unlink(k, t), t)) else k
    case ChangePriority(t, p) => AfterPriority(k, t, p)
    case Yield => if CanTurn(k) then AfterYield(k) else k
    case Sleep => if k.current.Some? && HasStat(k, k.current.value, Ready) then Remove(k, k.current.value) else k
    case Schedule => Scheduled(k)
    case Lock => k.(locks := k.locks + 1)
    case Unlock => k.(locks := if k.locks > 1 then k.locks - 1 else 0)
  }

  function Run(k: Kernel, events: seq<Event>): (r: Kernel)
    decreases |events|
  {
    if events == [] then k else Run(Step(k, events[0]), events[1..])
  }

  /** No thread is ready and nothing is marked. */
  function Initial(wide: bool, created: map<nat, nat>, lists: nat): (k: Kernel) {
    Kernel(wide, Bitmap({}, seq(32, _ => {})), seq(Levels(wide), _ => []),
           map t | t in created :: Tcb(Created, created[t], 0, 0, 0, None), seq(lists, _ => []), None, 0)
  }

  /** A thread that is suspended and on no list, as a resuming call leaves it between its regions. */
  predicate Detached(k: Kernel, t: nat) {
    Started(k, t) && k.threads[t].stat == Suspended && k.threads[t].list == None
  }

  // ----- every region keeps it -----

  lemma DetachedNowhere(k: Kernel, t: nat)
    requires Valid(k) && Detached(k, t)
    ensures forall p :: 0 <= p < |k.queues| ==> t !in k.queues[p]
    ensures forall l :: 0 <= l < |k.waits| ==> t !in k.waits[l]
  {
    forall p | 0 <= p < |k.queues|
      ensures t !in k.queues[p]
    {
      assert QueueOk(k, p);
    }
    forall l | 0 <= l < |k.waits|
      ensures t !in k.waits[l]
    {
      assert WaitOk(k, l);
    }
  }

  lemma InsertKeeps(k: Kernel, t: nat)
    requires Valid(k) && Detached(k, t)
    ensures Valid(Insert(k, t))
  {
    var c, r := k.threads[t], Insert(k, t);
    DetachedNowhere(k, t);
    assert QueueOk(k, c.priority) && ThreadOk(k, t);
    AppendMembers(k.queues[c.priority], t);
    ShapeKept(k.bitmap, k.wide, c.priority);
    forall p: nat
      ensures QueueOk(r, p)
    {
      assert QueueOk(k, p);
      if p < |k.queues| {
        MarkKept(k.bitmap, k.wide, c.priority, p);
      }
    }
    forall l: nat
      ensures WaitOk(r, l)
    {
      assert WaitOk(k, l);
    }
    forall x: nat
      ensures ThreadOk(r, x)
    {
      assert ThreadOk(k, x);
    }
  }

  /** The second region of a resume keeps the invariant exactly when the thread is still as the first left it. */
  lemma InsertKeepsIff(k: Kernel, t: nat)
    requires Valid(k) && Started(k, t)
    ensures Valid(Insert(k, t)) <==> Detached(k, t)
  {
    var c, r := k.threads[t], Insert(k, t);
    if Detached(k, t) {
      InsertKeeps(k, t);
    } else if c.stat == Ready {
      assert ThreadOk(k, t);
      var q := k.queues[c.priority];
      var i :| 0 <= i < |q| && q[i] == t;
      assert r.queues[c.priority][i] == r.queues[c.priority][|q|];
      assert !QueueOk(r, c.priority);
    } else {
      assert ThreadOk(k, t);
      assert !WaitOk(r, c.list.value);
    }
  }

  lemma UnlinkKeeps(k: Kernel, t: nat)
    requires Valid(k) && HasStat(k, t, Suspended)
    ensures Valid(Unlink(k, t)) && Detached(Unlink(k, t), t)
  {
    var c, r := k.threads[t], Unlink(k, t);
    assert ThreadOk(k, t);
    if c.list.Some? {
      assert WaitOk(k, c.list.value);
      WithoutMembers(k.waits[c.list.value], t);
    }
    forall p: nat
      ensures QueueOk(r, p)
    {
      assert QueueOk(k, p);
    }
    forall l: nat
      ensures WaitOk(r, l)
    {
      assert WaitOk(k, l);
    }
    forall x: nat
      ensures ThreadOk(r, x)
    {
      assert ThreadOk(k, x);
    }
  }

  /** The first region of a resume keeps the invariant exactly when the thread is still suspended. */
  lemma UnlinkKeepsIff(k: Kernel, t: nat)
    requires Valid(k) && Started(k, t)
    ensures Valid(Unlink(k, t)) <==> k.threads[t].stat == Suspended
  {
    if k.threads[t].stat == Suspended {
      UnlinkKeeps(k, t);
    } else {
      var p := k.threads[t].priority;
      assert ThreadOk(k, t) && QueueOk(k, p);
      WithoutMembers(k.queues[p], t);
      assert !ThreadOk(Unlink(k, t), t);
    }
  }

  lemma RemoveReady(k: Kernel, t: nat)
    requires Valid(k) && HasStat(k, t, Ready)
    ensures Valid(Remove(k, t)) && Detached(Remove(k, t), t)
  {
    var c, r := k.threads[t], Remove(k, t);
    assert ThreadOk(k, t) && QueueOk(k, c.priority);
    WithoutMembers(k.queues[c.priority], t);
    ShapeKept(k.bitmap, k.wide, c.priority);
    forall p: nat
      ensures QueueOk(r, p)
    {
      assert QueueOk(k, p);
      if p < |k.queues| {
        MarkKept(k.bitmap, k.wide, c.priority, p);
      }
    }
    forall l: nat
      ensures WaitOk(r, l)
    {
      assert WaitOk(k, l);
    }
    forall x: nat
      ensures ThreadOk(r, x)
    {
      assert ThreadOk(k, x);
    }
  }

  /** Clearing the bit of an empty queue changes nothing. */
  lemma ClearedKeeps(k: Kernel, p: nat)
    requires Valid(k) && p < |k.queues| && k.queues[p] == []
    ensures Valid(k.(bitmap := WithoutMark(k.bitmap, k.wide, Number(k.wide, p), High(p))))
  {
    var r := k.(bitmap := WithoutMark(k.bitmap, k.wide, Number(k.wide, p), High(p)));
    ShapeKept(k.bitmap, k.wide, p);
    forall q: nat
      ensures QueueOk(r, q)
    {
      assert QueueOk(k, q);
      if q < |k.queues| {
        MarkKept(k.bitmap, k.wide, p, q);
      }
    }
    forall l: nat
      ensures WaitOk(r, l)
    {
      assert WaitOk(k, l);
    }
    forall x: nat
      ensures ThreadOk(r, x)
    {
      assert ThreadOk(k, x);
    }
  }

  /** A suspension keeps the invariant whatever became of the thread since the test. */
  lemma RemoveKeeps(k: Kernel, t: nat)
    requires Valid(k) && Started(k, t)
    ensures Valid(Remove(k, t)) && Detached(Remove(k, t), t)
  {
    if k.threads[t].stat == Ready {
      RemoveReady(k, t);
    } else {
      var u, p := Unlink(k, t), k.threads[t].priority;
      UnlinkKeeps(k, t);
      if u.queues[p] == [] {
        ClearedKeeps(u, p);
      }
    }
  }

  lemma EnterKeeps(k: Kernel, t: nat, l: nat, i: nat)
    requires Valid(k) && Detached(k, t) && l < |k.waits| && i <= |k.waits[l]|
    ensures Valid(Enter(k, t, l, i))
  {
    var r := Enter(k, t, l, i);
    DetachedNowhere(k, t);
    assert WaitOk(k, l) && ThreadOk(k, t);
    InsertedMembers(k.waits[l], t, i);
    forall p: nat
      ensures QueueOk(r, p)
    {
      assert QueueOk(k, p);
    }
    forall j: nat
      ensures WaitOk(r, j)
    {
      assert WaitOk(k, j);
    }
    forall x: nat
      ensures ThreadOk(r, x)
    {
      assert ThreadOk(k, x);
    }
  }

  /** The record of a thread that is in no queue may be changed, but not its list. */
  lemma SetKeeps(k: Kernel, t: nat, c: Tcb)
    requires Valid(k) && t in k.threads && k.threads[t].stat != Ready
    requires c.stat == Suspended && c.list == k.threads[t].list && c.initial == k.threads[t].initial
    requires Attributes(k.wide, c)
    ensures Valid(k.(threads := k.threads[t := c]))
  {
    var r := k.(threads := k.threads[t := c]);
    assert ThreadOk(k, t);
    forall p: nat
      ensures QueueOk(r, p)
    {
      assert QueueOk(k, p);
    }
    forall l: nat
      ensures WaitOk(r, l)
    {
      assert WaitOk(k, l);
    }
    forall x: nat
      ensures ThreadOk(r, x)
    {
      assert ThreadOk(k, x);
    }
  }

  lemma SameLists(k: Kernel, r: Kernel)
    requires Valid(k) && r == k.(current := r.current, locks := r.locks)
    ensures Valid(r)
  {
    forall p: nat
      ensures QueueOk(r, p)
    {
      assert QueueOk(k, p);
    }
    forall l: nat
      ensures WaitOk(r, l)
    {
      assert WaitOk(k, l);
    }
    forall x: nat
      ensures ThreadOk(r, x)
    {
      assert ThreadOk(k, x);
    }
  }

  lemma TurnKeeps(k: Kernel, t: nat, p: nat)
    requires Valid(k) && p < |k.queues| && t in k.queues[p]
    ensures Valid(k.(queues := k.queues[p := Without(k.queues[p], t) + [t]]))
  {
    var r := k.(queues := k.queues[p := Without(k.queues[p], t) + [t]]);
    assert QueueOk(k, p);
    WithoutMembers(k.queues[p], t);
    AppendMembers(Without(k.queues[p], t), t);
    forall q: nat
      ensures QueueOk(r, q)
    {
      assert QueueOk(k, q);
    }
    forall l: nat
      ensures WaitOk(r, l)
    {
      assert WaitOk(k, l);
    }
    forall x: nat
      ensures ThreadOk(r, x)
    {
      assert ThreadOk(k, x);
    }
  }

  lemma StartupKeeps(k: Kernel, t: nat)
    requires Valid(k)
    ensures Valid(AfterStartup(k, t))
    ensures t in k.threads && k.threads[t].stat == Created ==> Detached(AfterStartup(k, t), t)
  {
    if t in k.threads && k.threads[t].stat == Created {
      assert ThreadOk(k, t);
      SetKeeps(k, t, Prioritized(k.wide, k.threads[t], k.threads[t].initial).(stat := Suspended));
    }
  }

  lemma PriorityKeeps(k: Kernel, t: nat, p: nat)
    requires Valid(k)
    ensures Valid(AfterPriority(k, t, p))
  {
    if Started(k, t) && p < Levels(k.wide) {
      if k.threads[t].stat == Ready {
        var q := Remove(k, t);
        RemoveKeeps(k, t);
        var c := Prioritized(k.wide, q.threads[t], p);
        SetKeeps(q, t, c);
        InsertKeeps(q.(threads := q.threads[t := c]), t);
      } else {
        SetKeeps(k, t, Prioritized(k.wide, k.threads[t], p));
      }
    }
  }

  /** A step of a resuming call is legal only while the thread is as its earlier steps found it. */
  predicate Allowed(k: Kernel, e: Event) {
    match e
    case ResumeUnlink(t) => Started(k, t) ==> k.threads[t].stat == Suspended
    case ResumeInsert(t) => Started(k, t) ==> Detached(k, t)
    case _ => true
  }

  /** One step keeps queues, lists and bitmap right exactly when it is allowed. */
  lemma StepKeeps(k: Kernel, e: Event)
    requires Valid(k)
    ensures Valid(Step(k, e)) <==> Allowed(k, e)
  {
    match e
    case Startup(t) => StartupKeeps(k, t);
    case Suspend(t) =>
      if HasStat(k, t, Ready) {
        RemoveKeeps(k, t);
      }
    case SuspendAnyway(t) =>
      if Started(k, t) {
        RemoveKeeps(k, t);
      }
    case SuspendOn(t, l, i) =>
      if HasStat(k, t, Ready) && l < |k.waits| && i <= |k.waits[l]| {
        RemoveKeeps(k, t);
        EnterKeeps(Remove(k, t), t, l, i);
      }
    case Resume(t) => ResumeKeeps(k, t);
    case ResumeUnlink(t) =>
      if Started(k, t) {
        UnlinkKeepsIff(k, t);
      }
    case ResumeInsert(t) =>
      if Started(k, t) {
        InsertKeepsIff(k, t);
      }
    case Timeout(t) =>
      if HasStat(k, t, Suspended) {
        ResumeKeeps(k, t);
        SameLists(Insert(Unlink(k, t), t), Step(k, e));
      }
    case ChangePriority(t, p) => PriorityKeeps(k, t, p);
    case Yield =>
      if CanTurn(k) {
        assert ThreadOk(k, k.current.value);
        TurnKeeps(k, k.current.value, k.threads[k.current.value].priority);
      }
    case Sleep =>
      if k.current.Some? && HasStat(k, k.current.value, Ready) {
        RemoveKeeps(k, k.current.value);
      }
    case Schedule => SameLists(k, Step(k, e));
    case Lock => SameLists(k, Step(k, e));
    case Unlock => SameLists(k, Step(k, e));
  }

  lemma ResumeKeeps(k: Kernel, t: nat)
    requires Valid(k)
    ensures Valid(Step(k, Resume(t)))
    ensures HasStat(k, t, Suspended) ==> Valid(Insert(Unlink(k, t), t))
  {
    if HasStat(k, t, Suspended) {
      UnlinkKeeps(k, t);
      InsertKeeps(Unlink(k, t), t);
    }
  }

  ghost predicate AllAllowed(k: Kernel, events: seq<Event>)
    decreases |events|
  {
    events == [] || (Allowed(k, events[0]) && AllAllowed(Step(k, events[0]), events[1..]))
  }

  lemma {:induction false} RunKeeps(k: Kernel, events: seq<Event>)
    requires Valid(k) && AllAllowed(k, events)
    ensures Valid(Run(k, events))
    decreases |events|
  {
    if events != [] {
      StepKeeps(k, events[0]);
      RunKeeps(Step(k, events[0]), events[1..]);
    }
  }

  lemma InitialValid(wide: bool, created: map<nat, nat>, lists: nat)
    requires forall t :: t in created ==> created[t] < Levels(wide)
    ensures Valid(Initial(wide, created, lists))
  {
  }

  /** In every run from the start a thread is ready exactly if it is in the queue of its priority, and there once. */
  lemma Reachable(wide: bool, created: map<nat, nat>, lists: nat, events: seq<Event>)
    requires (forall t :: t in created ==> created[t] < Levels(wide))
    requires AllAllowed(Initial(wide, created, lists), events)
    ensures Valid(Run(Initial(wide, created, lists), events))
  {
    InitialValid(wide, created, lists);
    RunKeeps(Initial(wide, created, lists), events);
  }

  // ----- what each step does -----

  /** No thread but `t` changes, and nobody else runs. */
  ghost predicate OnlyThread(k: Kernel, r: Kernel, t: nat) {
    && r.threads.Keys == k.threads.Keys && (forall x :: x in k.threads && x != t ==> r.threads[x] == k.threads[x])
    && r.wide == k.wide && r.current == k.current && r.locks == k.locks
  }

  /** Every list but list `p` stays. */
  ghost predicate OnlyList(lists: seq<seq<nat>>, r: seq<seq<nat>>, p: int) {
    |r| == |lists| && forall q :: 0 <= q < |lists| && q != p ==> r[q] == lists[q]
  }

  /** The thread leaves the list it is on, in which the others keep their order; all other lists stay. */
  ghost predicate OffList(lists: seq<seq<nat>>, r: seq<seq<nat>>, t: nat) {
    |r| == |lists| && forall q :: 0 <= q < |lists| ==> Drops(lists[q], t, r[q])
  }

  lemma InOneQueue(k: Kernel, t: nat, p: nat)
    requires Valid(k) && t in k.threads && p < |k.queues|
    ensures t in k.queues[p] <==> k.threads[t].stat == Ready && k.threads[t].priority == p
  {
    assert QueueOk(k, p) && ThreadOk(k, t);
  }

  lemma InOneWait(k: Kernel, t: nat, l: nat)
    requires Valid(k) && t in k.threads && l < |k.waits|
    ensures t in k.waits[l] <==> k.threads[t].list == Some(l)
  {
    assert WaitOk(k, l) && ThreadOk(k, t);
  }

  /** A thread that is unlinked or suspended leaves its queue or wait list. */
  lemma OffEveryList(k: Kernel, t: nat)
    requires Valid(k) && Started(k, t)
    ensures OffList(k.queues, Remove(k, t).queues, t) && OffList(k.waits, Remove(k, t).waits, t)
    ensures OffList(k.queues, Unlink(k, t).queues, t) && OffList(k.waits, Unlink(k, t).waits, t)
  {
    assert ThreadOk(k, t);
    forall q | 0 <= q < |k.queues|
      ensures Drops(k.queues[q], t, Remove(k, t).queues[q]) && Drops(k.queues[q], t, Unlink(k, t).queues[q])
    {
      InOneQueue(k, t, q);
      WithoutSplits(k.queues[q], t);
    }
    forall l | 0 <= l < |k.waits|
      ensures Drops(k.waits[l], t, Remove(k, t).waits[l]) && Drops(k.waits[l], t, Unlink(k, t).waits[l])
    {
      InOneWait(k, t, l);
      WithoutSplits(k.waits[l], t);
    }
  }

  /** A ready thread that is suspended leaves its queue; another is left alone. */
  lemma SuspendMeans(k: Kernel, t: nat)
    requires Valid(k)
    ensures var r := Step(k, Suspend(t));
            if HasStat(k, t, Ready) then
              && OnlyThread(k, r, t) && OffList(k.queues, r.queues, t) && r.waits == k.waits
              && r.threads[t] == k.threads[t].(stat := Suspended, list := None)
            else r == k
  {
    if HasStat(k, t, Ready) {
      assert ThreadOk(k, t);
      OffEveryList(k, t);
    }
  }

  /** On a wait list it takes the place it is given. */
  lemma SuspendOnMeans(k: Kernel, t: nat, l: nat, i: nat)
    requires Valid(k) && HasStat(k, t, Ready) && l < |k.waits| && i <= |k.waits[l]|
    ensures var r := Step(k, SuspendOn(t, l, i));
            && OnlyThread(k, r, t) && OffList(k.queues, r.queues, t)
            && r.threads[t] == k.threads[t].(stat := Suspended, list := Some(l))
            && OnlyList(k.waits, r.waits, l) && r.waits[l] == k.waits[l][..i] + [t] + k.waits[l][i..]
  {
    assert ThreadOk(k, t);
    OffEveryList(k, t);
  }

  /** The region of a suspension takes the thread off whatever list it is on by then. */
  lemma SuspendAnywayMeans(k: Kernel, t: nat)
    requires Valid(k) && Started(k, t)
    ensures var r := Step(k, SuspendAnyway(t));
            && OnlyThread(k, r, t) && OffList(k.queues, r.queues, t) && OffList(k.waits, r.waits, t)
            && r.threads[t] == k.threads[t].(stat := Suspended, list := None)
  {
    OffEveryList(k, t);
  }

  /** A suspended thread that is resumed, or whose time is over, is last in the queue of its priority. */
  lemma ResumeMeans(k: Kernel, t: nat)
    requires Valid(k)
    ensures var r := Step(k, Resume(t));
            if HasStat(k, t, Suspended) then
              && OnlyThread(k, r, t) && OffList(k.waits, r.waits, t)
              && r.threads[t] == k.threads[t].(stat := Ready, list := None)
              && k.threads[t].priority < |k.queues| && OnlyList(k.queues, r.queues, k.threads[t].priority)
              && r.queues[k.threads[t].priority] == k.queues[k.threads[t].priority] + [t]
            else r == k
    ensures Step(k, Timeout(t)) == if HasStat(k, t, Suspended) then Step(Step(k, Resume(t)), Schedule) else k
  {
    if HasStat(k, t, Suspended) {
      OffEveryList(k, t);
    }
  }

  /** The two regions of a resume are the call. */
  lemma RegionsAreResume(k: Kernel, t: nat)
    requires HasStat(k, t, Suspended)
    ensures Step(Step(k, ResumeUnlink(t)), ResumeInsert(t)) == Step(k, Resume(t))
  {
  }

  /** A new thread has its first priority, is suspended, and is on no list. */
  lemma StartupMeans(k: Kernel, t: nat)
    requires Valid(k) && t in k.threads && k.threads[t].stat == Created
    ensures var r := Step(k, Startup(t));
            && OnlyThread(k, r, t) && r.queues == k.queues && r.waits == k.waits
            && HasStat(r, t, Suspended) && r.threads[t].priority == k.threads[t].initial && r.threads[t].list == None
  {
    StartupKeeps(k, t);
  }

  /** A thread has the priority it is given; a ready one goes to the end of that queue and leaves its own. */
  lemma PriorityMeans(k: Kernel, t: nat, p: nat)
    requires Valid(k) && Started(k, t) && p < Levels(k.wide)
    ensures var r := Step(k, ChangePriority(t, p));
            && OnlyThread(k, r, t) && r.waits == k.waits
            && r.threads[t].priority == p && r.threads[t].stat == k.threads[t].stat
            && r.threads[t].list == k.threads[t].list && r.threads[t].initial == k.threads[t].initial
            && |r.queues| == |k.queues|
            && (forall q :: 0 <= q < |k.queues| && q != p ==> Drops(k.queues[q], t, r.queues[q]))
            && (if k.threads[t].stat == Ready then
                  exists rest :: Drops(k.queues[p], t, rest) && r.queues[p] == rest + [t]
                else r.queues == k.queues)
  {
    assert ThreadOk(k, t);
    if k.threads[t].stat == Ready {
      OffEveryList(k, t);
      var rest := Remove(k, t).queues[p];
      assert Drops(k.queues[p], t, rest) && Step(k, ChangePriority(t, p)).queues[p] == rest + [t];
    } else {
      forall q | 0 <= q < |k.queues|
        ensures Drops(k.queues[q], t, k.queues[q])
      {
        InOneQueue(k, t, q);
      }
    }
  }

  /** The running thread goes behind the others of its queue, if there are any. */
  lemma YieldMeans(k: Kernel)
    requires Valid(k) && k.current.Some? && HasStat(k, k.current.value, Ready)
    ensures var t, r := k.current.value, Step(k, Yield);
            var p := k.threads[t].priority;
            && r == k.(queues := r.queues) && p < |k.queues| && OnlyList(k.queues, r.queues, p)
            && exists rest :: Drops(k.queues[p], t, rest) && r.queues[p] == rest + [t]
  {
    var t := k.current.value;
    var p := k.threads[t].priority;
    assert ThreadOk(k, t) && QueueOk(k, p);
    WithoutSplits(k.queues[p], t);
    if |k.queues[p]| == 1 {
      assert k.queues[p] == [t] && Without([t], t) == [];
    }
    assert Drops(k.queues[p], t, Without(k.queues[p], t));
    assert Step(k, Yield).queues[p] == Without(k.queues[p], t) + [t];
  }

  /** The running thread sleeps as one that is suspended. */
  lemma SleepMeans(k: Kernel)
    requires k.current.Some?
    ensures Step(k, Sleep) == Step(k, Suspend(k.current.value))
  {
  }

  /** Locks nest, and only an unlocked scheduler selects a thread; nothing else changes. */
  lemma LockMeans(k: Kernel)
    ensures Step(k, Lock) == k.(locks := k.locks + 1)
    ensures Step(k, Unlock) == k.(locks := if k.locks == 0 then 0 else k.locks - 1)
    ensures k.locks > 0 ==> Step(k, Schedule) == k
    ensures Step(k, Schedule) == k.(current := Step(k, Schedule).current)
  {
  }

  // ----- a resume in two regions -----

  /** The step makes thread `t` ready. */
  predicate Wakes(k: Kernel, e: Event, t: nat) {
    match e
    case Resume(x) => x == t && HasStat(k, t, Suspended)
    case Timeout(x) => x == t && HasStat(k, t, Suspended)
    case ResumeInsert(x) => x == t
    case _ => false
  }

  /** The step suspends thread `t` if it is ready. */
  predicate Suspends(k: Kernel, e: Event, t: nat) {
    match e
    case Suspend(x) => x == t
    case SuspendAnyway(x) => x == t
    case SuspendOn(x, l, i) => x == t && l < |k.waits| && i <= |k.waits[l]|
    case Sleep => k.current == Some(t)
    case _ => false
  }

  /** The step puts thread `t` on a wait list. */
  predicate Parks(k: Kernel, e: Event, t: nat) {
    e.SuspendOn? && Suspends(k, e, t) && HasStat(k, t, Ready)
  }

  /** The step takes thread `t` off the wait list it is on. */
  predicate Detaches(k: Kernel, e: Event, t: nat) {
    Wakes(k, e, t) || ((e.ResumeUnlink? || e.SuspendAnyway?) && e.t == t)
  }

  ghost predicate NoneSuspends(k: Kernel, events: seq<Event>, t: nat)
    decreases |events|
  {
    events == [] || (!Suspends(k, events[0], t) && NoneSuspends(Step(k, events[0]), events[1..], t))
  }

  ghost predicate NoneDetaches(k: Kernel, events: seq<Event>, t: nat)
    decreases |events|
  {
    events == [] || (!Detaches(k, events[0], t) && NoneDetaches(Step(k, events[0]), events[1..], t))
  }

  /** Some step makes the thread ready, and none behind it suspends it. */
  ghost predicate LeftReady(k: Kernel, events: seq<Event>, t: nat)
    decreases |events|
  {
    && events != []
    && (|| (Wakes(k, events[0], t) && NoneSuspends(Step(k, events[0]), events[1..], t))
        || LeftReady(Step(k, events[0]), events[1..], t))
  }

  /** Some step puts the thread on a wait list, and none behind it takes it off. */
  ghost predicate LeftWaiting(k: Kernel, events: seq<Event>, t: nat)
    decreases |events|
  {
    && events != []
    && (|| (Parks(k, events[0], t) && NoneDetaches(Step(k, events[0]), events[1..], t))
        || LeftWaiting(Step(k, events[0]), events[1..], t))
  }

  /** The step is about that thread. */
  predicate About(k: Kernel, e: Event, t: nat) {
    match e
    case Yield => k.current == Some(t)
    case Sleep => k.current == Some(t)
    case Schedule => false
    case Lock => false
    case Unlock => false
    case _ => e.t == t
  }

  /** Thread `t` is as it was. */
  predicate Untouched(k: Kernel, r: Kernel, t: nat) {
    Started(k, t) && Started(r, t) && r.wide == k.wide && r.threads[t] == k.threads[t]
  }

  lemma OtherThread(k: Kernel, x: nat, t: nat)
    requires Started(k, x) && Started(k, t) && x != t
    ensures Untouched(k, Insert(k, x), t) && Untouched(k, Unlink(k, x), t) && Untouched(k, Remove(k, x), t)
  {
  }

  lemma OtherPriority(k: Kernel, x: nat, p: nat, t: nat)
    requires Started(k, t) && x != t
    ensures Untouched(k, AfterPriority(k, x, p), t)
  {
    if Started(k, x) {
      OtherThread(k, x, t);
    }
  }

  lemma NotAbout(k: Kernel, e: Event, t: nat)
    requires Started(k, t) && !About(k, e, t)
    ensures Untouched(k, Step(k, e), t)
  {
    match e
    case Startup(x) =>
    case Suspend(x) => OtherRegion(k, x, t);
    case SuspendAnyway(x) => OtherRegion(k, x, t);
    case SuspendOn(x, l, i) => OtherSuspended(k, x, l, i, t);
    case Resume(x) => OtherResumed(k, x, t);
    case ResumeUnlink(x) => OtherRegion(k, x, t);
    case ResumeInsert(x) => OtherRegion(k, x, t);
    case Timeout(x) => OtherResumed(k, x, t);
    case ChangePriority(x, p) => OtherPriority(k, x, p, t);
    case Yield =>
    case Sleep => OtherSleeps(k, t);
    case Schedule =>
    case Lock =>
    case Unlock =>
  }

  lemma OtherRegion(k: Kernel, x: nat, t: nat)
    requires Started(k, t) && x != t
    ensures Untouched(k, Step(k, Suspend(x)), t) && Untouched(k, Step(k, SuspendAnyway(x)), t)
    ensures Untouched(k, Step(k, ResumeUnlink(x)), t) && Untouched(k, Step(k, ResumeInsert(x)), t)
  {
    if Started(k, x) {
      OtherThread(k, x, t);
    }
  }

  lemma OtherSuspended(k: Kernel, x: nat, l: nat, i: nat, t: nat)
    requires Started(k, t) && x != t
    ensures Untouched(k, Step(k, SuspendOn(x, l, i)), t)
  {
    if Started(k, x) {
      OtherThread(k, x, t);
    }
  }

  lemma OtherSleeps(k: Kernel, t: nat)
    requires Started(k, t) && k.current != Some(t)
    ensures Untouched(k, Step(k, Sleep), t)
  {
    if k.current.Some? && Started(k, k.current.value) {
      OtherThread(k, k.current.value, t);
    }
  }

  lemma OtherResumed(k: Kernel, x: nat, t: nat)
    requires Started(k, t) && x != t
    ensures Untouched(k, Step(k, Resume(x)), t) && Untouched(k, Step(k, Timeout(x)), t)
  {
    if HasStat(k, x, Suspended) {
      OtherThread(k, x, t);
      OtherThread(Unlink(k, x), x, t);
    }
  }

  /** A thread that is suspended on a wait list. */
  predicate Waiting(k: Kernel, t: nat) {
    HasStat(k, t, Suspended) && k.threads[t].list.Some?
  }

  /** Whether a thread is ready, or on a wait list, after a step. */
  lemma StepStat(k: Kernel, e: Event, t: nat)
    requires Started(k, t) && Allowed(k, e)
    ensures Started(Step(k, e), t)
    ensures HasStat(Step(k, e), t, Ready) <==> Wakes(k, e, t) || (HasStat(k, t, Ready) && !Suspends(k, e, t))
    ensures Waiting(Step(k, e), t) <==> Parks(k, e, t) || (Waiting(k, t) && !Detaches(k, e, t))
  {
    if !About(k, e, t) {
      NotAbout(k, e, t);
    } else {
      OwnStat(k, e, t);
    }
  }

  ghost predicate StatFollows(k: Kernel, e: Event, t: nat) {
    && Started(Step(k, e), t)
    && (HasStat(Step(k, e), t, Ready) <==> Wakes(k, e, t) || (HasStat(k, t, Ready) && !Suspends(k, e, t)))
    && (Waiting(Step(k, e), t) <==> Parks(k, e, t) || (Waiting(k, t) && !Detaches(k, e, t)))
  }

  lemma OwnStat(k: Kernel, e: Event, t: nat)
    requires Started(k, t) && Allowed(k, e) && About(k, e, t)
    ensures StatFollows(k, e, t)
  {
    match e
    case Suspend(_) => OwnSuspended(k, e, t);
    case SuspendAnyway(_) => OwnSuspended(k, e, t);
    case SuspendOn(_, _, _) => OwnSuspended(k, e, t);
    case Resume(_) => OwnResumed(k, e, t);
    case Timeout(_) => OwnResumed(k, e, t);
    case ChangePriority(_, p) => OwnPriority(k, t, p);
    case _ =>
  }

  lemma OwnSuspended(k: Kernel, e: Event, t: nat)
    requires (e.Suspend? || e.SuspendAnyway? || e.SuspendOn?) && e.t == t && Started(k, t) && Allowed(k, e)
    ensures StatFollows(k, e, t)
  {
  }

  lemma OwnResumed(k: Kernel, e: Event, t: nat)
    requires (e.Resume? || e.Timeout?) && e.t == t && Started(k, t) && Allowed(k, e)
    ensures StatFollows(k, e, t)
  {
  }

  lemma OwnPriority(k: Kernel, t: nat, p: nat)
    requires Started(k, t)
    ensures Started(AfterPriority(k, t, p), t)
    ensures HasStat(AfterPriority(k, t, p), t, Ready) <==> HasStat(k, t, Ready)
    ensures Waiting(AfterPriority(k, t, p), t) <==> Waiting(k, t)
  {
  }

  lemma {:induction false} RunStat(k: Kernel, events: seq<Event>, t: nat)
    requires Started(k, t) && AllAllowed(k, events)
    ensures Started(Run(k, events), t)
    ensures HasStat(Run(k, events), t, Ready)
            <==> LeftReady(k, events, t) || (HasStat(k, t, Ready) && NoneSuspends(k, events, t))
    ensures Waiting(Run(k, events), t)
            <==> LeftWaiting(k, events, t) || (Waiting(k, t) && NoneDetaches(k, events, t))
    decreases |events|
  {
    if events != [] {
      StepStat(k, events[0], t);
      RunStat(Step(k, events[0]), events[1..], t);
    }
  }

  /**
   A resume whose regions any other steps come between leaves the thread ready once in its queue
   exactly when none of them made it ready and left it so, or put it on a wait list and left it there.
   */
  lemma ResumeInPieces(k: Kernel, t: nat, gap: seq<Event>)
    requires Valid(k) && HasStat(k, t, Suspended) && AllAllowed(Unlink(k, t), gap)
    ensures var first := Unlink(k, t);
            var before := Run(first, gap);
            && Valid(before) && Started(before, t)
            && (Valid(Insert(before, t)) <==> !LeftReady(first, gap, t) && !LeftWaiting(first, gap, t))
  {
    UnlinkKeeps(k, t);
    RunKeeps(Unlink(k, t), gap);
    RunStat(Unlink(k, t), gap, t);
    InsertKeepsIff(Run(Unlink(k, t), gap), t);
  }

  /** The first region is right exactly if no step since the test made the thread ready and left it so. */
  lemma ResumeTested(k: Kernel, t: nat, gap: seq<Event>)
    requires Valid(k) && HasStat(k, t, Suspended) && AllAllowed(k, gap)
    ensures var before := Run(k, gap);
            && Valid(before) && Started(before, t)
            && (Valid(Unlink(before, t)) <==> !LeftReady(k, gap, t))
  {
    RunKeeps(k, gap);
    RunStat(k, gap, t);
    UnlinkKeepsIff(Run(k, gap), t);
  }

  /** Resuming a thread again between the regions queues it twice. */
  lemma QueuedTwice(k: Kernel, t: nat)
    requires Valid(k) && HasStat(k, t, Suspended)
    ensures var before := Step(Unlink(k, t), Resume(t));
            var r, p := Step(before, ResumeInsert(t)), k.threads[t].priority;
            && Valid(before) && !Valid(r) && p < |r.queues| && r.queues[p] == k.queues[p] + [t] + [t]
  {
    UnlinkKeeps(k, t);
    ResumeKeeps(Unlink(k, t), t);
    InsertKeepsIff(Step(Unlink(k, t), Resume(t)), t);
  }

  /** A resume from an interrupt between the regions of another: the queue holds the thread twice. */
  lemma DoubleResume()
    ensures var k := Step(FirstStarted(), Suspend(0));
            && Valid(k) && HasStat(k, 0, Suspended)
            && var r := Step(Step(Step(k, ResumeUnlink(0)), Resume(0)), ResumeInsert(0));
               !Valid(r) && 5 < |r.queues| && r.queues[5] == [0, 0]
  {
    var k := Step(FirstStarted(), Suspend(0));
    StepKeeps(FirstStarted(), Suspend(0));
    assert k.queues[5] == [];
    QueuedTwice(k, 0);
  }

  /** A kernel whose only thread has been started. */
  ghost function FirstStarted(): (k: Kernel)
    ensures Valid(k) && HasStat(k, 0, Ready) && k.threads[0].priority == 5 && k.queues[5] == [0]
  {
    var k := Initial(false, map[0 := 5], 0);
    InitialValid(false, map[0 := 5], 0);
    StartupKeeps(k, 0);
    ResumeKeeps(Step(k, Startup(0)), 0);
    Step(Step(k, Startup(0)), Resume(0))
  }

  /** Queue `p` is the first that is not empty. */
  ghost predicate MostUrgent(queues: seq<seq<nat>>, p: nat) {
    p < |queues| && queues[p] != [] && forall q :: 0 <= q < p ==> queues[q] == []
  }

  /** An unlocked schedule runs the head of the most urgent queue that is not empty. */
  lemma ScheduledFirst(k: Kernel, some: nat)
    requires Valid(k) && k.locks == 0 && some < |k.queues| && k.queues[some] != []
    ensures var p := Highest(k.bitmap, k.wide);
            p >= 0 && MostUrgent(k.queues, p) && Scheduled(k).current == Some(k.queues[p][0])
  {
    assert QueueOk(k, some);
    HighestFound(k.bitmap, k.wide, some);
    var p: nat := Highest(k.bitmap, k.wide);
    assert QueueOk(k, p);
    forall q | 0 <= q < p
      ensures k.queues[q] == []
    {
      assert QueueOk(k, q);
      if k.queues[q] != [] {
        HighestFound(k.bitmap, k.wide, q);
      }
    }
  }
}
