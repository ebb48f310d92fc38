/** The scheduler and the thread calls in place. */
module Scheduler {
  import opened Options
  import opened Lists
  import opened PriorityBitmap
  import opened ReadyQueues

  class Scheduler {
    const wide: bool
    var bitmap: Bitmap
    var queues: seq<seq<nat>>
    var threads: map<nat, Tcb>
    var waits: seq<seq<nat>>
    var current: Option<nat>
    var locks: nat

    ghost function View(): (k: Kernel)
      reads this
    {
      Kernel(wide, bitmap, queues, threads, waits, current, locks)
    }

    ghost predicate Valid()
      reads this
    {
      ReadyQueues.Valid(View())
    }

    constructor (wide: bool, created: map<nat, nat>, lists: nat)
      requires forall t :: t in created ==> created[t] < Levels(wide)
      ensures Valid() && View() == Initial(wide, created, lists)
    {
      this.wide := wide;
      bitmap := Bitmap({}, seq(32, _ => {}));
      queues := seq(Levels(wide), _ => []);
      waits := seq(lists, _ => []);
      threads := map t | t in created :: Tcb(Created, created[t], 0, 0, 0, None);
      current, locks := None, 0;
      new;
      InitialValid(wide, created, lists);
    }

    /** Put a thread at the end of the queue of its priority. */
    method InsertThread(t: nat)
      requires Started(View(), t)
      modifies this`threads, this`queues, this`bitmap
      ensures View() == Insert(old(View()), t)
    {
      var c := threads[t];
      threads := threads[t := c.(stat := Ready, list := None)];
      queues := queues[c.priority := queues[c.priority] + [t]];
      bitmap := WithMark(bitmap, wide, c.number, c.high);
    }

    /** Take the node of a thread off the list it is on. */
    method UnlinkThread(t: nat)
      requires Started(View(), t)
      modifies this`threads, this`queues, this`waits
      ensures View() == Unlink(old(View()), t)
    {
      var c := threads[t];
      if c.stat == Ready {
        queues := queues[c.priority := Without(queues[c.priority], t)];
      } else {
        if c.list.Some? && c.list.value < |waits| {
          waits := waits[c.list.value := Without(waits[c.list.value], t)];
        }
        threads := threads[t := c.(list := None)];
      }
    }

    /** Take a thread off its list and clear the bit of its queue if that is empty. */
    method RemoveThread(t: nat)
      requires Started(View(), t)
      modifies this`threads, this`queues, this`waits, this`bitmap
      ensures View() == Remove(old(View()), t)
    {
      var c := threads[t];
      UnlinkThread(t);
      threads := threads[t := c.(stat := Suspended, list := None)];
      if queues[c.priority] == [] {
        bitmap := WithoutMark(bitmap, wide, c.number, c.high);
      }
    }

    /** Run the first thread of the most urgent queue that is not empty, unless scheduling is locked. */
    method Schedule()
      requires Valid()
      modifies this`current
      ensures Valid() && View() == Scheduled(old(View()))
      ensures locks == 0 && (exists q :: 0 <= q < |queues| && queues[q] != []) ==>
                exists p: nat :: MostUrgent(queues, p) && current == Some(queues[p][0])
    {
      ghost var before := View();
      if locks == 0 {
        var p := Search(bitmap, wide);
        if 0 <= p < |queues| && queues[p] != [] {
          current := Some(queues[p][0]);
        }
        if exists q :: 0 <= q < |queues| && queues[q] != [] {
          ghost var some :| 0 <= some < |queues| && queues[some] != [];
          ScheduledFirst(before, some);
          assert p >= 0 && MostUrgent(queues, p);
        }
      }
      SameLists(before, View());
    }

    /** Start a thread: set its priority, resume it, and schedule unless this is the start of the system. */
    method Startup(t: nat)
      requires Valid() && t in threads && threads[t].stat == Created
      modifies this
      ensures Valid()
      ensures var r := Step(Step(old(View()), ReadyQueues.Startup(t)), ReadyQueues.Resume(t));
              View() == if current.Some? then Step(r, ReadyQueues.Schedule) else r
    {
      StartupKeeps(View(), t);
      assert ThreadOk(View(), t);
      var c := threads[t];
      var p := c.initial;
      threads := threads[t := c.(stat := Suspended, priority := p, number := Number(wide, p), high := High(p))];
      var ok := Resume(t);
      if current.Some? {
        Schedule();
      }
    }

    /** Suspend a ready thread; nothing happens to another. */
    method Suspend(t: nat) returns (ok: bool)
      requires Valid() && t in threads
      modifies this
      ensures Valid() && View() == Step(old(View()), ReadyQueues.Suspend(t)) && ok == (old(threads)[t].stat == Ready)
    {
      StepKeeps(View(), ReadyQueues.Suspend(t));
      assert ThreadOk(View(), t);
      ok := threads[t].stat == Ready;
      if ok {
        RemoveThread(t);
      }
    }

    /** Suspend a ready thread on a wait list, at a place the object's flag determines. */
    method SuspendOn(t: nat, l: nat, i: nat)
      requires Valid() && t in threads && threads[t].stat == Ready && l < |waits| && i <= |waits[l]|
      modifies this
      ensures Valid() && View() == Step(old(View()), ReadyQueues.SuspendOn(t, l, i))
    {
      StepKeeps(View(), ReadyQueues.SuspendOn(t, l, i));
      assert ThreadOk(View(), t);
      RemoveThread(t);
      waits := waits[l := waits[l][..i] + [t] + waits[l][i..]];
      threads := threads[t := threads[t].(list := Some(l))];
    }

    /** Make a suspended thread ready again, with interrupts off; nothing happens to another. */
    method Resume(t: nat) returns (ok: bool)
      requires Valid() && t in threads
      modifies this
      ensures Valid() && View() == Step(old(View()), ReadyQueues.Resume(t)) && ok == (old(threads)[t].stat == Suspended)
    {
      StepKeeps(View(), ReadyQueues.Resume(t));
      assert ThreadOk(View(), t);
      ok := threads[t].stat == Suspended;
      if ok {
        UnlinkThread(t);
        InsertThread(t);
      }
    }

    /** A waiting thread's timer runs out. */
    method Timeout(t: nat)
      requires Valid() && t in threads && threads[t].stat == Suspended
      modifies this
      ensures Valid() && View() == Step(old(View()), ReadyQueues.Timeout(t))
    {
      StepKeeps(View(), ReadyQueues.Timeout(t));
      ResumeKeeps(View(), t);
      assert ThreadOk(View(), t);
      UnlinkThread(t);
      InsertThread(t);
      Schedule();
    }

    /** The running thread sleeps; then the next one runs. */
    method Sleep()
      requires Valid() && current.Some? && current.value in threads && threads[current.value].stat == Ready
      modifies this
      ensures Valid() && View() == Step(Step(old(View()), ReadyQueues.Sleep), ReadyQueues.Schedule)
    {
      SleepRegion();
      Schedule();
    }

    method SleepRegion()
      requires Valid() && current.Some? && current.value in threads && threads[current.value].stat == Ready
      modifies this
      ensures Valid() && View() == Step(old(View()), ReadyQueues.Sleep)
    {
      StepKeeps(View(), ReadyQueues.Sleep);
      assert ThreadOk(View(), current.value);
      RemoveThread(current.value);
    }

    /** The running thread goes to the end of its queue and the next one runs, unless it is alone there. */
    method Yield()
      requires Valid() && current.Some? && current.value in threads && threads[current.value].stat == Ready
      modifies this
      ensures Valid()
      ensures View() == if CanTurn(old(View())) then Step(Step(old(View()), ReadyQueues.Yield), ReadyQueues.Schedule)
                        else old(View())
    {
      var turned := YieldRegion();
      if turned {
        Schedule();
      }
    }

    method YieldRegion() returns (turned: bool)
      requires Valid() && current.Some? && current.value in threads && threads[current.value].stat == Ready
      modifies this`queues
      ensures Valid() && turned == CanTurn(old(View())) && View() == Step(old(View()), ReadyQueues.Yield)
    {
      StepKeeps(View(), ReadyQueues.Yield);
      var t := current.value;
      var p := threads[t].priority;
      assert ThreadOk(View(), t);
      turned := |queues[p]| > 1;
      if turned {
        queues := queues[p := Without(queues[p], t) + [t]];
      }
    }

    /** Give a thread another priority; a ready one moves to the end of the new queue. */
    method ChangePriority(t: nat, p: nat)
      requires Valid() && t in threads && threads[t].stat != Created && p < Levels(wide)
      modifies this
      ensures Valid() && View() == Step(old(View()), ReadyQueues.ChangePriority(t, p))
    {
      StepKeeps(View(), ReadyQueues.ChangePriority(t, p));
      assert ThreadOk(View(), t);
      var ready := threads[t].stat == Ready;
      if ready {
        RemoveThread(t);
      }
      threads := threads[t := threads[t].(priority := p, number := Number(wide, p), high := High(p))];
      if ready {
        InsertThread(t);
      }
    }

    method EnterCritical()
      requires Valid()
      modifies this`locks
      ensures Valid() && View() == Step(old(View()), Lock)
    {
      StepKeeps(View(), Lock);
      locks := locks + 1;
    }

    /** Leave a critical section; the outermost one schedules. */
    method ExitCritical()
      requires Valid()
      modifies this`locks, this`current
      ensures Valid()
      ensures var r := Step(old(View()), Unlock);
              View() == if old(locks) <= 1 then Step(r, ReadyQueues.Schedule) else r
    {
      StepKeeps(View(), Unlock);
      if locks > 1 {
        locks := locks - 1;
      } else {
        locks := 0;
        Schedule();
      }
    }
  }
}
