/** The clock interrupt and the scheduler: threads of the most urgent priority take turns. */
module TimeSlices {
  import opened Options
  import opened Lists
  import opened PriorityBitmap
  import opened ReadyQueues
  import opened RoundRobin
  import S = Scheduler

  /** The length of a thread's slice and the ticks left of it. */
  datatype Budget = Budget(ticks: nat, left: nat)

  datatype Clocked = Clocked(kernel: Kernel, budgets: map<nat, Budget>)

  /** A yield in the interrupt: the queue turns and the next thread is selected, unless the running one is alone. */
  function Yielded(k: Kernel): (r: Kernel) {
    if CanTurn(k) then Step(Step(k, Yield), Schedule) else k
  }

  /** A tick is taken off the running thread; when its slice ends, a new one begins and it yields. */
  function ClockTick(s: Clocked): (r: Clocked) {
    if s.kernel.current.Some? && s.kernel.current.value in s.budgets then
      var t := s.kernel.current.value;
      var b := s.budgets[t];
      if b.left == 1 then Clocked(Yielded(s.kernel), s.budgets[t := b.(left := b.ticks)])
      else if b.left > 1 then s.(budgets := s.budgets[t := b.(left := b.left - 1)])
      else s
    else s
  }

  function ClockTicks(s: Clocked, n: nat): (r: Clocked)
    decreases n
  {
    if n == 0 then s else ClockTicks(ClockTick(s), n - 1)
  }

  ghost predicate Budgeted(ids: seq<nat>, budgets: map<nat, Budget>) {
    forall i :: 0 <= i < |ids| ==> ids[i] in budgets && budgets[ids[i]].left >= 1 && budgets[ids[i]].ticks >= 1
  }

  /** The threads of a queue with their slices. */
  ghost function Slices(ids: seq<nat>, budgets: map<nat, Budget>): (q: Queue)
    requires Budgeted(ids, budgets)
    ensures |q| == |ids|
    ensures forall i :: 0 <= i < |ids| ==> q[i] == Slice(ids[i], budgets[ids[i]].ticks, budgets[ids[i]].left)
  {
    seq(|ids|, i requires 0 <= i < |ids| && ids[i] in budgets =>
      Slice(ids[i], budgets[ids[i]].ticks, budgets[ids[i]].left))
  }

  /** Priority `p` is the most urgent one with ready threads, and the first of them runs. */
  ghost predicate TopRuns(s: Clocked, p: nat) {
    && ReadyQueues.Valid(s.kernel) && s.kernel.locks == 0 && MostUrgent(s.kernel.queues, p)
    && s.kernel.current == Some(s.kernel.queues[p][0]) && Budgeted(s.kernel.queues[p], s.budgets)
  }

  /** The slices of the threads after the running one has lost a tick or got a new slice. */
  lemma SlicesChanged(ids: seq<nat>, budgets: map<nat, Budget>, b: Budget)
    requires Nodup(ids) && ids != [] && Budgeted(ids, budgets) && b.left >= 1 && b.ticks >= 1
    ensures Budgeted(ids, budgets[ids[0] := b])
    ensures Slices(ids, budgets[ids[0] := b]) == Slices(ids, budgets)[0 := Slice(ids[0], b.ticks, b.left)]
  {
  }

  lemma SlicesTurned(ids: seq<nat>, budgets: map<nat, Budget>)
    requires ids != [] && Budgeted(ids, budgets)
    ensures Budgeted(ids[1..] + [ids[0]], budgets)
    ensures Slices(ids[1..] + [ids[0]], budgets) == Slices(ids, budgets)[1..] + [Slices(ids, budgets)[0]]
  {
  }

  /** The queue turns and its new first thread runs. */
  lemma YieldTurns(k: Kernel, p: nat)
    requires ReadyQueues.Valid(k) && k.locks == 0 && MostUrgent(k.queues, p) && k.current == Some(k.queues[p][0])
    ensures var r, ids := Yielded(k), k.queues[p];
            && ReadyQueues.Valid(r) && r.locks == 0
            && r.queues == k.queues[p := if |ids| > 1 then ids[1..] + [ids[0]] else ids]
            && MostUrgent(r.queues, p) && r.current == Some(r.queues[p][0])
  {
    var ids := k.queues[p];
    assert QueueOk(k, p);
    assert ids[0] in ids && ThreadOk(k, ids[0]);
    StepKeeps(k, Yield);
    StepKeeps(Step(k, Yield), Schedule);
    if |ids| > 1 {
      var q := k.(queues := k.queues[p := Without(ids, ids[0]) + [ids[0]]]);
      assert Without(ids, ids[0]) == ids[1..];
      ScheduledFirst(q, p);
      assert MostUrgent(q.queues, p);
    }
  }

  /** One clock interrupt turns the slices of the most urgent queue as one tick does, and its first thread runs. */
  lemma TickRefines(s: Clocked, p: nat)
    requires TopRuns(s, p)
    ensures TopRuns(ClockTick(s), p)
    ensures Slices(ClockTick(s).kernel.queues[p], ClockTick(s).budgets) == Tick(Slices(s.kernel.queues[p], s.budgets))
  {
    var ids := s.kernel.queues[p];
    var t, b := ids[0], s.budgets[ids[0]];
    assert QueueOk(s.kernel, p);
    if b.left > 1 {
      SlicesChanged(ids, s.budgets, b.(left := b.left - 1));
    } else {
      var more := s.budgets[t := b.(left := b.ticks)];
      SlicesChanged(ids, s.budgets, b.(left := b.ticks));
      SlicesTurned(ids, more);
      YieldTurns(s.kernel, p);
    }
  }

  lemma {:induction false} TicksRefine(s: Clocked, p: nat, n: nat)
    requires TopRuns(s, p)
    ensures TopRuns(ClockTicks(s, n), p)
    ensures Slices(ClockTicks(s, n).kernel.queues[p], ClockTicks(s, n).budgets)
            == Ticks(Slices(s.kernel.queues[p], s.budgets), n)
    decreases n
  {
    if n > 0 {
      TickRefines(s, p);
      TicksRefine(ClockTick(s), p, n - 1);
    }
  }

  /**
   With a fixed set of ready threads at the most urgent priority, the thread at place `i` of
   the queue runs after exactly the ticks left ahead of it and for the ticks left of its own
   slice; then the next thread of the queue runs.
   */
  lemma ThreadsTakeTurns(s: Clocked, p: nat, i: nat, n: nat)
    requires TopRuns(s, p) && i < |s.kernel.queues[p]| && n < s.budgets[s.kernel.queues[p][i]].left
    ensures var ids := s.kernel.queues[p];
            var ahead := Wait(Slices(ids, s.budgets), i);
            && ClockTicks(s, ahead + n).kernel.current == Some(ids[i])
            && ClockTicks(s, ahead + s.budgets[ids[i]].left).kernel.current
               == Some(if i + 1 < |ids| then ids[i + 1] else ids[0])
  {
    var ids := s.kernel.queues[p];
    var q := Slices(ids, s.budgets);
    TurnLasts(q, i, n);
    CurrentIs(s, p, Wait(q, i) + n);
    CurrentIs(s, p, Wait(q, i) + q[i].left);
    NextFirst(q, i);
  }

  /** After any number of ticks the thread runs that is first in turn. */
  lemma CurrentIs(s: Clocked, p: nat, m: nat)
    requires TopRuns(s, p)
    ensures ClockTicks(s, m).kernel.current == Some(Ticks(Slices(s.kernel.queues[p], s.budgets), m)[0].id)
  {
    TicksRefine(s, p, m);
  }

  lemma NextFirst(q: Queue, i: nat)
    requires i < |q|
    ensures Turned(q, i + 1)[0].id == q[if i + 1 < |q| then i + 1 else 0].id
  {
    if i + 1 < |q| {
      TurnedOnce(q, i + 1);
    } else {
      assert q[..|q|] == q && q[|q|..] == [];
    }
  }

  // ----- the clock interrupt in place -----

  class Clock {
    const scheduler: S.Scheduler
    var budgets: map<nat, Budget>

    ghost function View(): (s: Clocked)
      reads this, scheduler
    {
      Clocked(scheduler.View(), budgets)
    }

    constructor (scheduler: S.Scheduler, budgets: map<nat, Budget>)
      ensures this.scheduler == scheduler && this.budgets == budgets
    {
      this.scheduler, this.budgets := scheduler, budgets;
    }

    /** One clock interrupt. */
    method Increase(ghost p: nat)
      requires TopRuns(View(), p)
      modifies this, scheduler
      ensures TopRuns(View(), p) && View() == ClockTick(old(View()))
    {
      TickRefines(View(), p);
      var t := scheduler.current.value;
      assert QueueOk(scheduler.View(), p) && t in scheduler.queues[p];
      budgets := budgets[t := budgets[t].(left := budgets[t].left - 1)];
      if budgets[t].left == 0 {
        budgets := budgets[t := budgets[t].(left := budgets[t].ticks)];
        scheduler.Yield();
      }
    }
  }
}
