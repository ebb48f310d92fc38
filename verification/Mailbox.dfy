/**
 Mailboxes. A call runs in atomic regions (interrupts off): one when it enters and one
 each time its thread runs again after being woken. Between them, anything may happen.
 */
module Mailbox {
  import opened Options
  import opened Lists
  import opened WaitList

  // ----- one atomic region -----

  datatype Box = Box(size: nat, flag: Flag, mails: seq<int>, senders: seq<Thread>, receivers: seq<Thread>)

  /** A region refuses, suspends its thread, or moves one mail and may wake a thread of the other side. */
  datatype Result = Refused | Waits | Done(mail: int, woken: Option<Thread>)

  function SendRegion(b: Box, t: Thread, mail: int, timeout: int): (r: (Box, Result)) {
    if |b.mails| < b.size then
      (b.(mails := b.mails + [mail], receivers := Rest(b.receivers)), Done(mail, First(b.receivers)))
    else if timeout == 0 then (b, Refused)
    else (b.(senders := Enqueued(b.senders, t, b.flag)), Waits)
  }

  function RecvRegion(b: Box, t: Thread, timeout: int): (r: (Box, Result)) {
    if b.mails != [] then
      (b.(mails := b.mails[1..], senders := Rest(b.senders)), Done(b.mails[0], First(b.senders)))
    else if timeout == 0 then (b, Refused)
    else (b.(receivers := Enqueued(b.receivers, t, b.flag)), Waits)
  }

  // ----- the system: one mailbox and any threads -----

  datatype Call = Call(mail: int, timeout: int, since: int)

  /** `sent` are the mails accepted and not thrown away by a reset, `received` those handed out. */
  datatype System = System(
    box: Box, calls: map<Thread, Call>, wokenSenders: set<Thread>, wokenReceivers: set<Thread>,
    sent: seq<int>, received: seq<int>)

  datatype Event =
    | BeginSend(t: Thread, mail: int, timeout: int, now: int)
    | BeginRecv(t: Thread, timeout: int, now: int)
    | Again(t: Thread, now: int)
    | Expire(t: Thread)
    | Reset

  function Woken(set0: set<Thread>, woken: Option<Thread>): (r: set<Thread>) {
    match woken case None => set0 case Some(t) => set0 + {t}
  }

  function AfterSend(s: System, t: Thread, call: Call): (r: System) {
    var (box, result) := SendRegion(s.box, t, call.mail, call.timeout);
    match result
    case Refused => s.(box := box, calls := s.calls - {t})
    case Waits => s.(box := box, calls := s.calls[t := call])
    case Done(mail, woken) =>
      s.(box := box, calls := s.calls - {t}, wokenReceivers := Woken(s.wokenReceivers, woken), sent := s.sent + [mail])
  }

  function AfterRecv(s: System, t: Thread, call: Call): (r: System) {
    var (box, result) := RecvRegion(s.box, t, call.timeout);
    match result
    case Refused => s.(box := box, calls := s.calls - {t})
    case Waits => s.(box := box, calls := s.calls[t := call])
    case Done(mail, woken) =>
      s.(box := box, calls := s.calls - {t}, wokenSenders := Woken(s.wokenSenders, woken),
         received := s.received + [mail])
  }

  /** A woken thread runs its region again with what is left of its waiting time. */
  function Later(call: Call, now: int): (r: Call) {
    Call(call.mail, Remaining(call.timeout, call.since, now), now)
  }

  function AfterExpire(s: System, t: Thread): (r: System) {
    s.(box := s.box.(senders := Without(s.box.senders, t), receivers := Without(s.box.receivers, t)),
       calls := s.calls - {t})
  }

  function AfterReset(s: System): (r: System) {
    var gone := (set t | t in s.box.senders) + (set t | t in s.box.receivers);
    s.(box := s.box.(mails := [], senders := [], receivers := []), calls := s.calls - gone, sent := s.received)
  }

  /** One event; an event that cannot happen changes nothing. */
  function Step(s: System, e: Event): (r: System) {
    match e
    case BeginSend(t, mail, timeout, now) =>
      if t in s.calls then s else AfterSend(s, t, Call(mail, timeout, now))
    case BeginRecv(t, timeout, now) =>
      if t in s.calls then s else AfterRecv(s, t, Call(0, timeout, now))
    case Again(t, now) =>
      if t !in s.calls then s
      else if t in s.wokenSenders then
        AfterSend(s.(wokenSenders := s.wokenSenders - {t}, calls := s.calls - {t}), t, Later(s.calls[t], now))
      else if t in s.wokenReceivers then
        AfterRecv(s.(wokenReceivers := s.wokenReceivers - {t}, calls := s.calls - {t}), t, Later(s.calls[t], now))
      else s
    case Expire(t) =>
      if t in s.calls && s.calls[t].timeout > 0 && (t in s.box.senders || t in s.box.receivers) then AfterExpire(s, t)
      else s
    case Reset => AfterReset(s)
  }

  function Run(s: System, events: seq<Event>): (r: System)
    decreases |events|
  {
    if events == [] then s else Run(Step(s, events[0]), events[1..])
  }

  function Initial(size: nat, flag: Flag): (s: System) {
    System(Box(size, flag, [], [], []), map[], {}, {}, [], [])
  }

  // ----- what every run keeps -----

  /** In how many places a thread's call is: suspended as a sender or receiver, or woken as one. */
  ghost function Places(s: System, t: Thread): (n: nat) {
    (if t in s.box.senders then 1 else 0) + (if t in s.box.receivers then 1 else 0)
    + (if t in s.wokenSenders then 1 else 0) + (if t in s.wokenReceivers then 1 else 0)
  }

  /** Every pending call is in exactly one place, and only pending calls are. */
  ghost predicate Placed(s: System) {
    forall t :: Places(s, t) == if t in s.calls then 1 else 0
  }

  ghost predicate Queues(s: System) {
    && Nodup(s.box.senders) && Ordered(s.box.senders, s.box.flag)
    && Nodup(s.box.receivers) && Ordered(s.box.receivers, s.box.flag)
  }

  /**
   While a sender is suspended, no more slots are free than senders were woken that have
   not run again; while a receiver is suspended, no more mails are stored than receivers were.
   */
  ghost predicate NoLostWakeup(s: System) {
    && (s.box.senders != [] ==> s.box.size - |s.box.mails| <= |s.wokenSenders|)
    && (s.box.receivers != [] ==> |s.box.mails| <= |s.wokenReceivers|)
  }

  ghost predicate Invariant(s: System) {
    && Placed(s) && Queues(s) && NoLostWakeup(s)
    && |s.box.mails| <= s.box.size
    && s.sent == s.received + s.box.mails
  }

  lemma SendKeepsPlaces(s: System, t: Thread, call: Call)
    requires Placed(s) && Queues(s) && t !in s.calls
    ensures Placed(AfterSend(s, t, call)) && Queues(AfterSend(s, t, call))
  {
    var r := AfterSend(s, t, call);
    assert Places(s, t) == 0;
    EnqueuedMembers(s.box.senders, t, s.box.flag);
    EnqueuedOrder(s.box.senders, t, s.box.flag);
    RestMembers(s.box.receivers);
    forall x
      ensures Places(r, x) == if x in r.calls then 1 else 0
    {
      assert Places(s, x) == if x in s.calls then 1 else 0;
    }
  }

  lemma RecvKeepsPlaces(s: System, t: Thread, call: Call)
    requires Placed(s) && Queues(s) && t !in s.calls
    ensures Placed(AfterRecv(s, t, call)) && Queues(AfterRecv(s, t, call))
  {
    var r := AfterRecv(s, t, call);
    assert Places(s, t) == 0;
    EnqueuedMembers(s.box.receivers, t, s.box.flag);
    EnqueuedOrder(s.box.receivers, t, s.box.flag);
    RestMembers(s.box.senders);
    forall x
      ensures Places(r, x) == if x in r.calls then 1 else 0
    {
      assert Places(s, x) == if x in s.calls then 1 else 0;
    }
  }

  lemma SendKeeps(s: System, t: Thread, call: Call)
    requires Placed(s) && Queues(s) && t !in s.calls && |s.box.mails| <= s.box.size
    requires s.sent == s.received + s.box.mails
    requires s.box.receivers != [] ==> |s.box.mails| <= |s.wokenReceivers|
    requires s.box.senders != [] ==> s.box.size - |s.box.mails| <= |s.wokenSenders| + 1
    ensures Invariant(AfterSend(s, t, call))
  {
    SendKeepsPlaces(s, t, call);
    var r := AfterSend(s, t, call);
    if |s.box.mails| < s.box.size {
      assert s.received + (s.box.mails + [call.mail]) == s.sent + [call.mail];
      if s.box.receivers != [] {
        assert Places(s, s.box.receivers[0]) <= 1;
        assert s.box.receivers[0] !in s.wokenReceivers;
      }
    }
  }

  lemma RecvKeeps(s: System, t: Thread, call: Call)
    requires Placed(s) && Queues(s) && t !in s.calls && |s.box.mails| <= s.box.size
    requires s.sent == s.received + s.box.mails
    requires s.box.receivers != [] ==> |s.box.mails| <= |s.wokenReceivers| + 1
    requires s.box.senders != [] ==> s.box.size - |s.box.mails| <= |s.wokenSenders|
    ensures Invariant(AfterRecv(s, t, call))
  {
    RecvKeepsPlaces(s, t, call);
    var r := AfterRecv(s, t, call);
    if s.box.mails != [] {
      assert s.received + s.box.mails == s.received + [s.box.mails[0]] + s.box.mails[1..];
      if s.box.senders != [] {
        assert Places(s, s.box.senders[0]) <= 1;
        assert s.box.senders[0] !in s.wokenSenders;
      }
    }
  }

  lemma AgainKeeps(s: System, t: Thread, now: int)
    requires Invariant(s) && t in s.calls
    ensures Invariant(Step(s, Again(t, now)))
  {
    assert Places(s, t) == 1;
    if t in s.wokenSenders {
      var r := s.(wokenSenders := s.wokenSenders - {t}, calls := s.calls - {t});
      LeaveKeepsPlaces(s, t, r);
      SendKeeps(r, t, Later(s.calls[t], now));
    } else if t in s.wokenReceivers {
      var r := s.(wokenReceivers := s.wokenReceivers - {t}, calls := s.calls - {t});
      LeaveKeepsPlaces(s, t, r);
      RecvKeeps(r, t, Later(s.calls[t], now));
    }
  }

  /** A thread leaves its place. */
  lemma LeaveKeepsPlaces(s: System, t: Thread, r: System)
    requires Placed(s) && t in s.calls && r.calls == s.calls - {t}
    requires forall x :: Places(r, x) == if x == t then 0 else Places(s, x)
    ensures Placed(r)
  {
    forall x
      ensures Places(r, x) == if x in r.calls then 1 else 0
    {
      assert Places(s, x) == if x in s.calls then 1 else 0;
    }
  }

  lemma ExpireKeeps(s: System, t: Thread)
    requires Invariant(s) && t in s.calls && (t in s.box.senders || t in s.box.receivers)
    ensures Invariant(AfterExpire(s, t))
  {
    var r := AfterExpire(s, t);
    WithoutOrder(s.box.senders, t);
    WithoutOrder(s.box.receivers, t);
    assert Places(s, t) == 1;
    LeaveKeepsPlaces(s, t, r);
    NonEmpty(r.box.senders, s.box.senders);
    NonEmpty(r.box.receivers, s.box.receivers);
  }

  lemma ResetKeeps(s: System)
    requires Invariant(s)
    ensures Invariant(AfterReset(s))
  {
    var r := AfterReset(s);
    forall x
      ensures Places(r, x) == if x in r.calls then 1 else 0
    {
      assert Places(s, x) == if x in s.calls then 1 else 0;
    }
  }

  lemma StepKeeps(s: System, e: Event)
    requires Invariant(s)
    ensures Invariant(Step(s, e))
  {
    match e
    case BeginSend(t, mail, timeout, now) =>
      if t !in s.calls {
        SendKeeps(s, t, Call(mail, timeout, now));
      }
    case BeginRecv(t, timeout, now) =>
      if t !in s.calls {
        RecvKeeps(s, t, Call(0, timeout, now));
      }
    case Again(t, now) =>
      if t in s.calls {
        AgainKeeps(s, t, now);
      }
    case Expire(t) =>
      if t in s.calls && (t in s.box.senders || t in s.box.receivers) {
        ExpireKeeps(s, t);
      }
    case Reset => ResetKeeps(s);
  }

  /** No wake-up is lost and mails arrive in the order sent, in every interleaving from the start. */
  lemma {:induction false} RunKeeps(s: System, events: seq<Event>)
    requires Invariant(s)
    ensures Invariant(Run(s, events)) && Run(s, events).received <= Run(s, events).sent
    decreases |events|
  {
    if events != [] {
      StepKeeps(s, events[0]);
      RunKeeps(Step(s, events[0]), events[1..]);
    }
  }

  lemma Reachable(size: nat, flag: Flag, events: seq<Event>)
    ensures Invariant(Run(Initial(size, flag), events))
  {
    RunKeeps(Initial(size, flag), events);
  }

  /** Once every woken thread has run again, senders wait only on a full box and receivers only on an empty one. */
  lemma Settled(size: nat, flag: Flag, events: seq<Event>)
    requires Run(Initial(size, flag), events).wokenSenders == {}
    requires Run(Initial(size, flag), events).wokenReceivers == {}
    ensures var b := Run(Initial(size, flag), events).box;
            && (b.senders != [] ==> |b.mails| == b.size)
            && (b.receivers != [] ==> b.mails == [])
            && (b.size > 0 ==> b.senders == [] || b.receivers == [])
  {
    Reachable(size, flag, events);
  }

  // ----- what each event does -----

  /** The mail that the event puts into the box, if it does. */
  function Accepts(s: System, e: Event): (mail: Option<int>) {
    match e
    case BeginSend(t, mail, _, _) => if t !in s.calls && |s.box.mails| < s.box.size then Some(mail) else None
    case Again(t, _) =>
      if t in s.calls && t in s.wokenSenders && |s.box.mails| < s.box.size then Some(s.calls[t].mail) else None
    case _ => None
  }

  /** The event takes a mail out of the box. */
  predicate Delivers(s: System, e: Event) {
    match e
    case BeginRecv(t, _, _) => t !in s.calls && s.box.mails != []
    case Again(t, _) => t in s.calls && t !in s.wokenSenders && t in s.wokenReceivers && s.box.mails != []
    case _ => false
  }

  /** What is in the box, and what was sent and received, after an event: the mail that the event is about. */
  lemma MailsMove(s: System, e: Event)
    requires e != Reset
    ensures var r, mail := Step(s, e), Accepts(s, e);
            && r.sent == s.sent + (if mail.Some? then [mail.value] else [])
            && r.received == s.received + (if Delivers(s, e) then s.box.mails[..1] else [])
            && r.box.mails == (if mail.Some? then s.box.mails + [mail.value]
                               else if Delivers(s, e) then s.box.mails[1..] else s.box.mails)
  {
  }

  /** A mail moves only if the one that waited first on the other side, if any, is woken. */
  lemma FirstWoken(s: System, e: Event)
    ensures Accepts(s, e).Some? ==>
              var r := Step(s, e);
              if s.box.receivers == [] then r.box.receivers == [] && r.wokenReceivers == s.wokenReceivers
              else s.box.receivers == [s.box.receivers[0]] + r.box.receivers
                   && r.wokenReceivers == s.wokenReceivers + {s.box.receivers[0]}
    ensures Delivers(s, e) ==>
              var r := Step(s, e);
              if s.box.senders == [] then r.box.senders == [] && r.wokenSenders == s.wokenSenders
              else s.box.senders == [s.box.senders[0]] + r.box.senders
                   && r.wokenSenders == s.wokenSenders + {s.box.senders[0]}
  {
  }

  /** A send to a full box suspends its thread with the mail it carries, or is refused without a waiting time. */
  lemma FullWaits(s: System, t: Thread, mail: int, timeout: int, now: int)
    requires Queues(s) && t !in s.calls && |s.box.mails| >= s.box.size
    ensures var r := Step(s, BeginSend(t, mail, timeout, now));
            && r.box.mails == s.box.mails && r.box.receivers == s.box.receivers && r.sent == s.sent
            && (timeout == 0 ==> r == s)
            && (timeout != 0 ==>
                  Joins(s.box.senders, t, r.box.senders) && r.calls == s.calls[t := Call(mail, timeout, now)])
  {
    EnqueuedOrder(s.box.senders, t, s.box.flag);
    assert timeout == 0 ==> s.calls - {t} == s.calls;
  }

  lemma EmptyWaits(s: System, t: Thread, timeout: int, now: int)
    requires Queues(s) && t !in s.calls && s.box.mails == []
    ensures var r := Step(s, BeginRecv(t, timeout, now));
            && r.box.mails == [] && r.box.senders == s.box.senders && r.received == s.received
            && (timeout == 0 ==> r == s)
            && (timeout != 0 ==>
                  Joins(s.box.receivers, t, r.box.receivers) && t in r.calls && r.calls[t].timeout == timeout)
  {
    EnqueuedOrder(s.box.receivers, t, s.box.flag);
    assert timeout == 0 ==> s.calls - {t} == s.calls;
  }

  /** A woken thread that finds the box as it was waits for the rest of its time, or gives up if none is left. */
  lemma AgainWaits(s: System, t: Thread, now: int)
    requires Queues(s) && t in s.calls && (t in s.wokenSenders || t in s.wokenReceivers)
    requires if t in s.wokenSenders then |s.box.mails| >= s.box.size else s.box.mails == []
    ensures var r, rest := Step(s, Again(t, now)), Remaining(s.calls[t].timeout, s.calls[t].since, now);
            && r.box.mails == s.box.mails && (t in r.calls <==> rest != 0)
            && (rest != 0 && t in s.wokenSenders ==>
                  Joins(s.box.senders, t, r.box.senders) && r.calls[t] == Call(s.calls[t].mail, rest, now))
            && (rest != 0 && t !in s.wokenSenders ==>
                  Joins(s.box.receivers, t, r.box.receivers) && r.calls[t] == Call(s.calls[t].mail, rest, now))
  {
    EnqueuedOrder(s.box.senders, t, s.box.flag);
    EnqueuedOrder(s.box.receivers, t, s.box.flag);
  }

  /** A call that goes on keeps the mail it began with. */
  lemma MailStays(s: System, e: Event, t: Thread)
    requires t in s.calls && t in Step(s, e).calls
    ensures Step(s, e).calls[t].mail == s.calls[t].mail
  {
  }

  /** A thread whose waiting time is over leaves the list it is on; nothing else changes. */
  lemma ExpireMeans(s: System, t: Thread)
    requires Invariant(s) && t in s.calls && s.calls[t].timeout > 0 && (t in s.box.senders || t in s.box.receivers)
    ensures var r := Step(s, Expire(t));
            && r.calls == s.calls - {t} && r.box.mails == s.box.mails && r.sent == s.sent && r.received == s.received
            && Drops(s.box.senders, t, r.box.senders) && Drops(s.box.receivers, t, r.box.receivers)
  {
    WithoutSplits(s.box.senders, t);
    WithoutSplits(s.box.receivers, t);
  }

  /** A thread that waits without a limit, or does not wait, does not time out. */
  lemma NoLimit(s: System, t: Thread)
    requires t !in s.calls || s.calls[t].timeout <= 0 || (t !in s.box.senders && t !in s.box.receivers)
    ensures Step(s, Expire(t)) == s
  {
  }

  /** After a reset nothing is stored and nobody waits; what was not received is lost. */
  lemma ResetMeans(s: System)
    ensures var r := Step(s, Reset);
            && r.box == Box(s.box.size, s.box.flag, [], [], []) && r.sent == s.received && r.received == s.received
            && forall t :: t in r.calls <==> t in s.calls && t !in s.box.senders && t !in s.box.receivers
  {
  }

  /** The mails that a run puts into the box, by its events. */
  ghost function Asked(s: System, events: seq<Event>): (mails: seq<int>)
    decreases |events|
  {
    if events == [] then []
    else
      var mail := Accepts(s, events[0]);
      (if mail.Some? then [mail.value] else []) + Asked(Step(s, events[0]), events[1..])
  }

  /** In a run without a reset, what is received is the first part of what the events put into the box. */
  lemma {:induction false} ReceivedIsAsked(s: System, events: seq<Event>)
    requires Invariant(s) && forall i :: 0 <= i < |events| ==> events[i] != Reset
    ensures Run(s, events).sent == s.sent + Asked(s, events)
    ensures Run(s, events).received <= s.sent + Asked(s, events)
    decreases |events|
  {
    if events != [] {
      var e, q := events[0], Step(s, events[0]);
      MailsMove(s, e);
      StepKeeps(s, e);
      ReceivedIsAsked(q, events[1..]);
      var mail := Accepts(s, e);
      assert s.sent + Asked(s, events)
          == s.sent + (if mail.Some? then [mail.value] else []) + Asked(q, events[1..]);
    }
  }

  // ----- the mailbox in place -----

  /** Places of the ring: a sum of an offset and a count, wrapped once. */
  function Wrap(x: nat, size: nat): (r: nat)
    requires x < 2 * size
    ensures r < size
  {
    if x < size then x else x - size
  }

  lemma WrapIsRemainder(x: nat, size: nat)
    requires x < 2 * size
    ensures Wrap(x, size) == x % size
  {
  }

  /** The `n` mails from place `out` on. */
  ghost function Window(pool: seq<int>, out: nat, n: nat): (mails: seq<int>)
    requires n == 0 || (out < |pool| && n <= |pool|)
    ensures |mails| == n
    ensures forall i :: 0 <= i < n ==> mails[i] == pool[Wrap(out + i, |pool|)]
  {
    if n == 0 then [] else Window(pool, out, n - 1) + [pool[Wrap(out + n - 1, |pool|)]]
  }

  class Mailbox {
    const size: nat
    const flag: Flag
    const pool: array<int>
    var entry: nat
    var inOffset: nat
    var outOffset: nat
    var senders: seq<Thread>
    var receivers: seq<Thread>

    ghost predicate Valid()
      reads this, pool
    {
      && pool.Length == size && entry <= size
      && (size == 0 ==> inOffset == 0 && outOffset == 0)
      && (size > 0 ==> outOffset < size && inOffset == Wrap(outOffset + entry, size))
    }

    lemma Offsets()
      requires Valid() && size > 0
      ensures inOffset == (outOffset + entry) % size
    {
      WrapIsRemainder(outOffset + entry, size);
    }

    ghost function View(): (b: Box)
      requires Valid()
      reads this, pool
    {
      Box(size, flag, Window(pool[..], outOffset, entry), senders, receivers)
    }

    constructor (size: nat, flag: Flag)
      ensures Valid() && View() == Initial(size, flag).box && fresh(pool)
    {
      this.size, this.flag := size, flag;
      pool := new int[size];
      entry, inOffset, outOffset := 0, 0, 0;
      senders, receivers := [], [];
    }

    /** The region of a send, on entry and after each wake-up. */
    method Send(t: Thread, mail: int, timeout: int) returns (result: Result)
      requires Valid()
      modifies this, pool
      ensures Valid()
      ensures (View(), result) == SendRegion(old(View()), t, mail, timeout)
    {
      if entry == size {
        if timeout == 0 {
          return Refused;
        }
        senders := Enqueue(senders, t, flag);
        return Waits;
      }
      Deposit(mail);
      if receivers != [] {
        result := Done(mail, Some(receivers[0]));
        receivers := receivers[1..];
      } else {
        result := Done(mail, None);
      }
    }

    /** Store a mail behind the others. */
    method Deposit(mail: int)
      requires Valid() && entry < size
      modifies this`inOffset, this`entry, pool
      ensures Valid() && View() == old(View()).(mails := old(View()).mails + [mail])
    {
      ghost var ring := pool[..];
      pool[inOffset] := mail;
      Deposited(ring, outOffset, entry, mail, pool[..]);
      inOffset := inOffset + 1;
      if inOffset >= size {
        inOffset := 0;
      }
      entry := entry + 1;
    }

    /** The region of a receive, on entry and after each wake-up. */
    method Recv(t: Thread, timeout: int) returns (result: Result)
      requires Valid()
      modifies this
      ensures Valid()
      ensures (View(), result) == RecvRegion(old(View()), t, timeout)
    {
      if entry == 0 {
        if timeout == 0 {
          return Refused;
        }
        receivers := Enqueue(receivers, t, flag);
        return Waits;
      }
      var mail := pool[outOffset];
      Removed(pool[..], outOffset, entry);
      outOffset := outOffset + 1;
      if outOffset >= size {
        outOffset := 0;
      }
      entry := entry - 1;
      if senders != [] {
        result := Done(mail, Some(senders[0]));
        senders := senders[1..];
      } else {
        result := Done(mail, None);
      }
    }

    method Control()
      requires Valid()
      modifies this
      ensures Valid() && View() == old(View()).(mails := [], senders := [], receivers := [])
    {
      senders, receivers := [], [];
      entry, inOffset, outOffset := 0, 0, 0;
    }
  }

  lemma Deposited(ring: seq<int>, out: nat, n: nat, mail: int, after: seq<int>)
    requires out < |ring| && n < |ring| && after == ring[Wrap(out + n, |ring|) := mail]
    ensures Window(after, out, n + 1) == Window(ring, out, n) + [mail]
  {
    var a, b := Window(after, out, n + 1), Window(ring, out, n) + [mail];
    forall i | 0 <= i < n
      ensures a[i] == b[i]
    {
    }
  }

  lemma Removed(ring: seq<int>, out: nat, n: nat)
    requires out < |ring| && 0 < n <= |ring|
    ensures Window(ring, out, n)[0] == ring[out]
    ensures Window(ring, if out + 1 >= |ring| then 0 else out + 1, n - 1) == Window(ring, out, n)[1..]
  {
    var next := if out + 1 >= |ring| then 0 else out + 1;
    var a, b := Window(ring, next, n - 1), Window(ring, out, n)[1..];
    forall i | 0 <= i < n - 1
      ensures a[i] == b[i]
    {
      assert Wrap(next + i, |ring|) == Wrap(out + (i + 1), |ring|);
    }
  }
}
