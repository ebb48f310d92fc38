/**
 Message queues. A send takes a node of the pool, fills it outside any atomic region and
 links it; a receive unlinks a node, reads it outside any atomic region and gives it back.
 */
module MessageQueue {
  import opened Options
  import opened Lists
  import opened WaitList

  type Message = seq<int>

  datatype Phase =
    | Filling(node: nat, msg: Message, urgent: bool)
    | Filled(node: nat, msg: Message, urgent: bool)
    | Waiting(size: nat, timeout: int, since: int)
    | Woken(size: nat, timeout: int, since: int)
    | Draining(node: nat, msg: Message, size: nat)
    | Drained(node: nat, msg: Message, size: nat, buffer: seq<int>)

  /**
   `data` holds the nodes' buffers; `held` says which thread owns a node that is on neither
   list. `deque` is what the queue means: the messages in link order, urgent ones in front.
   */
  datatype System = System(
    msgSize: nat, flag: Flag, data: seq<seq<int>>, queue: seq<nat>, free: seq<nat>, held: map<nat, Thread>,
    receivers: seq<Thread>, woken: set<Thread>, phases: map<Thread, Phase>, deque: seq<Message>)

  datatype Event =
    | Send(t: Thread, msg: Message, urgent: bool)
    | Copy(t: Thread)
    | Link(t: Thread)
    | Recv(t: Thread, size: nat, timeout: int, now: int)
    | Again(t: Thread, now: int)
    | Read(t: Thread)
    | Release(t: Thread)
    | Expire(t: Thread)
    | Reset

  function HoldsNode(p: Phase): (r: Option<nat>) {
    match p
    case Filling(node, _, _) => Some(node)
    case Filled(node, _, _) => Some(node)
    case Draining(node, _, _) => Some(node)
    case Drained(node, _, _, _) => Some(node)
    case Waiting(_, _, _) => None
    case Woken(_, _, _) => None
  }

  /** A message is written over the front of a buffer; what is behind it stays. */
  function Overwritten(buffer: seq<int>, msg: Message): (r: seq<int>)
    ensures |msg| <= |buffer| ==> |r| == |buffer| && msg <= r && r[|msg|..] == buffer[|msg|..]
  {
    if |msg| <= |buffer| then msg + buffer[|msg|..] else buffer
  }

  function TakeNode(s: System, t: Thread, msg: Message, urgent: bool): (r: System)
    requires s.free != []
  {
    var n := s.free[0];
    s.(free := s.free[1..], held := s.held[n := t], phases := s.phases[t := Filling(n, msg, urgent)])
  }

  function FillNode(s: System, t: Thread, p: Phase): (r: System)
    requires p.Filling? && p.node < |s.data|
  {
    s.(data := s.data[p.node := Overwritten(s.data[p.node], p.msg)],
       phases := s.phases[t := Filled(p.node, p.msg, p.urgent)])
  }

  /** The receiver that has waited longest or is most urgent is made ready. */
  function WakeFirst(s: System): (r: System) {
    if s.receivers == [] || s.receivers[0] !in s.phases then s
    else
      var t := s.receivers[0];
      var p := s.phases[t];
      if p.Waiting? then
        s.(receivers := s.receivers[1..], woken := s.woken + {t},
           phases := s.phases[t := Woken(p.size, p.timeout, p.since)])
      else s
  }

  function LinkNode(s: System, t: Thread, p: Phase): (r: System)
    requires p.Filled?
  {
    var queue := if p.urgent then [p.node] + s.queue else s.queue + [p.node];
    var deque := if p.urgent then [p.msg] + s.deque else s.deque + [p.msg];
    s.(queue := queue, deque := deque, held := s.held - {p.node}, phases := s.phases - {t})
  }

  /** The region of a receive, on entry and after each wake-up. */
  function RecvRegion(s: System, t: Thread, size: nat, timeout: int, now: int): (r: System) {
    if s.queue != [] && s.deque != [] then
      var n := s.queue[0];
      s.(queue := s.queue[1..], deque := s.deque[1..], held := s.held[n := t],
         phases := s.phases[t := Draining(n, s.deque[0], size)])
    else if timeout == 0 then s.(phases := s.phases - {t})
    else s.(receivers := Enqueued(s.receivers, t, s.flag), phases := s.phases[t := Waiting(size, timeout, now)])
  }

  function ReadNode(s: System, t: Thread, p: Phase): (r: System)
    requires p.Draining? && p.node < |s.data|
  {
    var buffer := s.data[p.node];
    var n := if p.size > s.msgSize then s.msgSize else p.size;
    s.(phases := s.phases[t := Drained(p.node, p.msg, p.size, if n <= |buffer| then buffer[..n] else buffer)])
  }

  function GiveBack(s: System, t: Thread, p: Phase): (r: System)
    requires p.Drained?
  {
    s.(free := [p.node] + s.free, held := s.held - {p.node}, phases := s.phases - {t})
  }

  function AfterExpire(s: System, t: Thread): (r: System) {
    s.(receivers := Without(s.receivers, t), phases := s.phases - {t})
  }

  function Reversed(nodes: seq<nat>): (r: seq<nat>)
    ensures forall n :: n in r <==> n in nodes
    ensures |r| == |nodes|
  {
    if nodes == [] then [] else Reversed(nodes[1..]) + [nodes[0]]
  }

  /** Every queued node is freed and every waiting receiver fails; nodes held by threads stay theirs. */
  function AfterReset(s: System): (r: System) {
    var gone := set t | t in s.receivers;
    s.(queue := [], deque := [], free := Reversed(s.queue) + s.free, receivers := [], phases := s.phases - gone)
  }

  /** One event; an event that cannot happen changes nothing. */
  function Step(s: System, e: Event): (r: System) {
    match e
    case Send(t, msg, urgent) =>
      if t in s.phases || msg == [] || |msg| > s.msgSize || s.free == [] then s else TakeNode(s, t, msg, urgent)
    case Copy(t) =>
      if t in s.phases && s.phases[t].Filling? && s.phases[t].node < |s.data| then FillNode(s, t, s.phases[t]) else s
    case Link(t) =>
      if t in s.phases && s.phases[t].Filled? then WakeFirst(LinkNode(s, t, s.phases[t])) else s
    case Recv(t, size, timeout, now) =>
      if t in s.phases || size == 0 then s else RecvRegion(s, t, size, timeout, now)
    case Again(t, now) =>
      if t in s.phases && s.phases[t].Woken? then
        var p := s.phases[t];
        RecvRegion(s.(woken := s.woken - {t}, phases := s.phases - {t}), t, p.size,
                   Remaining(p.timeout, p.since, now), now)
      else s
    case Read(t) =>
      if t in s.phases && s.phases[t].Draining? && s.phases[t].node < |s.data| then ReadNode(s, t, s.phases[t]) else s
    case Release(t) =>
      if t in s.phases && s.phases[t].Drained? then GiveBack(s, t, s.phases[t]) else s
    case Expire(t) =>
      if t in s.phases && s.phases[t].Waiting? && s.phases[t].timeout > 0 then AfterExpire(s, t) else s
    case Reset => AfterReset(s)
  }

  function Run(s: System, events: seq<Event>): (r: System)
    decreases |events|
  {
    if events == [] then s else Run(Step(s, events[0]), events[1..])
  }

  /** A run goes through every one of its events, the last one last. */
  lemma {:induction false} RunSteps(s: System, events: seq<Event>, last: Event)
    ensures Run(s, []) == s && Run(s, events + [last]) == Step(Run(s, events), last)
    decreases |events|
  {
    assert [last][1..] == [];
    if events == [] {
      assert events + [last] == [last];
    } else {
      RunSteps(Step(s, events[0]), events[1..], last);
      assert (events + [last])[1..] == events[1..] + [last];
    }
  }

  // ----- what every run keeps -----

  /** On how many of the free list, the queue and the table of held nodes a node is. */
  ghost function Places(s: System, n: nat): (k: nat) {
    (if n in s.queue then 1 else 0) + (if n in s.free then 1 else 0) + (if n in s.held then 1 else 0)
  }

  /** Every node of the pool is in exactly one place, and nothing else is a node. */
  ghost predicate Partitioned(s: System) {
    Nodup(s.queue) && Nodup(s.free) && forall n: nat :: Places(s, n) == if n < |s.data| then 1 else 0
  }

  /** A thread in the middle of a call owns its node alone. */
  ghost predicate Owned(s: System) {
    && (forall t :: t in s.phases && HoldsNode(s.phases[t]).Some? ==>
                      HoldsNode(s.phases[t]).value in s.held && s.held[HoldsNode(s.phases[t]).value] == t)
    && (forall n :: n in s.held ==> s.held[n] in s.phases && HoldsNode(s.phases[s.held[n]]) == Some(n))
  }

  /** What a buffer holds for a phase: from the copy on the message, for a reader what it took off the queue. */
  ghost predicate Holds(s: System, p: Phase) {
    match p
    case Filling(node, msg, _) => |msg| <= s.msgSize
    case Filled(node, msg, _) => node < |s.data| && msg <= s.data[node]
    case Draining(node, msg, _) => node < |s.data| && msg <= s.data[node]
    case Drained(_, msg, size, buffer) =>
      && (msg <= buffer || buffer <= msg) && |msg| <= s.msgSize
      && |buffer| == if size < s.msgSize then size else s.msgSize
    case Waiting(_, _, _) => true
    case Woken(_, _, _) => true
  }

  ghost predicate Buffers(s: System) {
    && (forall n :: 0 <= n < |s.data| ==> |s.data[n]| == s.msgSize)
    && (forall t :: t in s.phases ==> Holds(s, s.phases[t]))
    && |s.queue| == |s.deque|
    && (forall i :: 0 <= i < |s.queue| ==> s.queue[i] < |s.data| && s.deque[i] <= s.data[s.queue[i]])
  }

  ghost predicate Receivers(s: System) {
    && Nodup(s.receivers) && Ordered(s.receivers, s.flag)
    && (forall t :: t in s.receivers <==> t in s.phases && s.phases[t].Waiting?)
    && (forall t :: t in s.woken <==> t in s.phases && s.phases[t].Woken?)
  }

  /** While a receiver is suspended, the queued messages outnumber the woken receivers by at most `extra`. */
  ghost predicate NoLostWakeup(s: System, extra: nat) {
    s.receivers != [] ==> |s.queue| <= |s.woken| + extra
  }

  ghost predicate Invariant(s: System) {
    Partitioned(s) && Owned(s) && Buffers(s) && Receivers(s) && NoLostWakeup(s, 0)
  }

  /** A thread takes a node that nobody holds. */
  lemma OwnedTake(s: System, r: System, t: Thread, n: nat, p: Phase)
    requires Owned(s) && t !in s.phases && n !in s.held && HoldsNode(p) == Some(n)
    requires r.held == s.held[n := t] && r.phases == s.phases[t := p]
    ensures Owned(r)
  {
  }

  /** A thread gives its node away. */
  lemma OwnedGive(s: System, r: System, t: Thread, n: nat)
    requires Owned(s) && t in s.phases && HoldsNode(s.phases[t]) == Some(n)
    requires r.held == s.held - {n} && r.phases == s.phases - {t}
    ensures Owned(r)
  {
  }

  lemma TakeKeeps(s: System, t: Thread, msg: Message, urgent: bool)
    requires Invariant(s) && t !in s.phases && |msg| <= s.msgSize && s.free != []
    ensures Invariant(TakeNode(s, t, msg, urgent))
  {
    var r, n := TakeNode(s, t, msg, urgent), s.free[0];
    assert s.free == [n] + s.free[1..];
    assert Places(s, n) == 1;
    assert Partitioned(r) by {
      assert forall m: nat :: Places(r, m) == Places(s, m);
    }
    OwnedTake(s, r, t, n, Filling(n, msg, urgent));
    assert Receivers(r) by {
    }
  }

  lemma FillKeeps(s: System, t: Thread)
    requires Invariant(s) && t in s.phases && s.phases[t].Filling? && s.phases[t].node < |s.data|
    ensures Invariant(FillNode(s, t, s.phases[t]))
  {
    var p := s.phases[t];
    var r := FillNode(s, t, p);
    assert Places(s, p.node) == 1;
    assert forall m: nat :: Places(r, m) == Places(s, m);
    assert Owned(r);
    assert Buffers(r);
  }

  /** The message goes from the phase of thread `t` to the queue. */
  lemma BuffersLinked(s: System, r: System, t: Thread, p: Phase)
    requires Buffers(s) && t in s.phases && s.phases[t] == p && p.Filled? && r == LinkNode(s, t, p)
    ensures Buffers(r)
  {
    assert Holds(s, p);
  }

  lemma LinkKeeps(s: System, t: Thread)
    requires Invariant(s) && t in s.phases && s.phases[t].Filled?
    ensures Invariant(WakeFirst(LinkNode(s, t, s.phases[t])))
  {
    var p := s.phases[t];
    var r := LinkNode(s, t, p);
    assert Places(s, p.node) == 1;
    assert Partitioned(r) by {
      assert forall m: nat :: Places(r, m) == Places(s, m);
    }
    OwnedGive(s, r, t, p.node);
    BuffersLinked(s, r, t, p);
    assert Receivers(r) by {
    }
    WakeKeeps(r);
  }

  lemma WakeKeeps(s: System)
    requires Partitioned(s) && Owned(s) && Buffers(s)
    requires Receivers(s) && NoLostWakeup(s, 1)
    ensures Invariant(WakeFirst(s))
  {
    var r := WakeFirst(s);
    RestMembers(s.receivers);
    if s.receivers != [] {
      assert s.receivers[0] in s.receivers;
      SameNodes(s, r);
    }
  }

  /** The first message goes from the queue to the phase of thread `t`. */
  lemma BuffersUnlinked(s: System, r: System, t: Thread, p: Phase)
    requires Buffers(s) && s.queue != [] && r.data == s.data && r.msgSize == s.msgSize
    requires r.queue == s.queue[1..] && r.deque == s.deque[1..] && r.phases == s.phases[t := p]
    requires p.Draining? && p.node == s.queue[0] && p.msg == s.deque[0]
    ensures Buffers(r)
  {
    assert forall i :: 0 <= i < |r.queue| ==> r.queue[i] == s.queue[i + 1] && r.deque[i] == s.deque[i + 1];
  }

  lemma UnlinkKeeps(s: System, t: Thread, size: nat, timeout: int, now: int)
    requires Partitioned(s) && Owned(s) && Buffers(s) && t !in s.phases
    requires Receivers(s) && NoLostWakeup(s, 1) && s.queue != []
    ensures Invariant(RecvRegion(s, t, size, timeout, now))
  {
    var r, n := RecvRegion(s, t, size, timeout, now), s.queue[0];
    assert s.queue == [n] + s.queue[1..];
    assert Places(s, n) == 1;
    assert Partitioned(r) by {
      assert forall m: nat :: Places(r, m) == Places(s, m);
    }
    OwnedTake(s, r, t, n, Draining(n, s.deque[0], size));
    BuffersUnlinked(s, r, t, Draining(n, s.deque[0], size));
    assert Receivers(r) by {
    }
  }

  lemma RecvKeeps(s: System, t: Thread, size: nat, timeout: int, now: int)
    requires Partitioned(s) && Owned(s) && Buffers(s) && t !in s.phases
    requires Receivers(s) && NoLostWakeup(s, 1)
    ensures Invariant(RecvRegion(s, t, size, timeout, now))
  {
    if s.queue != [] {
      UnlinkKeeps(s, t, size, timeout, now);
    } else if timeout != 0 {
      SuspendKeeps(s, t, size, timeout, now);
    } else {
      assert s.phases - {t} == s.phases;
    }
  }

  /** Nothing but the wait list and the phases of threads without a node changed. */
  lemma SameNodes(s: System, r: System)
    requires Partitioned(s) && Owned(s) && Buffers(s)
    requires r == s.(receivers := r.receivers, woken := r.woken, phases := r.phases)
    requires forall t :: t in s.phases && HoldsNode(s.phases[t]).Some? ==> t in r.phases && r.phases[t] == s.phases[t]
    requires forall t :: t in r.phases && HoldsNode(r.phases[t]).Some? ==> t in s.phases && r.phases[t] == s.phases[t]
    ensures Partitioned(r) && Owned(r) && Buffers(r)
  {
    assert Partitioned(r) by {
      assert forall m: nat :: Places(r, m) == Places(s, m);
    }
    assert Buffers(r) by {
      assert forall t :: t in r.phases && HoldsNode(r.phases[t]).Some? ==> Holds(s, s.phases[t]);
    }
  }

  lemma SuspendKeeps(s: System, t: Thread, size: nat, timeout: int, now: int)
    requires Partitioned(s) && Owned(s) && Buffers(s) && t !in s.phases
    requires Receivers(s) && s.queue == [] && timeout != 0
    ensures Invariant(RecvRegion(s, t, size, timeout, now))
  {
    var r := RecvRegion(s, t, size, timeout, now);
    SameNodes(s, r);
    assert Receivers(r) by {
      EnqueuedMembers(s.receivers, t, s.flag);
      EnqueuedOrder(s.receivers, t, s.flag);
    }
  }

  lemma AgainKeeps(s: System, t: Thread, now: int)
    requires Invariant(s) && t in s.phases && s.phases[t].Woken?
    ensures Invariant(Step(s, Again(t, now)))
  {
    var p := s.phases[t];
    var r := s.(woken := s.woken - {t}, phases := s.phases - {t});
    SameNodes(s, r);
    RecvKeeps(r, t, p.size, Remaining(p.timeout, p.since, now), now);
  }

  lemma ReadKeeps(s: System, t: Thread)
    requires Invariant(s) && t in s.phases && s.phases[t].Draining? && s.phases[t].node < |s.data|
    ensures Invariant(ReadNode(s, t, s.phases[t]))
  {
    var p := s.phases[t];
    var r := ReadNode(s, t, p);
    assert forall m: nat :: Places(r, m) == Places(s, m);
    assert Owned(r);
  }

  lemma GiveBackKeeps(s: System, t: Thread)
    requires Invariant(s) && t in s.phases && s.phases[t].Drained?
    ensures Invariant(GiveBack(s, t, s.phases[t]))
  {
    var p := s.phases[t];
    var r := GiveBack(s, t, p);
    assert Places(s, p.node) == 1;
    assert Partitioned(r) by {
      assert forall m: nat :: Places(r, m) == Places(s, m);
    }
    OwnedGive(s, r, t, p.node);
  }

  lemma ExpireKeeps(s: System, t: Thread)
    requires Invariant(s) && t in s.phases && s.phases[t].Waiting?
    ensures Invariant(AfterExpire(s, t))
  {
    var r := AfterExpire(s, t);
    WithoutOrder(s.receivers, t);
    NonEmpty(r.receivers, s.receivers);
    SameNodes(s, r);
  }

  lemma {:induction false} ReversedNodup(nodes: seq<nat>)
    requires Nodup(nodes)
    ensures Nodup(Reversed(nodes))
  {
    if nodes != [] {
      ReversedNodup(nodes[1..]);
      assert nodes[0] !in nodes[1..];
      assert forall i :: 0 <= i < |nodes| - 1 ==> Reversed(nodes[1..])[i] in nodes[1..];
    }
  }

  lemma ResetKeeps(s: System)
    requires Invariant(s)
    ensures Invariant(AfterReset(s))
  {
    var r := AfterReset(s);
    ReversedNodup(s.queue);
    forall m: nat
      ensures Places(r, m) == Places(s, m)
    {
      assert Places(s, m) <= 1;
    }
    forall i, j | 0 <= i < j < |r.free|
      ensures r.free[i] != r.free[j]
    {
      assert Places(s, r.free[i]) <= 1;
      assert i < |s.queue| ==> r.free[i] in s.queue;
      assert j >= |s.queue| ==> r.free[j] in s.free;
    }
  }

  lemma StepKeeps(s: System, e: Event)
    requires Invariant(s)
    ensures Invariant(Step(s, e))
  {
    if e.Send? || e.Copy? || e.Link? {
      SenderKeeps(s, e);
    } else {
      ReceiverKeeps(s, e);
    }
  }

  lemma SenderKeeps(s: System, e: Event)
    requires Invariant(s) && (e.Send? || e.Copy? || e.Link?)
    ensures Invariant(Step(s, e))
  {
    match e
    case Send(t, msg, urgent) =>
      if t !in s.phases && msg != [] && |msg| <= s.msgSize && s.free != [] {
        TakeKeeps(s, t, msg, urgent);
      }
    case Copy(t) =>
      if t in s.phases && s.phases[t].Filling? && s.phases[t].node < |s.data| {
        FillKeeps(s, t);
      }
    case Link(t) =>
      if t in s.phases && s.phases[t].Filled? {
        LinkKeeps(s, t);
      }
  }

  /** The steps of receivers, timeouts and the reset. */
  lemma ReceiverKeeps(s: System, e: Event)
    requires Invariant(s) && !e.Send? && !e.Copy? && !e.Link?
    ensures Invariant(Step(s, e))
  {
    match e
    case Recv(t, size, timeout, now) =>
      if t !in s.phases && size != 0 {
        RecvKeeps(s, t, size, timeout, now);
      }
    case Again(t, now) =>
      if t in s.phases && s.phases[t].Woken? {
        AgainKeeps(s, t, now);
      }
    case Read(t) =>
      if t in s.phases && s.phases[t].Draining? && s.phases[t].node < |s.data| {
        ReadKeeps(s, t);
      }
    case Release(t) =>
      if t in s.phases && s.phases[t].Drained? {
        GiveBackKeeps(s, t);
      }
    case Expire(t) =>
      if t in s.phases && s.phases[t].Waiting? {
        ExpireKeeps(s, t);
      }
    case Reset => ResetKeeps(s);
  }

  lemma {:induction false} RunKeeps(s: System, events: seq<Event>)
    requires Invariant(s)
    ensures Invariant(Run(s, events))
    decreases |events|
  {
    if events != [] {
      StepKeeps(s, events[0]);
      RunKeeps(Step(s, events[0]), events[1..]);
    }
  }

  /** The pool after initialisation: every node is free. */
  function Initial(msgSize: nat, flag: Flag, data: seq<seq<int>>, free: seq<nat>): (s: System) {
    System(msgSize, flag, data, [], free, map[], [], {}, map[], [])
  }

  /**
   In every interleaving from the start the nodes are partitioned, a thread that reads a
   node reads the message that was first in the queue when it was unlinked, and no
   wake-up is lost.
   */
  lemma Reachable(msgSize: nat, flag: Flag, data: seq<seq<int>>, free: seq<nat>, events: seq<Event>)
    requires forall n :: 0 <= n < |data| ==> |data[n]| == msgSize
    requires Nodup(free) && forall n :: n in free <==> 0 <= n < |data|
    ensures Invariant(Run(Initial(msgSize, flag, data, free), events))
  {
    var s := Initial(msgSize, flag, data, free);
    forall n: nat
      ensures Places(s, n) == if n < |s.data| then 1 else 0
    {
      assert n in free <==> n < |data|;
    }
    RunKeeps(s, events);
  }

  /** A receiver gets as much of the message as it asked for, and all of it if it asked for enough. */
  lemma Delivered(s: System, t: Thread)
    requires Invariant(s) && t in s.phases && s.phases[t].Drained?
    ensures var p := s.phases[t];
            && |p.buffer| == (if p.size < s.msgSize then p.size else s.msgSize)
            && (if p.size >= |p.msg| then p.msg <= p.buffer else p.buffer == p.msg[..p.size])
  {
    assert Holds(s, s.phases[t]);
  }

  // ----- what each event does -----

  /** The message that a thread is sending, and whether it is urgent. */
  function Sending(p: Phase): (r: Option<(Message, bool)>) {
    match p
    case Filling(_, msg, urgent) => Some((msg, urgent))
    case Filled(_, msg, urgent) => Some((msg, urgent))
    case _ => None
  }

  /** A send takes the first free node for the message it was called with; otherwise it is refused. */
  lemma SendMeans(s: System, t: Thread, msg: Message, urgent: bool)
    ensures var r := Step(s, Send(t, msg, urgent));
            if t !in s.phases && msg != [] && |msg| <= s.msgSize && s.free != [] then
              && r.phases == s.phases[t := Filling(s.free[0], msg, urgent)] && s.free == [s.free[0]] + r.free
              && r.queue == s.queue && r.deque == s.deque && r.data == s.data
            else r == s
  {
  }

  /** Until its node is linked, a send keeps the message it was called with. */
  lemma MessageStays(s: System, e: Event, t: Thread)
    requires t in s.phases && Sending(s.phases[t]).Some? && t in Step(s, e).phases && Invariant(s)
    ensures Sending(Step(s, e).phases[t]) == Sending(s.phases[t])
  {
    assert s.receivers != [] ==> s.receivers[0] in s.receivers;
  }

  /** The copy puts the message into the sender's node and changes no other. */
  lemma CopyMeans(s: System, t: Thread)
    requires Invariant(s) && t in s.phases && s.phases[t].Filling?
    ensures var r, p := Step(s, Copy(t)), s.phases[t];
            && r.phases == s.phases[t := Filled(p.node, p.msg, p.urgent)]
            && p.node < |r.data| == |s.data| && p.msg <= r.data[p.node]
            && forall n :: 0 <= n < |s.data| && n != p.node ==> r.data[n] == s.data[n]
  {
    assert Holds(s, s.phases[t]);
    assert Places(s, s.phases[t].node) == 1;
  }

  /** The queue after an event: a linked message is last, or first if it is urgent; a receive takes the first. */
  lemma DequeMoves(s: System, e: Event)
    requires Invariant(s)
    ensures var r := Step(s, e).deque;
            match e
            case Link(t) =>
              r == (if t in s.phases && s.phases[t].Filled? then
                      if s.phases[t].urgent then [s.phases[t].msg] + s.deque else s.deque + [s.phases[t].msg]
                    else s.deque)
            case Recv(t, size, _, _) => r == (if Receives(s, e) then s.deque[1..] else s.deque)
            case Again(t, _) => r == (if Receives(s, e) then s.deque[1..] else s.deque)
            case Reset => r == []
            case _ => r == s.deque
  {
    assert s.queue == [] <==> s.deque == [];
  }

  /** The event takes the first message off the queue. */
  predicate Receives(s: System, e: Event) {
    match e
    case Recv(t, size, _, _) => t !in s.phases && size != 0 && s.deque != []
    case Again(t, _) => t in s.phases && s.phases[t].Woken? && s.deque != []
    case _ => false
  }

  /** A receive gets the first message and keeps the size it asked for. */
  lemma RecvTakes(s: System, e: Event)
    requires Invariant(s) && Receives(s, e)
    ensures var r, size := Step(s, e), if e.Recv? then e.size else s.phases[e.t].size;
            && e.t in r.phases && r.phases[e.t].Draining?
            && r.phases[e.t].msg == s.deque[0] && r.phases[e.t].size == size
            && s.queue == [r.phases[e.t].node] + r.queue
  {
    assert |s.queue| == |s.deque|;
  }

  /** A receive from an empty queue suspends its thread, or is refused without a waiting time. */
  lemma EmptyWaits(s: System, t: Thread, size: nat, timeout: int, now: int)
    requires Invariant(s) && t !in s.phases && size != 0 && s.deque == []
    ensures var r := Step(s, Recv(t, size, timeout, now));
            && (timeout == 0 ==> r == s)
            && (timeout != 0 ==>
                  Joins(s.receivers, t, r.receivers) && r.phases == s.phases[t := Waiting(size, timeout, now)])
  {
    EnqueuedOrder(s.receivers, t, s.flag);
    assert s.queue == [];
    assert timeout == 0 ==> s.phases - {t} == s.phases;
  }

  /** So does a woken receiver that finds the queue empty, for the rest of its time. */
  lemma AgainWaits(s: System, t: Thread, now: int)
    requires Invariant(s) && t in s.phases && s.phases[t].Woken? && s.deque == []
    ensures var r, p := Step(s, Again(t, now)), s.phases[t];
            var rest := Remaining(p.timeout, p.since, now);
            if rest == 0 then r.phases == s.phases - {t} && r.receivers == s.receivers
            else Joins(s.receivers, t, r.receivers) && r.phases == s.phases[t := Waiting(p.size, rest, now)]
  {
    EnqueuedOrder(s.receivers, t, s.flag);
    assert s.queue == [];
  }

  /** A link wakes the receiver that waits first, which asks for what it asked for before. */
  lemma LinkWakes(s: System, t: Thread)
    requires Invariant(s) && t in s.phases && s.phases[t].Filled?
    ensures var r := Step(s, Link(t));
            && t !in r.phases
            && if s.receivers == [] then r.receivers == [] && r.woken == s.woken
               else
                 var w := s.receivers[0];
                 && s.receivers == [w] + r.receivers && r.woken == s.woken + {w}
                 && w in s.phases && s.phases[w].Waiting?
                 && w in r.phases && r.phases[w] == Woken(s.phases[w].size, s.phases[w].timeout, s.phases[w].since)
  {
    if s.receivers != [] {
      assert s.receivers[0] in s.receivers;
    }
  }

  /** A read keeps what the receive asked for; giving back frees the node first and ends the call. */
  lemma ReadMeans(s: System, t: Thread)
    requires Invariant(s) && t in s.phases && (s.phases[t].Draining? || s.phases[t].Drained?)
    ensures s.phases[t].Draining? ==>
              var r, p := Step(s, Read(t)), s.phases[t];
              t in r.phases && r.phases[t].Drained? && r.phases[t].node == p.node && r.phases[t].msg == p.msg
              && r.phases[t].size == p.size
    ensures s.phases[t].Drained? ==>
              var r := Step(s, Release(t));
              r.free == [s.phases[t].node] + s.free && r.phases == s.phases - {t}
  {
    assert Holds(s, s.phases[t]);
  }

  /** A thread that waits without a limit, or does not wait, does not time out. */
  lemma NoLimit(s: System, t: Thread)
    requires t !in s.phases || !s.phases[t].Waiting? || s.phases[t].timeout <= 0
    ensures Step(s, Expire(t)) == s
  {
  }

  /** A receiver whose time is over leaves the list. */
  lemma ExpireMeans(s: System, t: Thread)
    requires Invariant(s) && t in s.phases && s.phases[t].Waiting? && s.phases[t].timeout > 0
    ensures var r := Step(s, Expire(t));
            Drops(s.receivers, t, r.receivers) && r.phases == s.phases - {t} && r.deque == s.deque && r.free == s.free
  {
    WithoutSplits(s.receivers, t);
  }

  // ----- the lists of the queue object -----

  /** What the queue object itself holds. */
  datatype Pool = Pool(flag: Flag, size: nat, queue: seq<nat>, free: seq<nat>, receivers: seq<Thread>)

  function PoolOf(s: System): (p: Pool) {
    Pool(s.flag, |s.data|, s.queue, s.free, s.receivers)
  }

  function Taken(p: Pool): (r: Pool) {
    p.(free := if p.free == [] then [] else p.free[1..])
  }

  function Joined(p: Pool, n: nat, urgent: bool): (r: Pool) {
    p.(queue := if urgent then [n] + p.queue else p.queue + [n], receivers := Rest(p.receivers))
  }

  function Unlinked(p: Pool, t: Thread, timeout: int): (r: Pool) {
    if p.queue != [] then p.(queue := p.queue[1..])
    else if timeout == 0 then p
    else p.(receivers := Enqueued(p.receivers, t, p.flag))
  }

  function Returned(p: Pool, n: nat): (r: Pool) {
    p.(free := [n] + p.free)
  }

  function Emptied(p: Pool): (r: Pool) {
    p.(queue := [], free := Reversed(p.queue) + p.free, receivers := [])
  }

  /** What each event does to the lists of the queue object. */
  lemma StepOnPool(s: System, e: Event)
    requires Invariant(s) && Step(s, e) != s
    ensures var r := PoolOf(Step(s, e));
            match e
            case Send(_, _, _) => r == Taken(PoolOf(s))
            case Link(t) =>
              && t in s.phases && s.phases[t].Filled?
              && r == Joined(PoolOf(s), s.phases[t].node, s.phases[t].urgent)
            case Recv(t, _, timeout, _) => r == Unlinked(PoolOf(s), t, timeout)
            case Again(t, now) =>
              && t in s.phases && s.phases[t].Woken?
              && r == Unlinked(PoolOf(s), t, Remaining(s.phases[t].timeout, s.phases[t].since, now))
            case Release(t) => t in s.phases && s.phases[t].Drained? && r == Returned(PoolOf(s), s.phases[t].node)
            case Expire(t) => r == PoolOf(s).(receivers := Without(s.receivers, t))
            case Reset => r == Emptied(PoolOf(s))
            case Copy(_) => r == PoolOf(s)
            case Read(_) => r == PoolOf(s)
  {
    if e.Link? {
      var q := LinkNode(s, e.t, s.phases[e.t]);
      assert s.receivers != [] ==> s.receivers[0] in s.receivers;
      assert WakeFirst(q).receivers == Rest(s.receivers);
    }
  }

  /** The links lead from `head` through exactly these nodes. */
  ghost predicate Linked(next: seq<Option<nat>>, head: Option<nat>, nodes: seq<nat>)
    decreases |nodes|
  {
    if nodes == [] then head == None
    else nodes[0] < |next| && head == Some(nodes[0]) && Linked(next, next[nodes[0]], nodes[1..])
  }

  /** A link outside a list does not matter to it. */
  lemma {:induction false} LinkedFrame(next: seq<Option<nat>>, after: seq<Option<nat>>, head: Option<nat>,
                                       nodes: seq<nat>)
    requires Linked(next, head, nodes) && |after| == |next|
    requires forall n :: n in nodes && n < |next| ==> after[n] == next[n]
    ensures Linked(after, head, nodes)
    decreases |nodes|
  {
    if nodes != [] {
      LinkedFrame(next, after, next[nodes[0]], nodes[1..]);
    }
  }

  lemma {:induction false} LinkedAppend(next: seq<Option<nat>>, after: seq<Option<nat>>, head: Option<nat>,
                                        nodes: seq<nat>, n: nat)
    requires Linked(next, head, nodes) && nodes != [] && Nodup(nodes) && n < |next| && n !in nodes
    requires nodes[|nodes| - 1] < |next| && next[n] == None && after == next[nodes[|nodes| - 1] := Some(n)]
    ensures Linked(after, head, nodes + [n])
    decreases |nodes|
  {
    assert (nodes + [n])[1..] == nodes[1..] + [n];
    if |nodes| == 1 {
      assert Linked(after, Some(n), [n]);
      assert nodes[1..] + [n] == [n];
    } else {
      LinkedAppend(next, after, next[nodes[0]], nodes[1..], n);
    }
  }

  class Queue {
    const flag: Flag
    const next: array<Option<nat>>
    var head: Option<nat>
    var tail: Option<nat>
    var freeHead: Option<nat>
    var entry: nat
    var receivers: seq<Thread>
    ghost var queue: seq<nat>
    ghost var free: seq<nat>

    ghost function View(): (p: Pool)
      reads this
    {
      Pool(flag, next.Length, queue, free, receivers)
    }

    /** Head and tail are null exactly when the queue is empty, and the tail is otherwise the last node. */
    ghost predicate Valid()
      reads this, next
    {
      && Linked(next[..], head, queue) && Linked(next[..], freeHead, free)
      && Nodup(queue) && Nodup(free) && (forall n :: n in queue ==> n !in free)
      && (forall n :: n in queue || n in free ==> n < next.Length)
      && entry == |queue|
      && tail == if queue == [] then None else Some(queue[|queue| - 1])
    }

    /** All nodes go to the free list, the last one first. */
    constructor (max: nat, flag: Flag)
      ensures Valid() && fresh(next) && next.Length == max
      ensures queue == [] && receivers == [] && |free| == max && forall k :: 0 <= k < max ==> free[k] == max - 1 - k
    {
      this.flag := flag;
      next := new Option<nat>[max];
      head, tail, freeHead, entry := None, None, None, 0;
      receivers, queue, free := [], [], [];
      new;
      var temp := 0;
      while temp < max
        invariant 0 <= temp <= max && next.Length == max && queue == [] && receivers == []
        invariant Valid() && fresh(next)
        invariant |free| == temp && forall k :: 0 <= k < temp ==> free[k] == temp - 1 - k
      {
        GiveBack(temp);
        temp := temp + 1;
      }
    }

    /** A node that some thread holds. */
    ghost predicate Held(n: nat)
      reads this
    {
      n < next.Length && n !in queue && n !in free
    }

    /** The first region of a send. */
    method Take() returns (n: Option<nat>)
      requires Valid()
      modifies this`freeHead, this`free
      ensures Valid()
      ensures View() == Taken(old(View()))
      ensures if old(free) == [] then n == None else n == Some(old(free)[0]) && Held(n.value)
    {
      n := freeHead;
      if n.Some? {
        assert free == [free[0]] + free[1..];
        freeHead := next[n.value];
        free := free[1..];
      }
    }

    /** Between the regions of a send: the node will be the last one; no list changes. */
    method Terminate(n: nat)
      requires Valid() && Held(n)
      modifies next
      ensures Valid() && Held(n) && View() == old(View())
      ensures next[..] == old(next[..])[n := None]
    {
      ghost var before := next[..];
      next[n] := None;
      LinkedFrame(before, next[..], head, queue);
      LinkedFrame(before, next[..], freeHead, free);
    }

    method WakeFirst() returns (woken: Option<Thread>)
      requires Valid()
      modifies this`receivers
      ensures Valid() && receivers == Rest(old(receivers)) && woken == First(old(receivers))
    {
      if receivers != [] {
        woken := Some(receivers[0]);
        receivers := receivers[1..];
      } else {
        woken := None;
      }
    }

    /** The second region of a send. */
    method Append(n: nat) returns (woken: Option<Thread>)
      requires Valid() && Held(n) && next[n] == None
      modifies this, next
      ensures Valid()
      ensures View() == Joined(old(View()), n, false) && woken == First(old(receivers))
    {
      ghost var before := next[..];
      if tail.Some? {
        assert queue[|queue| - 1] in queue;
        next[tail.value] := Some(n);
        LinkedAppend(before, next[..], head, queue, n);
      } else {
        assert Linked(next[..], Some(n), [n]);
      }
      LinkedFrame(before, next[..], freeHead, free);
      tail := Some(n);
      if head.None? {
        head := Some(n);
      }
      entry := entry + 1;
      queue := queue + [n];
      woken := WakeFirst();
    }

    /** A send that nothing interrupts: refused without a free node, else the first free node is the last queued. */
    method Send() returns (sent: bool, woken: Option<Thread>)
      requires Valid()
      modifies this, next
      ensures Valid() && sent == (old(free) != [])
      ensures if sent then View() == Joined(Taken(old(View())), old(free)[0], false) && woken == First(old(receivers))
              else View() == old(View()) && woken == None
    {
      var n := Take();
      sent, woken := n.Some?, None;
      if sent {
        Terminate(n.value);
        woken := Append(n.value);
      }
    }

    /** The second region of an urgent send. */
    method Push(n: nat) returns (woken: Option<Thread>)
      requires Valid() && Held(n)
      modifies this, next
      ensures Valid()
      ensures View() == Joined(old(View()), n, true) && woken == First(old(receivers))
    {
      ghost var before := next[..];
      next[n] := head;
      LinkedFrame(before, next[..], head, queue);
      LinkedFrame(before, next[..], freeHead, free);
      head := Some(n);
      if tail.None? {
        tail := Some(n);
      }
      entry := entry + 1;
      assert ([n] + queue)[1..] == queue;
      queue := [n] + queue;
      woken := WakeFirst();
    }

    /** The first region of a receive: the first node, or none after waiting or refusing. */
    method Unlink(t: Thread, timeout: int) returns (n: Option<nat>)
      requires Valid()
      modifies this
      ensures Valid() && View() == Unlinked(old(View()), t, timeout)
      ensures if old(queue) == [] then n == None else n == Some(old(queue)[0]) && Held(n.value)
    {
      if entry == 0 {
        if timeout != 0 {
          receivers := Enqueue(receivers, t, flag);
        }
        return None;
      }
      var msg := RemoveFirst();
      return Some(msg);
    }

    method RemoveFirst() returns (msg: nat)
      requires Valid() && queue != []
      modifies this`head, this`tail, this`entry, this`queue
      ensures Valid() && msg == old(queue)[0] && queue == old(queue)[1..] && Held(msg)
    {
      assert queue == [queue[0]] + queue[1..];
      msg := head.value;
      head := next[msg];
      if tail == Some(msg) {
        tail := None;
      }
      entry := entry - 1;
      queue := queue[1..];
    }

    /** The last region of a receive. */
    method GiveBack(n: nat)
      requires Valid() && Held(n)
      modifies this`freeHead, this`free, next
      ensures Valid() && View() == Returned(old(View()), n)
    {
      ghost var before := next[..];
      next[n] := freeHead;
      LinkedFrame(before, next[..], head, queue);
      LinkedFrame(before, next[..], freeHead, free);
      freeHead := Some(n);
      assert ([n] + free)[1..] == free;
      free := [n] + free;
    }

    /** Wake all receivers and free the queued nodes one by one. */
    method Reset()
      requires Valid()
      modifies this, next
      ensures Valid() && View() == Emptied(old(View()))
    {
      receivers := [];
      while head.Some?
        invariant Valid() && receivers == []
        invariant Reversed(queue) + free == Reversed(old(queue)) + old(free)
        decreases |queue|
      {
        ReversedMove(queue, free);
        var msg := RemoveFirst();
        GiveBack(msg);
      }
      entry := 0;
    }
  }

  lemma ReversedMove(queue: seq<nat>, free: seq<nat>)
    requires queue != []
    ensures Reversed(queue) + free == Reversed(queue[1..]) + ([queue[0]] + free)
  {
  }
}
