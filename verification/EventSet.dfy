/** Event sets: flag bits, here sets of bit numbers, that threads wait for in combinations. */
module EventSet {
  import opened Options
  import opened Lists
  import opened WaitList

  type Bits = set<nat>

  datatype Rule = All | Any

  /** What a thread asks for: bits, how many of them, and whether they are cleared on receipt. */
  datatype Want = Want(bits: Bits, rule: Rule, clear: bool)

  predicate Satisfied(bits: Bits, w: Want) {
    match w.rule
    case All => bits * w.bits == w.bits
    case Any => bits * w.bits != {}
  }

  /** The rule of a receive that does not wait: the bits handed over and the bits left. */
  function Receive(bits: Bits, w: Want): (r: Option<(Bits, Bits)>) {
    if Satisfied(bits, w) then Some((bits * w.bits, if w.clear then bits - w.bits else bits)) else None
  }

  /** What a send does to one waiting thread: the bits handed over are kept in the thread's own request. */
  function Visit(bits: Bits, w: Want): (r: Option<(Bits, Bits)>) {
    if w.rule == All && w.bits * bits == w.bits then
      Some((w.bits, if w.clear then bits - w.bits else bits))
    else if w.rule == Any && w.bits * bits != {} then
      var got := w.bits * bits;
      Some((got, if w.clear then bits - got else bits))
    else None
  }

  /** A waiting thread gets the same bits, and the same bits are cleared, as if it had received just then. */
  lemma VisitIsReceive(bits: Bits, w: Want)
    ensures Visit(bits, w) == Receive(bits, w)
  {
    assert bits - w.bits == bits - w.bits * bits && w.bits * bits == bits * w.bits;
  }

  /** All bits of a request must be set, or one of them. */
  lemma SatisfiedIff(bits: Bits, w: Want)
    ensures Satisfied(bits, w) <==> if w.rule == All then forall b :: b in w.bits ==> b in bits
                                    else exists b :: b in w.bits && b in bits
  {
    if w.rule == All {
      assert Satisfied(bits, w) ==> forall b :: b in w.bits ==> b in bits * w.bits;
    } else if b :| b in w.bits && b in bits {
      assert b in bits * w.bits;
    }
  }

  /** A receive succeeds exactly if its request is met; it gets the bits it wants that are set, and may clear them. */
  lemma ReceiveMeans(bits: Bits, w: Want)
    ensures Receive(bits, w).Some? <==> Satisfied(bits, w)
    ensures Receive(bits, w).Some? ==>
              var (got, left) := Receive(bits, w).value;
              && (forall b :: b in got <==> b in bits && b in w.bits)
              && (forall b :: b in left <==> b in bits && !(w.clear && b in w.bits))
  {
  }

  // ----- a send: every waiting thread in turn -----

  /** The bits left, the threads still waiting, and the bits each woken thread got. */
  datatype Served = Served(bits: Bits, waiting: seq<Thread>, got: map<Thread, Bits>)

  /** Fold the immediate receive over the waiting threads in list order. */
  function Fold(bits: Bits, waiting: seq<Thread>, wants: map<Thread, Want>): (r: Served)
    requires forall t :: t in waiting ==> t in wants
  {
    if waiting == [] then Served(bits, [], map[])
    else
      match Receive(bits, wants[waiting[0]])
      case None =>
        var rest := Fold(bits, waiting[1..], wants);
        rest.(waiting := [waiting[0]] + rest.waiting)
      case Some(p) =>
        var rest := Fold(p.1, waiting[1..], wants);
        rest.(got := rest.got[waiting[0] := p.0])
  }

  lemma ReceiveWithin(bits: Bits, w: Want)
    ensures Receive(bits, w).Some? ==> Receive(bits, w).value.1 <= bits
  {
  }

  /** With fewer bits no thread is satisfied that was not before. */
  lemma SatisfiedMonotone(few: Bits, many: Bits, w: Want)
    requires few <= many && Satisfied(few, w)
    ensures Satisfied(many, w)
  {
    assert few * w.bits <= many * w.bits;
  }

  lemma {:induction false} FoldSettles(bits: Bits, waiting: seq<Thread>, wants: map<Thread, Want>)
    requires forall t :: t in waiting ==> t in wants
    ensures Fold(bits, waiting, wants).bits <= bits
    ensures forall t :: t in Fold(bits, waiting, wants).waiting ==>
                          t in wants && !Satisfied(Fold(bits, waiting, wants).bits, wants[t])
  {
    if waiting != [] {
      var t, rest := waiting[0], waiting[1..];
      var w := wants[t];
      match Receive(bits, w)
      case None =>
        FoldSettles(bits, rest, wants);
        if Satisfied(Fold(bits, rest, wants).bits, w) {
          SatisfiedMonotone(Fold(bits, rest, wants).bits, bits, w);
        }
      case Some(p) =>
        FoldSettles(p.1, rest, wants);
        ReceiveWithin(bits, w);
    }
  }

  /** Every waiting thread keeps waiting or is woken, never both. */
  lemma {:induction false} FoldMembers(bits: Bits, waiting: seq<Thread>, wants: map<Thread, Want>)
    requires (forall t :: t in waiting ==> t in wants) && Nodup(waiting)
    ensures var r := Fold(bits, waiting, wants);
            && Nodup(r.waiting)
            && (forall t :: t in r.waiting ==> t in waiting && t !in r.got)
            && (forall t :: t in r.got ==> t in waiting)
            && (forall t :: t in waiting ==> t in r.waiting || t in r.got)
  {
    if waiting != [] {
      var t, rest := waiting[0], waiting[1..];
      assert waiting == [t] + rest && t !in rest;
      match Receive(bits, wants[t])
      case None => FoldMembers(bits, rest, wants);
      case Some(p) => FoldMembers(p.1, rest, wants);
    }
  }

  /** The order of the threads that keep waiting stays. */
  lemma {:induction false} FoldSorted(bits: Bits, waiting: seq<Thread>, wants: map<Thread, Want>)
    requires (forall t :: t in waiting ==> t in wants) && Nodup(waiting) && Sorted(waiting)
    ensures Sorted(Fold(bits, waiting, wants).waiting)
  {
    if waiting != [] {
      var t, rest := waiting[0], waiting[1..];
      NodupTail(waiting);
      SortedFirst(t, rest);
      match Receive(bits, wants[t])
      case None =>
        FoldSorted(bits, rest, wants);
        FoldMembers(bits, rest, wants);
        SortedFirst(t, Fold(bits, rest, wants).waiting);
      case Some(p) => FoldSorted(p.1, rest, wants);
    }
  }

  /** What a woken thread got answers its request. */
  ghost predicate Answers(got: Bits, w: Want) {
    got <= w.bits && Satisfied(got, w)
  }

  lemma ReceiveAnswers(bits: Bits, w: Want)
    ensures Receive(bits, w).Some? ==> Answers(Receive(bits, w).value.0, w)
  {
    assert (bits * w.bits) * w.bits == bits * w.bits;
  }

  lemma {:induction false} FoldAnswers(bits: Bits, waiting: seq<Thread>, wants: map<Thread, Want>)
    requires forall t :: t in waiting ==> t in wants
    ensures var got := Fold(bits, waiting, wants).got;
            forall t :: t in got ==> t in wants && Answers(got[t], wants[t])
  {
    if waiting != [] {
      var w := wants[waiting[0]];
      match Receive(bits, w)
      case None => FoldAnswers(bits, waiting[1..], wants);
      case Some(p) =>
        FoldAnswers(p.1, waiting[1..], wants);
        ReceiveAnswers(bits, w);
    }
  }

  /** A single thread is woken exactly if it can receive. */
  lemma FoldOne(bits: Bits, t: Thread, wants: map<Thread, Want>)
    requires t in wants
    ensures Fold(bits, [t], wants) == match Receive(bits, wants[t])
                                      case None => Served(bits, [t], map[])
                                      case Some(p) => Served(p.1, [], map[t := p.0])
  {
    assert [t][1..] == [];
  }

  /** The threads that were served first, and then others with the bits that were left. */
  ghost function Joined(kept: seq<Thread>, got: map<Thread, Bits>, rest: Served): (r: Served) {
    Served(rest.bits, kept + rest.waiting, got + rest.got)
  }

  /** Threads are served in their order, each with the bits that those before it left. */
  lemma {:induction false} FoldInTurn(bits: Bits, a: seq<Thread>, b: seq<Thread>, wants: map<Thread, Want>)
    requires (forall t :: t in a ==> t in wants) && (forall t :: t in b ==> t in wants) && Nodup(a + b)
    ensures (forall t :: t in a + b ==> t in wants)
    ensures var first := Fold(bits, a, wants);
            Fold(bits, a + b, wants) == Joined(first.waiting, first.got, Fold(first.bits, b, wants))
    decreases |a|
  {
    if a == [] {
      assert a + b == b && map[] + Fold(bits, b, wants).got == Fold(bits, b, wants).got;
      assert [] + Fold(bits, b, wants).waiting == Fold(bits, b, wants).waiting;
    } else {
      var t, rest := a[0], a[1..];
      assert (a + b)[1..] == rest + b && a == [t] + rest;
      NodupTail(a + b);
      var left := match Receive(bits, wants[t]) case None => bits case Some(p) => p.1;
      FoldInTurn(left, rest, b, wants);
      var first := Fold(left, rest, wants);
      var next := Fold(first.bits, b, wants);
      if Receive(bits, wants[t]).None? {
        assert [t] + (first.waiting + next.waiting) == [t] + first.waiting + next.waiting;
      } else {
        NodupParts(rest, b);
        FoldMembers(first.bits, b, wants);
        GotFirst(t, Receive(bits, wants[t]).value.0, first.got, next.got);
      }
    }
  }

  lemma GotFirst(t: Thread, got: Bits, first: map<Thread, Bits>, next: map<Thread, Bits>)
    requires t !in next
    ensures (first + next)[t := got] == first[t := got] + next
  {
  }

  lemma NodupParts<T>(a: seq<T>, b: seq<T>)
    requires Nodup(a + b)
    ensures Nodup(b) && forall x :: x in b ==> x !in a
  {
    forall i, j | 0 <= i < j < |b|
      ensures b[i] != b[j]
    {
      assert (a + b)[|a| + i] != (a + b)[|a| + j];
    }
    forall x | x in b
      ensures x !in a
    {
      var j :| 0 <= j < |b| && b[j] == x;
      forall i | 0 <= i < |a|
        ensures a[i] != x
      {
        assert (a + b)[i] != (a + b)[|a| + j];
      }
    }
  }

  // ----- the system: one event object and any threads -----

  /** `wants` are the requests of suspended and woken threads, `got` what the woken ones were handed. */
  datatype System = System(
    bits: Bits, flag: Flag, waiting: seq<Thread>, wants: map<Thread, Want>, timed: set<Thread>, got: map<Thread, Bits>)

  datatype Event =
    | Send(bits: Bits)
    | Recv(t: Thread, want: Want, timeout: int)
    | Return(t: Thread)
    | Expire(t: Thread)
    | Reset

  /** Every waiting thread has a request on record. */
  predicate Recorded(s: System) {
    forall t :: t in s.waiting ==> t in s.wants
  }

  function AfterSend(s: System, bits: Bits): (r: System)
    requires Recorded(s)
  {
    var served := Fold(s.bits + bits, s.waiting, s.wants);
    s.(bits := served.bits, waiting := served.waiting, got := s.got + served.got)
  }

  function AfterRecv(s: System, t: Thread, w: Want, timeout: int): (r: System) {
    match Receive(s.bits, w)
    case Some(p) => s.(bits := p.1)
    case None =>
      if timeout == 0 then s
      else s.(waiting := Enqueued(s.waiting, t, s.flag), wants := s.wants[t := w],
              timed := if timeout > 0 then s.timed + {t} else s.timed - {t})
  }

  function AfterReset(s: System): (r: System) {
    var gone := set t | t in s.waiting;
    s.(bits := {}, waiting := [], wants := s.wants - gone)
  }

  /** One event; an event that cannot happen changes nothing. */
  function Step(s: System, e: Event): (r: System)
    requires Recorded(s)
  {
    match e
    case Send(bits) => if bits == {} then s else AfterSend(s, bits)
    case Recv(t, w, timeout) => if t in s.wants || w.bits == {} then s else AfterRecv(s, t, w, timeout)
    case Return(t) => if t in s.got then s.(got := s.got - {t}, wants := s.wants - {t}) else s
    case Expire(t) =>
      if t in s.waiting && t in s.timed then s.(waiting := Without(s.waiting, t), wants := s.wants - {t}) else s
    case Reset => AfterReset(s)
  }

  /** No suspended thread could receive with the bits as they are. */
  ghost predicate Settled(s: System) {
    forall t :: t in s.waiting ==> t in s.wants && !Satisfied(s.bits, s.wants[t])
  }

  ghost predicate Invariant(s: System) {
    && Settled(s)
    && Nodup(s.waiting) && Ordered(s.waiting, s.flag)
    && (forall t :: t in s.wants <==> t in s.waiting || t in s.got)
    && (forall t :: t in s.waiting ==> t !in s.got)
    && (forall t :: t in s.got ==> Answers(s.got[t], s.wants[t]))
  }

  lemma SendKeeps(s: System, bits: Bits)
    requires Invariant(s)
    ensures Invariant(AfterSend(s, bits))
  {
    FoldSettles(s.bits + bits, s.waiting, s.wants);
    FoldMembers(s.bits + bits, s.waiting, s.wants);
    FoldAnswers(s.bits + bits, s.waiting, s.wants);
    if s.flag == Prio {
      FoldSorted(s.bits + bits, s.waiting, s.wants);
    }
  }

  lemma RecvKeeps(s: System, t: Thread, w: Want, timeout: int)
    requires Invariant(s) && t !in s.wants
    ensures Invariant(AfterRecv(s, t, w, timeout))
  {
    ReceiveWithin(s.bits, w);
    EnqueuedMembers(s.waiting, t, s.flag);
    EnqueuedOrder(s.waiting, t, s.flag);
    var r := AfterRecv(s, t, w, timeout);
    forall x | x in r.waiting
      ensures !Satisfied(r.bits, r.wants[x])
    {
      if x != t && Satisfied(r.bits, r.wants[x]) {
        SatisfiedMonotone(r.bits, s.bits, s.wants[x]);
      }
    }
  }

  lemma StepKeeps(s: System, e: Event)
    requires Invariant(s)
    ensures Invariant(Step(s, e))
  {
    match e
    case Send(bits) => SendKeeps(s, bits);
    case Recv(t, w, timeout) =>
      if t !in s.wants {
        RecvKeeps(s, t, w, timeout);
      }
    case Return(t) =>
    case Expire(t) => WithoutOrder(s.waiting, t);
    case Reset =>
  }

  function Run(s: System, events: seq<Event>): (r: System)
    requires Invariant(s)
    ensures Invariant(r)
    decreases |events|
  {
    if events == [] then s
    else
      StepKeeps(s, events[0]);
      Run(Step(s, events[0]), events[1..])
  }

  /** A run goes through every one of its events, the last one last. */
  lemma {:induction false} RunSteps(s: System, events: seq<Event>, last: Event)
    requires Invariant(s)
    ensures Run(s, []) == s && Run(s, events + [last]) == Step(Run(s, events), last)
    decreases |events|
  {
    assert [last][1..] == [];
    if events == [] {
      assert events + [last] == [last];
    } else {
      StepKeeps(s, events[0]);
      RunSteps(Step(s, events[0]), events[1..], last);
      assert (events + [last])[1..] == events[1..] + [last];
    }
  }

  function Initial(flag: Flag): (s: System) {
    System({}, flag, [], map[], {}, map[])
  }

  /** In every run from the start, no suspended thread could receive with the bits as they are. */
  lemma Reachable(flag: Flag, events: seq<Event>)
    ensures Invariant(Initial(flag)) && Settled(Run(Initial(flag), events))
  {
    assert Invariant(Initial(flag));
  }

  // ----- what each event does -----

  /** A send to an object that nobody waits for adds the bits; otherwise the waiting threads are served with them. */
  lemma SendMeans(s: System, bits: Bits)
    requires Recorded(s)
    ensures var r := Step(s, Send(bits));
            && r.wants == s.wants && r.timed == s.timed
            && (s.waiting == [] ==> r.bits == s.bits + bits && r.waiting == [] && r.got == s.got)
            && (bits != {} ==> Served(r.bits, r.waiting, r.got)
                               == Joined([], s.got, Fold(s.bits + bits, s.waiting, s.wants)))
            && (bits == {} ==> r == s)
  {
    assert bits == {} ==> s.bits + bits == s.bits;
    assert s.got + map[] == s.got;
    var served := Fold(s.bits + bits, s.waiting, s.wants);
    assert [] + served.waiting == served.waiting;
  }

  /** A receive for no bits is refused; one that is met clears what it may; another waits, or is refused. */
  lemma RecvMeans(s: System, t: Thread, w: Want, timeout: int)
    requires Invariant(s) && t !in s.wants
    ensures w.bits == {} ==> Step(s, Recv(t, w, timeout)) == s
    ensures w.bits != {} ==>
            var r := Step(s, Recv(t, w, timeout));
            && (Satisfied(s.bits, w) ==> r == s.(bits := if w.clear then s.bits - w.bits else s.bits))
            && (!Satisfied(s.bits, w) && timeout == 0 ==> r == s)
            && (!Satisfied(s.bits, w) && timeout != 0 ==>
                  && Joins(s.waiting, t, r.waiting) && r.bits == s.bits && r.got == s.got
                  && r.wants == s.wants[t := w] && (t in r.timed <==> timeout > 0))
  {
    EnqueuedOrder(s.waiting, t, s.flag);
  }

  /** A timeout and the return of a woken thread end one call, a reset all that wait. */
  lemma EndsMean(s: System, t: Thread)
    requires Invariant(s)
    ensures t in s.waiting && t in s.timed ==>
              var r := Step(s, Expire(t));
              Drops(s.waiting, t, r.waiting) && r.wants == s.wants - {t} && r.bits == s.bits && r.got == s.got
    ensures !(t in s.waiting && t in s.timed) ==> Step(s, Expire(t)) == s
    ensures t in s.got ==> Step(s, Return(t)) == s.(got := s.got - {t}, wants := s.wants - {t})
    ensures var r := Step(s, Reset);
            && r.bits == {} && r.waiting == [] && r.got == s.got
            && forall x :: x in r.wants <==> x in s.got
  {
    WithoutSplits(s.waiting, t);
  }

  // ----- the event object in place -----

  lemma KeepNext(bits: Bits, kept: seq<Thread>, t: Thread, tail: seq<Thread>, wants: map<Thread, Want>,
                 got: map<Thread, Bits>)
    requires t in wants && (forall x :: x in tail ==> x in wants) && Receive(bits, wants[t]).None?
    ensures Joined(kept, got, Fold(bits, [t] + tail, wants)) == Joined(kept + [t], got, Fold(bits, tail, wants))
  {
    assert ([t] + tail)[1..] == tail;
    var q := Fold(bits, tail, wants).waiting;
    assert kept + ([t] + q) == kept + [t] + q;
  }

  lemma WakeNext(bits: Bits, kept: seq<Thread>, t: Thread, tail: seq<Thread>, wants: map<Thread, Want>,
                 got: map<Thread, Bits>)
    requires t in wants && (forall x :: x in tail ==> x in wants) && Receive(bits, wants[t]).Some?
    requires t !in tail && Nodup(tail)
    ensures var p := Receive(bits, wants[t]).value;
            Joined(kept, got, Fold(bits, [t] + tail, wants)) == Joined(kept, got[t := p.0], Fold(p.1, tail, wants))
  {
    assert ([t] + tail)[1..] == tail;
    var p := Receive(bits, wants[t]).value;
    FoldMembers(p.1, tail, wants);
    var g := Fold(p.1, tail, wants).got;
    assert got + g[t := p.0] == got[t := p.0] + g;
  }

  lemma Removed(list: seq<Thread>, n: nat, kept: seq<Thread>, rest: seq<Thread>)
    requires list == kept + rest && n == |kept| && rest != []
    ensures n < |list| && list[n] == rest[0]
    ensures list[..n] + list[n + 1..] == kept + rest[1..]
    ensures list == (kept + [rest[0]]) + rest[1..]
  {
  }

  lemma PassOver(kept: seq<Thread>, got: map<Thread, Bits>, bits: Bits, wants: map<Thread, Want>,
                 before: map<Thread, Bits>, goal: Served)
    requires Joined(kept, got, Fold(bits, [], wants)) == Joined([], before, goal)
    ensures kept == goal.waiting && bits == goal.bits && got == before + goal.got
  {
    assert got + map[] == got;
    assert kept + [] == kept && [] + goal.waiting == goal.waiting;
  }

  class EventObject {
    const flag: Flag
    var bits: Bits
    var waiting: seq<Thread>
    var wants: map<Thread, Want>
    var timed: set<Thread>
    var got: map<Thread, Bits>

    ghost function View(): (s: System)
      reads this
    {
      System(bits, flag, waiting, wants, timed, got)
    }

    ghost predicate Valid()
      reads this
    {
      Nodup(waiting) && forall t :: t in waiting ==> t in wants
    }

    constructor (flag: Flag)
      ensures Valid() && View() == Initial(flag)
    {
      this.flag := flag;
      bits, waiting, wants, timed, got := {}, [], map[], {}, map[];
    }

    /** Walk the list once, waking each thread whose request is met at that moment. */
    method Send(add: Bits) returns (ok: bool)
      requires Valid()
      modifies this
      ensures Valid() && ok == (add != {}) && View() == Step(old(View()), Event.Send(add))
    {
      if add == {} {
        return false;
      }
      bits := bits + add;
      FoldMembers(bits, waiting, wants);
      Serve();
      ok := true;
    }

    /** Serve the waiting threads in list order. */
    method Serve()
      requires Valid()
      modifies this`bits, this`waiting, this`got
      ensures var served := Fold(old(bits), old(waiting), wants);
              bits == served.bits && waiting == served.waiting && got == old(got) + served.got
    {
      ghost var goal, kept, rest := Fold(bits, waiting, wants), [], waiting;
      var n := 0;
      while n < |waiting|
        invariant Pass(n, kept, rest, old(got), goal)
        decreases |rest|
      {
        NodupTail(rest);
        Removed(waiting, n, kept, rest);
        n, kept, rest := Next(n, kept, rest[0], rest[1..], old(got), goal);
      }
      assert rest == [];
      PassOver(kept, got, bits, wants, old(got), goal);
    }

    /** In the middle of a send: `kept` were passed over, `rest` are still to be served. */
    ghost predicate Pass(n: int, kept: seq<Thread>, rest: seq<Thread>, before: map<Thread, Bits>, goal: Served)
      reads this
    {
      && waiting == kept + rest && n == |kept|
      && Nodup(rest) && (forall t :: t in rest ==> t in wants)
      && Joined(kept, got, Fold(bits, rest, wants)) == Joined([], before, goal)
    }

    method Next(n: nat, ghost kept: seq<Thread>, ghost t: Thread, ghost tail: seq<Thread>,
                ghost before: map<Thread, Bits>, ghost goal: Served)
      returns (m: nat, ghost kept': seq<Thread>, ghost rest': seq<Thread>)
      requires n < |waiting| && waiting[n] == t && waiting[..n] + waiting[n + 1..] == kept + tail
      requires n == |kept| && waiting == (kept + [t]) + tail
      requires Nodup(tail) && t !in tail && t in wants && forall x :: x in tail ==> x in wants
      requires Joined(kept, got, Fold(bits, [t] + tail, wants)) == Joined([], before, goal)
      modifies this`bits, this`waiting, this`got
      ensures Pass(m, kept', rest', before, goal) && rest' == tail
    {
      var thread := waiting[n];
      VisitIsReceive(bits, wants[thread]);
      rest' := tail;
      match Visit(bits, wants[thread])
      case None =>
        KeepNext(bits, kept, t, tail, wants, got);
        m, kept' := n + 1, kept + [t];
      case Some(p) =>
        WakeNext(bits, kept, t, tail, wants, got);
        bits, got := p.1, got[thread := p.0];
        waiting := waiting[..n] + waiting[n + 1..];
        m, kept' := n, kept;
    }

    /** Receive at once, fail, or wait: the bits handed over, if any. */
    method Recv(t: Thread, w: Want, timeout: int) returns (r: Option<Bits>)
      requires Valid() && t !in wants
      modifies this
      ensures Valid() && View() == Step(old(View()), Event.Recv(t, w, timeout))
      ensures r == match Receive(old(bits), w)
                   case Some(p) => (if w.bits == {} then None else Some(p.0))
                   case None => None
    {
      if w.bits == {} {
        return None;
      }
      if (w.rule == All && bits * w.bits == w.bits) || (w.rule == Any && bits * w.bits != {}) {
        r := Some(bits * w.bits);
        if w.clear {
          bits := bits - w.bits;
        }
      } else {
        r := None;
        if timeout != 0 {
          EnqueuedMembers(waiting, t, flag);
          wants := wants[t := w];
          waiting := Enqueue(waiting, t, flag);
          timed := if timeout > 0 then timed + {t} else timed - {t};
        }
      }
    }
  }
}
