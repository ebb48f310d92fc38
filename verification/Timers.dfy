/**
 Hard timers. Time is a natural number and the tick the kernel sees is that number in
 32 bits; a timer stores the tick it is due at, and `due` is the time that tick means.
 */
module Timers {

  const WRAP: nat := 0x1_0000_0000
  const HALF: nat := 0x7fff_ffff

  /** A started timer: its length, when it is due, and the number of its start. */
  datatype Timer = Timer(id: nat, ticks: nat, periodic: bool, due: nat, serial: nat)

  function Timeout(t: Timer): (tick: nat) {
    t.due % WRAP
  }

  /** Unsigned subtraction of ticks. */
  function Minus(a: nat, b: nat): (d: nat)
    requires a < WRAP && b < WRAP
    ensures d < WRAP
  {
    (a - b) % WRAP
  }

  /** Subtracting ticks that wrap gives the distance of times less than one turn apart. */
  lemma Distance(a: nat, b: nat)
    requires b <= a < b + WRAP
    ensures Minus(a % WRAP, b % WRAP) == a - b
    ensures a != b ==> Minus(b % WRAP, a % WRAP) == WRAP - (a - b)
  {
    var p, q := a / WRAP, b / WRAP;
    assert a == p * WRAP + a % WRAP && b == q * WRAP + b % WRAP;
    assert p == q || p == q + 1;
  }

  /** How the kernel tells that timer `t` comes after a timer due at that tick. */
  predicate Later(t: Timer, tick: nat)
    requires tick < WRAP
  {
    Minus(Timeout(t), tick) != 0 && Minus(Timeout(t), tick) < HALF
  }

  /** How the kernel tells that a timer is due. */
  predicate Expired(t: Timer, tick: nat)
    requires tick < WRAP
  {
    Minus(tick, Timeout(t)) < HALF
  }

  /** Within half a turn the comparisons say what they should, also across the wrap. */
  lemma Comparisons(t: Timer, due: nat)
    requires t.due < due + 0x7fff_ffff && due <= t.due + 0x7fff_ffff
    ensures Later(t, due % WRAP) <==> due < t.due
  {
    if due <= t.due {
      Distance(t.due, due);
    } else {
      Distance(due, t.due);
    }
  }

  lemma ExpiredIsDue(t: Timer, time: nat)
    requires t.due < time + 0x7fff_ffff && time < t.due + 0x7fff_ffff
    ensures Expired(t, time % WRAP) <==> t.due <= time
  {
    if t.due <= time {
      Distance(time, t.due);
    } else {
      Distance(t.due, time);
    }
  }

  /** Which timers the comparisons call later and expired, among times less than a turn apart. */
  lemma ComparisonsExact(t: Timer, time: nat)
    ensures time <= t.due < time + WRAP ==> (Later(t, time % WRAP) <==> 0 < t.due - time < 0x7fff_ffff)
    ensures t.due <= time < t.due + WRAP ==> (Expired(t, time % WRAP) <==> time - t.due < 0x7fff_ffff)
  {
    if time <= t.due < time + WRAP {
      Distance(t.due, time);
    }
    if t.due <= time < t.due + WRAP {
      Distance(time, t.due);
    }
  }

  // ----- the list -----

  /** Earlier due first, and among timers due together the one started first. */
  ghost predicate InOrder(a: Timer, b: Timer) {
    a.due < b.due || (a.due == b.due && a.serial < b.serial)
  }

  ghost predicate Sorted(list: seq<Timer>) {
    forall i, j {:trigger InOrder(list[i], list[j])} :: 0 <= i < j < |list| ==> InOrder(list[i], list[j])
  }

  /** How many timers at the front are due by that time. */
  function Cut(list: seq<Timer>, due: nat): (k: nat)
    ensures k <= |list|
    ensures forall i :: 0 <= i < k ==> list[i].due <= due
    ensures k < |list| ==> due < list[k].due
  {
    if list == [] || due < list[0].due then 0 else 1 + Cut(list[1..], due)
  }

  function Inserted(list: seq<Timer>, t: Timer): (r: seq<Timer>) {
    if list == [] || t.due < list[0].due then [t] + list else [list[0]] + Inserted(list[1..], t)
  }

  function Removed(list: seq<Timer>, id: nat): (r: seq<Timer>) {
    if list == [] then []
    else if list[0].id == id then Removed(list[1..], id)
    else [list[0]] + Removed(list[1..], id)
  }

  /** The walk of the kernel: past every timer that the comparison does not call later. */
  function Placed(list: seq<Timer>, t: Timer): (r: seq<Timer>) {
    if list == [] || Later(list[0], t.due % WRAP) then [t] + list else [list[0]] + Placed(list[1..], t)
  }

  /** A timer that the comparison places correctly. */
  ghost predicate Comparable(x: Timer, due: nat) {
    x.due < due + HALF && due <= x.due + HALF
  }

  lemma {:induction false} PlacedIsInserted(list: seq<Timer>, t: Timer)
    requires forall x :: x in list ==> Comparable(x, t.due)
    ensures Placed(list, t) == Inserted(list, t)
  {
    if list != [] {
      assert Comparable(list[0], t.due);
      Comparisons(list[0], t.due);
      PlacedIsInserted(list[1..], t);
    }
  }

  lemma {:induction false} PlacedMembers(list: seq<Timer>, t: Timer)
    ensures forall x :: x in Placed(list, t) <==> x in list || x == t
  {
    if list != [] && !Later(list[0], t.due % WRAP) {
      PlacedMembers(list[1..], t);
      assert list == [list[0]] + list[1..];
    }
  }

  /** A timer goes behind all that are not due later. */
  lemma {:induction false} InsertedAt(list: seq<Timer>, t: Timer)
    ensures Inserted(list, t) == list[..Cut(list, t.due)] + [t] + list[Cut(list, t.due)..]
  {
    if list != [] && list[0].due <= t.due {
      var rest := list[1..];
      InsertedAt(rest, t);
      assert list[..Cut(list, t.due)] == [list[0]] + rest[..Cut(rest, t.due)];
    }
  }

  lemma InsertedMembers(list: seq<Timer>, t: Timer)
    ensures forall x :: x in Inserted(list, t) <==> x in list || x == t
  {
    InsertedAt(list, t);
    var k := Cut(list, t.due);
    var a, b := list[..k], list[k..];
    assert list == a + b;
    assert forall x :: x in a + [t] + b <==> x in a + b || x == t;
  }

  /** A sorted list by its first timer and the others. */
  lemma SortedFirst(t: Timer, rest: seq<Timer>)
    ensures Sorted([t] + rest) <==> Sorted(rest) && forall x :: x in rest ==> InOrder(t, x)
  {
    var list := [t] + rest;
    if Sorted(list) {
      forall i, j | 0 <= i < j < |rest|
        ensures InOrder(rest[i], rest[j])
      {
        assert InOrder(list[i + 1], list[j + 1]);
      }
      forall x | x in rest
        ensures InOrder(t, x)
      {
        var j :| 0 <= j < |rest| && rest[j] == x;
        assert InOrder(list[0], list[j + 1]);
      }
    } else if forall x :: x in rest ==> InOrder(t, x) {
      var i, j :| 0 <= i < j < |list| && !InOrder(list[i], list[j]);
      assert list[j] == rest[j - 1] && rest[j - 1] in rest;
      assert i > 0 && !InOrder(rest[i - 1], rest[j - 1]);
    }
  }

  lemma {:induction false} InsertedSorted(list: seq<Timer>, t: Timer)
    requires Sorted(list) && forall x :: x in list ==> x.serial < t.serial
    ensures Sorted(Inserted(list, t))
  {
    if list == [] || t.due < list[0].due {
      NoneEarlier(list);
      SortedFirst(t, list);
    } else {
      var rest := list[1..];
      assert list == [list[0]] + rest;
      SortedFirst(list[0], rest);
      InsertedSorted(rest, t);
      InsertedMembers(rest, t);
      SortedFirst(list[0], Inserted(rest, t));
    }
  }

  lemma NoneEarlier(list: seq<Timer>)
    requires Sorted(list)
    ensures list != [] ==> forall x :: x in list ==> list[0].due <= x.due
  {
    if list != [] {
      assert list == [list[0]] + list[1..];
      SortedFirst(list[0], list[1..]);
    }
  }

  lemma {:induction false} RemovedMembers(list: seq<Timer>, id: nat)
    ensures forall x :: x in Removed(list, id) <==> x in list && x.id != id
    ensures Sorted(list) ==> Sorted(Removed(list, id))
  {
    if list != [] {
      var rest := list[1..];
      assert list == [list[0]] + rest;
      RemovedMembers(rest, id);
      SortedFirst(list[0], rest);
      SortedFirst(list[0], Removed(rest, id));
    }
  }

  ghost predicate Differ(a: Timer, b: Timer) {
    a.id != b.id
  }

  /** Every timer is listed once. */
  ghost predicate Unique(list: seq<Timer>) {
    forall i, j {:trigger Differ(list[i], list[j])} :: 0 <= i < j < |list| ==> Differ(list[i], list[j])
  }

  lemma UniqueFirst(t: Timer, rest: seq<Timer>)
    ensures Unique([t] + rest) <==> Unique(rest) && forall x :: x in rest ==> Differ(t, x)
  {
    var list := [t] + rest;
    if Unique(list) {
      forall i, j | 0 <= i < j < |rest|
        ensures Differ(rest[i], rest[j])
      {
        assert Differ(list[i + 1], list[j + 1]);
      }
      forall x | x in rest
        ensures Differ(t, x)
      {
        var j :| 0 <= j < |rest| && rest[j] == x;
        assert Differ(list[0], list[j + 1]);
      }
    } else if forall x :: x in rest ==> Differ(t, x) {
      var i, j :| 0 <= i < j < |list| && !Differ(list[i], list[j]);
      assert list[j] == rest[j - 1] && rest[j - 1] in rest;
      assert i > 0 && !Differ(rest[i - 1], rest[j - 1]);
    }
  }

  lemma {:induction false} RemovedUnique(list: seq<Timer>, id: nat)
    requires Unique(list)
    ensures Unique(Removed(list, id))
  {
    if list != [] {
      var rest := list[1..];
      assert list == [list[0]] + rest;
      UniqueFirst(list[0], rest);
      RemovedUnique(rest, id);
      RemovedMembers(rest, id);
      UniqueFirst(list[0], Removed(rest, id));
    }
  }

  lemma {:induction false} InsertedUnique(list: seq<Timer>, t: Timer)
    requires Unique(list) && forall x :: x in list ==> x.id != t.id
    ensures Unique(Inserted(list, t))
  {
    if list == [] || t.due < list[0].due {
      UniqueFirst(t, list);
    } else {
      var rest := list[1..];
      assert list == [list[0]] + rest;
      UniqueFirst(list[0], rest);
      InsertedUnique(rest, t);
      InsertedMembers(rest, t);
      UniqueFirst(list[0], Inserted(rest, t));
    }
  }

  predicate Listed(list: seq<Timer>, id: nat) {
    list != [] && (list[0].id == id || Listed(list[1..], id))
  }

  lemma {:induction false} ListedMember(list: seq<Timer>, id: nat)
    ensures Listed(list, id) <==> exists t :: t in list && t.id == id
  {
    if list != [] {
      assert list == [list[0]] + list[1..];
      ListedMember(list[1..], id);
    }
  }

  lemma {:induction false} RemovedListed(list: seq<Timer>, x: nat, id: nat)
    ensures Listed(Removed(list, x), id) <==> x != id && Listed(list, id)
  {
    if list != [] {
      RemovedListed(list[1..], x, id);
      if list[0].id != x {
        assert Removed(list, x)[1..] == Removed(list[1..], x);
      }
    }
  }

  lemma {:induction false} PlacedListed(list: seq<Timer>, t: Timer, id: nat)
    ensures Listed(Placed(list, t), id) <==> Listed(list, id) || t.id == id
  {
    if list == [] || Later(list[0], t.due % WRAP) {
      assert ([t] + list)[1..] == list;
    } else {
      PlacedListed(list[1..], t, id);
      assert Placed(list, t)[1..] == Placed(list[1..], t);
    }
  }

  /** Linking a timer that is listed puts it into the list a second time. */
  lemma {:induction false} LinkedTwice(list: seq<Timer>, t: Timer)
    requires Listed(list, t.id)
    ensures !Unique(Placed(list, t))
  {
    if Later(list[0], t.due % WRAP) {
      ListedMember(list, t.id);
      var x :| x in list && x.id == t.id;
      UniqueFirst(t, list);
      assert !Differ(t, x);
    } else {
      var rest := Placed(list[1..], t);
      PlacedMembers(list[1..], t);
      UniqueFirst(list[0], rest);
      if list[0].id == t.id {
        assert t in rest && !Differ(list[0], t);
      } else {
        LinkedTwice(list[1..], t);
      }
    }
  }

  // ----- the clock: ticks, checks and the calls between and inside them -----

  datatype Phase = Idle | Checking | Callback(t: Timer)

  /** What starts write into a timer: its length, whether it is periodic, and when it is due. */
  datatype Fields = Fields(ticks: nat, periodic: bool, due: nat)

  /** A link: when the timer was to be due, and the time of the first check that sees it. */
  datatype Entry = Entry(due: nat, check: nat)

  /**
   `begun` are the starts that have removed their timer, `timed` those that have also read the
   tick, each with its link still to come; several starts of one timer may be under way. `active`
   are the timers whose flag says so. Links are numbered. `fired` records each expiry with the
   time it happened at.
   */
  datatype State = State(
    time: nat, phase: Phase, list: seq<Timer>, fields: map<nat, Fields>, begun: multiset<nat>, timed: multiset<nat>,
    active: set<nat>, links: seq<Entry>, fired: seq<(Timer, nat)>)

  /**
   A thread that starts a timer can be interrupted between `Begin`, `Read` and `Link`; a start
   with interrupts off, as in a callback or in the calls that suspend a thread, is one `Start`.
   */
  datatype Event =
    | Tick | Expire | Return | Leave
    | Begin(id: nat, ticks: nat, periodic: bool)
    | Read(id: nat)
    | Link(id: nat)
    | Start(id: nat, ticks: nat, periodic: bool)
    | Stop(id: nat)

  function Of(s: State, id: nat): (f: Fields) {
    if id in s.fields then s.fields[id] else Fields(0, false, 0)
  }

  /** The time of the first check that sees a timer linked now. */
  function FirstCheck(s: State): (time: nat) {
    if s.phase == Idle then s.time + 1 else s.time
  }

  function Linked(s: State, id: nat, ticks: nat, periodic: bool, due: nat): (r: State) {
    s.(list := Placed(s.list, Timer(id, ticks, periodic, due, |s.links|)),
       active := s.active + {id}, links := s.links + [Entry(due, FirstCheck(s))])
  }

  /** The first region of a start: the timer is removed, and has the length it is started for. */
  function Begun(s: State, id: nat, ticks: nat, periodic: bool): (r: State) {
    s.(list := Removed(s.list, id), active := s.active - {id},
       fields := s.fields[id := Fields(ticks, periodic, Of(s, id).due)])
  }

  /** The timer is due at another time; if it is listed its place stays. */
  function Redated(list: seq<Timer>, id: nat, due: nat): (r: seq<Timer>) {
    if list == [] then []
    else [if list[0].id == id then list[0].(due := due) else list[0]] + Redated(list[1..], id, due)
  }

  function Dated(s: State, id: nat): (r: State) {
    var f := Of(s, id);
    s.(list := Redated(s.list, id, s.time + f.ticks), fields := s.fields[id := f.(due := s.time + f.ticks)])
  }

  function Started(s: State, id: nat, ticks: nat, periodic: bool): (r: State) {
    var q := s.(list := Removed(s.list, id), fields := s.fields[id := Fields(ticks, periodic, s.time + ticks)]);
    Linked(q, id, ticks, periodic, s.time + ticks)
  }

  /** After the callback a periodic timer that is still active starts again. */
  function Returned(s: State, t: Timer): (r: State) {
    var idle := s.(phase := Checking, active := s.active - {t.id});
    if t.periodic && t.id in s.active then Started(idle, t.id, t.ticks, true) else idle
  }

  /** A callback that starts its own timer sets what that timer is when it returns. */
  function Own(phase: Phase, id: nat, ticks: nat, periodic: bool): (r: Phase) {
    if phase.Callback? && phase.t.id == id then Callback(phase.t.(ticks := ticks, periodic := periodic)) else phase
  }

  /** One event; an event that cannot happen in the phase changes nothing. */
  function Step(s: State, e: Event): (r: State) {
    match e
    case Tick => if s.phase == Idle then s.(time := s.time + 1, phase := Checking) else s
    case Expire =>
      if s.phase == Checking && s.list != [] && Expired(s.list[0], s.time % WRAP) then
        s.(phase := Callback(s.list[0]), list := s.list[1..], fired := s.fired + [(s.list[0], s.time)])
      else s
    case Return => if s.phase.Callback? then Returned(s, s.phase.t) else s
    case Leave =>
      if s.phase == Checking && (s.list == [] || !Expired(s.list[0], s.time % WRAP)) then s.(phase := Idle) else s
    case Begin(id, ticks, periodic) =>
      if s.phase == Idle && ticks < HALF then Begun(s, id, ticks, periodic).(begun := s.begun + multiset{id}) else s
    case Read(id) =>
      if s.phase == Idle && id in s.begun then
        Dated(s, id).(begun := s.begun - multiset{id}, timed := s.timed + multiset{id})
      else s
    case Link(id) =>
      if s.phase == Idle && id in s.timed then
        var f := Of(s, id);
        Linked(s.(timed := s.timed - multiset{id}), id, f.ticks, f.periodic, f.due)
      else s
    case Start(id, ticks, periodic) =>
      if s.phase != Checking && ticks < HALF then
        Started(s.(phase := Own(s.phase, id, ticks, periodic)), id, ticks, periodic)
      else s
    case Stop(id) =>
      if s.phase != Checking && id in s.active then s.(list := Removed(s.list, id), active := s.active - {id}) else s
  }

  function Run(s: State, events: seq<Event>): (r: State)
    decreases |events|
  {
    if events == [] then s else Run(Step(s, events[0]), events[1..])
  }

  function Initial(time: nat): (s: State) {
    State(time, Idle, [], map[], multiset{}, multiset{}, {}, [], [])
  }

  /** One for a timer of at least one tick, none for a timer of no ticks. */
  function Ahead(ticks: nat): (n: nat) {
    if ticks >= 1 then 1 else 0
  }

  /** When a timer fires: when it is due, or at the first check that sees it if that is later. */
  function When(links: seq<Entry>, t: Timer): (time: nat)
    requires t.serial < |links|
  {
    if t.due < links[t.serial].check then links[t.serial].check else t.due
  }

  /** Timers fire by the time, then in the order of their due times, and then in the order they were linked. */
  ghost predicate Before(links: seq<Entry>, a: Timer, b: Timer) {
    && a.serial < |links| && b.serial < |links|
    && (When(links, a) < When(links, b) || (When(links, a) == When(links, b) && InOrder(a, b)))
  }

  /** A timer that was linked for the time it is due at, at most `slack` ticks too late. */
  ghost predicate Seen(links: seq<Entry>, t: Timer, slack: nat) {
    && t.serial < |links| && t.ticks + slack < HALF && links[t.serial].due == t.due
    && links[t.serial].check + Ahead(t.ticks) <= t.due + slack + 1
  }

  /** A listed timer was not missed, and comes after all that have fired. */
  ghost predicate Waiting(s: State, t: Timer, slack: nat) {
    && Seen(s.links, t, slack) && t.due + slack < s.time + HALF && FirstCheck(s) <= When(s.links, t)
    && forall i :: 0 <= i < |s.fired| ==> Before(s.links, s.fired[i].0, t)
  }

  /** The timers fired so far fired at their time and in order. */
  ghost predicate FiredInTime(s: State) {
    && (forall i :: 0 <= i < |s.fired| ==>
          s.fired[i].0.serial < |s.links| && s.fired[i].1 == When(s.links, s.fired[i].0) <= s.time)
    && (forall i, j :: 0 <= i < j < |s.fired| ==> Before(s.links, s.fired[i].0, s.fired[j].0))
  }

  /** The fields of every timer are such that it can be linked. */
  ghost predicate Legal(s: State, slack: nat) {
    forall id :: Of(s, id).ticks + slack < HALF && Of(s, id).due + slack < s.time + HALF
  }

  ghost predicate Invariant(s: State, slack: nat) {
    && slack + 1 < HALF
    && Sorted(s.list) && Unique(s.list) && FiredInTime(s)
    && (forall i :: 0 <= i < |s.fired| ==> Seen(s.links, s.fired[i].0, slack))
    && (forall t :: t in s.list ==> Waiting(s, t, slack))
    && Legal(s, slack)
    && (forall n :: 0 <= n < |s.links| ==> s.links[n].check <= FirstCheck(s))
    && (s.phase.Callback? ==> s.phase.t.ticks + slack < HALF)
  }

  /**
   What keeps the timers in order: no timer is started for so long that it and the slack reach
   half a turn; no start changes when a listed timer is due; and none links a timer that is
   listed, or one later than the slack after the time it was to be linked.
   */
  predicate Allowed(s: State, e: Event, slack: nat) {
    match e
    case Begin(_, ticks, _) => s.phase == Idle && ticks < HALF ==> ticks + slack < HALF
    case Start(_, ticks, _) => s.phase != Checking && ticks < HALF ==> ticks + slack < HALF
    case Read(id) =>
      s.phase == Idle && id in s.begun ==>
        forall t :: t in s.list && t.id == id ==> t.due == s.time + Of(s, id).ticks
    case Link(id) =>
      s.phase == Idle && id in s.timed ==>
        !Listed(s.list, id) && s.time + Ahead(Of(s, id).ticks) <= Of(s, id).due + slack
    case _ => true
  }

  lemma BeforeStays(links: seq<Entry>, more: Entry, a: Timer, b: Timer)
    requires Before(links, a, b)
    ensures Before(links + [more], a, b)
  {
  }

  /** A new timer comes after all that have fired. */
  lemma AfterFired(s: State, t: Timer)
    requires FiredInTime(s) && t.serial == |s.links| && (s.phase == Idle || s.time <= t.due)
    ensures forall i :: 0 <= i < |s.fired| ==> Before(s.links + [Entry(t.due, FirstCheck(s))], s.fired[i].0, t)
  {
    forall i | 0 <= i < |s.fired|
      ensures Before(s.links + [Entry(t.due, FirstCheck(s))], s.fired[i].0, t)
    {
      assert s.fired[i].0.due <= s.fired[i].1 <= s.time;
    }
  }

  lemma WaitingStays(s: State, r: State, more: Entry, t: Timer, slack: nat)
    requires Waiting(s, t, slack) && r.links == s.links + [more]
    requires r.time == s.time && (r.phase == Idle <==> s.phase == Idle) && r.fired == s.fired
    ensures Waiting(r, t, slack)
  {
    forall i | 0 <= i < |s.fired|
      ensures Before(r.links, s.fired[i].0, t)
    {
      BeforeStays(s.links, more, s.fired[i].0, t);
    }
  }

  lemma FiredStays(s: State, r: State, more: Entry)
    requires FiredInTime(s) && r.links == s.links + [more] && r.time == s.time && r.fired == s.fired
    ensures FiredInTime(r)
  {
    forall i, j | 0 <= i < j < |s.fired|
      ensures Before(r.links, s.fired[i].0, s.fired[j].0)
    {
      BeforeStays(s.links, more, s.fired[i].0, s.fired[j].0);
    }
  }

  /** Listed timers can be compared with a timer that is not linked too late. */
  lemma AllComparable(s: State, due: nat, ticks: nat, slack: nat)
    requires slack + 1 < HALF && forall t :: t in s.list ==> Waiting(s, t, slack)
    requires forall n :: 0 <= n < |s.links| ==> s.links[n].check <= FirstCheck(s)
    requires s.time <= due + slack && due + slack < s.time + HALF
    ensures forall t :: t in s.list ==> Comparable(t, due)
  {
    forall t | t in s.list
      ensures Comparable(t, due)
    {
      assert Waiting(s, t, slack);
    }
  }

  /** Linking keeps the invariant exactly when the timer is comparable and not too late. */
  lemma LinkKeeps(s: State, id: nat, ticks: nat, periodic: bool, due: nat, slack: nat)
    requires Invariant(s, slack) && !Listed(s.list, id)
    requires (ticks + slack < HALF ==> due + slack < s.time + HALF) && (s.phase == Idle || s.time <= due)
    ensures Invariant(Linked(s, id, ticks, periodic, due), slack)
            <==> ticks + slack < HALF && FirstCheck(s) + Ahead(ticks) <= due + slack + 1
  {
    var t, r := Timer(id, ticks, periodic, due, |s.links|), Linked(s, id, ticks, periodic, due);
    PlacedMembers(s.list, t);
    assert Invariant(r, slack) ==> Waiting(r, t, slack);
    if ticks + slack < HALF && FirstCheck(s) + Ahead(ticks) <= due + slack + 1 {
      LinkInTime(s, t, slack);
    }
  }

  lemma LinkInTime(s: State, t: Timer, slack: nat)
    requires Invariant(s, slack) && !Listed(s.list, t.id) && t.serial == |s.links|
    requires t.due + slack < s.time + HALF && (s.phase == Idle || s.time <= t.due)
    requires t.ticks + slack < HALF && FirstCheck(s) + Ahead(t.ticks) <= t.due + slack + 1
    ensures Invariant(Linked(s, t.id, t.ticks, t.periodic, t.due), slack)
  {
    var r, more := Linked(s, t.id, t.ticks, t.periodic, t.due), Entry(t.due, FirstCheck(s));
    LinkedList(s, t, slack);
    InsertedMembers(s.list, t);
    FiredStays(s, r, more);
    AfterFired(s, t);
    SameFields(s, r, slack);
    forall x | x in r.list
      ensures Waiting(r, x, slack)
    {
      if x != t {
        WaitingStays(s, r, more, x, slack);
      }
    }
  }

  lemma SameFields(s: State, r: State, slack: nat)
    requires Legal(s, slack) && r.fields == s.fields && r.time >= s.time
    ensures Legal(r, slack)
  {
    assert forall id :: Of(r, id) == Of(s, id);
  }

  lemma LinkedList(s: State, t: Timer, slack: nat)
    requires Invariant(s, slack) && t.serial == |s.links| && !Listed(s.list, t.id)
    requires s.time <= t.due + slack && t.due + slack < s.time + HALF
    ensures Placed(s.list, t) == Inserted(s.list, t) && Sorted(Inserted(s.list, t)) && Unique(Inserted(s.list, t))
  {
    AllComparable(s, t.due, t.ticks, slack);
    PlacedIsInserted(s.list, t);
    forall x | x in s.list
      ensures x.serial < t.serial
    {
      assert Waiting(s, x, slack);
    }
    InsertedSorted(s.list, t);
    ListedMember(s.list, t.id);
    InsertedUnique(s.list, t);
  }

  lemma RemoveKeeps(s: State, id: nat, active: set<nat>, slack: nat)
    requires Invariant(s, slack)
    ensures Invariant(s.(list := Removed(s.list, id), active := active), slack)
    ensures !Listed(Removed(s.list, id), id)
  {
    var r := s.(list := Removed(s.list, id), active := active);
    RemovedMembers(s.list, id);
    RemovedListed(s.list, id, id);
    RemovedUnique(s.list, id);
    SameFields(s, r, slack);
    forall t | t in r.list
      ensures Waiting(r, t, slack)
    {
      assert Waiting(s, t, slack);
    }
  }

  /** Only fields and the starts under way change. */
  lemma FieldsKeep(s: State, r: State, slack: nat)
    requires Invariant(s, slack) && r == s.(fields := r.fields, begun := r.begun, timed := r.timed)
    ensures Invariant(r, slack) <==> Legal(r, slack)
  {
    forall t | t in r.list
      ensures Waiting(r, t, slack)
    {
      assert Waiting(s, t, slack);
    }
  }

  lemma OneField(s: State, r: State, id: nat, f: Fields, slack: nat)
    requires Legal(s, slack) && r.time == s.time && r.fields == s.fields[id := f]
    ensures Legal(r, slack) <==> f.ticks + slack < HALF && f.due + slack < s.time + HALF
  {
    assert Of(r, id) == f && forall x :: x != id ==> Of(r, x) == Of(s, x);
  }

  lemma StartKeeps(s: State, id: nat, ticks: nat, periodic: bool, slack: nat)
    requires Invariant(s, slack)
    ensures Invariant(Started(s, id, ticks, periodic), slack) <==> ticks + slack < HALF
  {
    if ticks + slack < HALF {
      StartInTime(s, id, ticks, periodic, slack);
    } else {
      TooLong(Started(s, id, ticks, periodic), id, ticks, slack);
    }
  }

  lemma StartInTime(s: State, id: nat, ticks: nat, periodic: bool, slack: nat)
    requires Invariant(s, slack) && ticks + slack < HALF
    ensures Invariant(Started(s, id, ticks, periodic), slack)
  {
    var q := SetUp(s, id, ticks, periodic, slack);
    LinkKeeps(q, id, ticks, periodic, s.time + ticks, slack);
  }

  lemma TooLong(r: State, id: nat, ticks: nat, slack: nat)
    requires Of(r, id).ticks == ticks && ticks + slack >= HALF
    ensures !Invariant(r, slack)
  {
  }

  /** The timer is off the list and has its fields. */
  lemma SetUp(s: State, id: nat, ticks: nat, periodic: bool, slack: nat) returns (q: State)
    requires Invariant(s, slack) && ticks + slack < HALF
    ensures q == s.(list := Removed(s.list, id), fields := s.fields[id := Fields(ticks, periodic, s.time + ticks)])
    ensures Invariant(q, slack) && !Listed(q.list, id)
  {
    var f, removed := Fields(ticks, periodic, s.time + ticks), s.(list := Removed(s.list, id));
    q := removed.(fields := s.fields[id := f]);
    RemoveKeeps(s, id, s.active, slack);
    OneField(s, q, id, f, slack);
    FieldsKeep(removed, q, slack);
  }

  lemma BeginKeeps(s: State, id: nat, ticks: nat, periodic: bool, slack: nat)
    requires Invariant(s, slack) && s.phase == Idle && ticks < HALF
    ensures Invariant(Step(s, Begin(id, ticks, periodic)), slack) <==> ticks + slack < HALF
    ensures !Listed(Step(s, Begin(id, ticks, periodic)).list, id)
  {
    RemoveKeeps(s, id, s.active - {id}, slack);
    var q, r := s.(list := Removed(s.list, id), active := s.active - {id}), Step(s, Begin(id, ticks, periodic));
    OneField(s, r, id, Fields(ticks, periodic, Of(s, id).due), slack);
    FieldsKeep(q, r, slack);
    assert Of(s, id).due + slack < s.time + HALF;
  }

  lemma {:induction false} RedatedSame(list: seq<Timer>, id: nat, due: nat)
    requires forall t :: t in list && t.id == id ==> t.due == due
    ensures Redated(list, id, due) == list
  {
    if list != [] {
      RedatedSame(list[1..], id, due);
    }
  }

  lemma {:induction false} RedatedMember(list: seq<Timer>, id: nat, due: nat, t: Timer)
    requires t in list
    ensures (if t.id == id then t.(due := due) else t) in Redated(list, id, due)
  {
    if t != list[0] {
      assert list == [list[0]] + list[1..];
      RedatedMember(list[1..], id, due, t);
    }
  }

  /** A listed timer that was linked for another time. */
  lemma RedatedWrong(list: seq<Timer>, id: nat, due: nat, t: Timer, r: State, slack: nat)
    requires t in list && t.id == id && t.due != due && Seen(r.links, t, slack) && r.list == Redated(list, id, due)
    ensures !Invariant(r, slack)
  {
    RedatedMember(list, id, due, t);
    assert !Waiting(r, t.(due := due), slack);
  }

  /** A start that has read the tick keeps the invariant exactly when no listed timer changes by it. */
  lemma ReadKeeps(s: State, id: nat, slack: nat)
    requires Invariant(s, slack) && s.phase == Idle && id in s.begun
    ensures Invariant(Step(s, Read(id)), slack)
            <==> forall t :: t in s.list && t.id == id ==> t.due == s.time + Of(s, id).ticks
  {
    var f, r := Of(s, id), Step(s, Read(id));
    var due := s.time + f.ticks;
    if t :| t in s.list && t.id == id && t.due != due {
      assert Seen(s.links, t, slack) by {
        assert Waiting(s, t, slack);
      }
      RedatedWrong(s.list, id, due, t, r, slack);
    } else {
      RedatedSame(s.list, id, due);
      OneField(s, r, id, f.(due := due), slack);
      FieldsKeep(s, r, slack);
    }
  }

  lemma LinkEventKeeps(s: State, id: nat, slack: nat)
    requires Invariant(s, slack) && s.phase == Idle && id in s.timed
    ensures Invariant(Step(s, Link(id)), slack)
            <==> !Listed(s.list, id) && s.time + Ahead(Of(s, id).ticks) <= Of(s, id).due + slack
  {
    var f, q := Of(s, id), s.(timed := s.timed - multiset{id});
    SameFields(s, q, slack);
    FieldsKeep(s, q, slack);
    if Listed(s.list, id) {
      LinkedTwice(s.list, Timer(id, f.ticks, f.periodic, f.due, |s.links|));
    } else {
      LinkKeeps(q, id, f.ticks, f.periodic, f.due, slack);
    }
  }

  lemma ExpireKeeps(s: State, slack: nat)
    requires Invariant(s, slack)
    ensures Invariant(Step(s, Expire), slack)
  {
    var r := Step(s, Expire);
    SameFields(s, r, slack);
    if s.phase == Checking && s.list != [] && Expired(s.list[0], s.time % WRAP) {
      assert Waiting(s, s.list[0], slack);
      ExpiredIsDue(s.list[0], s.time);
      ExpireWaits(s, r, slack);
    }
  }

  /** Behind the first timer, which fires, the others wait. */
  lemma ExpireWaits(s: State, r: State, slack: nat)
    requires Sorted(s.list) && s.list != [] && s.phase != Idle && r.phase != Idle
    requires forall x :: x in s.list ==> Waiting(s, x, slack)
    requires s.list[0].due <= s.time && r.time == s.time && r.links == s.links
    requires forall n :: 0 <= n < |s.links| ==> s.links[n].check <= s.time
    requires r.list == s.list[1..] && r.fired == s.fired + [(s.list[0], s.time)]
    ensures forall x :: x in r.list ==> Waiting(r, x, slack)
  {
    assert Waiting(s, s.list[0], slack);
    forall x | x in r.list
      ensures Waiting(r, x, slack)
    {
      var j :| 0 <= j < |r.list| && r.list[j] == x;
      assert InOrder(s.list[0], s.list[j + 1]);
      assert Waiting(s, s.list[j + 1], slack);
    }
  }

  lemma LeaveKeeps(s: State, slack: nat)
    requires Invariant(s, slack)
    ensures Invariant(Step(s, Leave), slack)
  {
    var r := Step(s, Leave);
    SameFields(s, r, slack);
    if s.phase == Checking && s.list != [] && !Expired(s.list[0], s.time % WRAP) {
      assert Waiting(s, s.list[0], slack);
      ExpiredIsDue(s.list[0], s.time);
      forall x | x in s.list
        ensures Waiting(r, x, slack)
      {
        assert Waiting(s, x, slack);
        var j :| 0 <= j < |s.list| && s.list[j] == x;
        assert j > 0 ==> InOrder(s.list[0], s.list[j]);
      }
    }
  }

  lemma ReturnKeeps(s: State, slack: nat)
    requires Invariant(s, slack) && s.phase.Callback?
    ensures Invariant(Step(s, Return), slack)
  {
    var t := s.phase.t;
    var idle := s.(phase := Checking, active := s.active - {t.id});
    SameList(s, idle, slack);
    StartKeeps(idle, t.id, t.ticks, true, slack);
  }

  lemma SameList(s: State, r: State, slack: nat)
    requires Invariant(s, slack) && s.phase != Idle && r.phase != Idle
    requires r == s.(phase := r.phase, active := r.active)
    requires r.phase.Callback? ==> r.phase.t.ticks + slack < HALF
    ensures Invariant(r, slack)
  {
    SameFields(s, r, slack);
    forall t | t in s.list
      ensures Waiting(r, t, slack)
    {
      assert Waiting(s, t, slack);
    }
  }

  lemma StartEventKeeps(s: State, id: nat, ticks: nat, periodic: bool, slack: nat)
    requires Invariant(s, slack) && s.phase != Checking && ticks < HALF
    ensures Invariant(Step(s, Start(id, ticks, periodic)), slack) <==> ticks + slack < HALF
  {
    if s.phase.Callback? && s.phase.t.id == id {
      var q := s.(phase := Own(s.phase, id, ticks, periodic));
      if ticks + slack < HALF {
        SameList(s, q, slack);
        StartKeeps(q, id, ticks, periodic, slack);
      }
    } else {
      StartKeeps(s, id, ticks, periodic, slack);
    }
  }

  lemma TickKeeps(s: State, slack: nat)
    requires Invariant(s, slack)
    ensures Invariant(Step(s, Tick), slack)
  {
    var r := Step(s, Tick);
    SameFields(s, r, slack);
    forall t | t in s.list
      ensures Waiting(r, t, slack)
    {
      assert Waiting(s, t, slack);
    }
  }

  /** One step keeps the invariant exactly when it is allowed. */
  lemma StepKeeps(s: State, e: Event, slack: nat)
    requires Invariant(s, slack)
    ensures Invariant(Step(s, e), slack) <==> Allowed(s, e, slack)
  {
    match e
    case Tick => TickKeeps(s, slack);
    case Expire => ExpireKeeps(s, slack);
    case Return =>
      if s.phase.Callback? {
        ReturnKeeps(s, slack);
      }
    case Leave => LeaveKeeps(s, slack);
    case Begin(id, ticks, periodic) =>
      if s.phase == Idle && ticks < HALF {
        BeginKeeps(s, id, ticks, periodic, slack);
      }
    case Read(id) =>
      if s.phase == Idle && id in s.begun {
        ReadKeeps(s, id, slack);
      }
    case Link(id) =>
      if s.phase == Idle && id in s.timed {
        LinkEventKeeps(s, id, slack);
      }
    case Start(id, ticks, periodic) =>
      if s.phase != Checking && ticks < HALF {
        StartEventKeeps(s, id, ticks, periodic, slack);
      }
    case Stop(id) => RemoveKeeps(s, id, s.active - {id}, slack);
  }

  ghost predicate AllAllowed(s: State, events: seq<Event>, slack: nat)
    decreases |events|
  {
    events == [] || (Allowed(s, events[0], slack) && AllAllowed(Step(s, events[0]), events[1..], slack))
  }

  /**
   In every run, every timer that fires does so exactly when it is due, or at the first
   check after it was linked if that is later, and timers fire in the order of those times,
   of due times and of links, however often the tick wraps around.
   */
  lemma {:induction false} RunKeeps(s: State, events: seq<Event>, slack: nat)
    requires Invariant(s, slack) && AllAllowed(s, events, slack)
    ensures Invariant(Run(s, events), slack)
    decreases |events|
  {
    if events != [] {
      StepKeeps(s, events[0], slack);
      RunKeeps(Step(s, events[0]), events[1..], slack);
    }
  }

  /** A timer of at least one tick fires exactly when it is due, one of no ticks then or one tick later. */
  ghost predicate OnTime(t: Timer, time: nat) {
    if t.ticks >= 1 then time == t.due else t.due <= time <= t.due + 1
  }

  /** If no start is linked too late, every timer that fires is on time. */
  lemma AlwaysOnTime(time: nat, events: seq<Event>)
    requires AllAllowed(Initial(time), events, 0)
    ensures var s := Run(Initial(time), events);
            Invariant(s, 0) && forall i :: 0 <= i < |s.fired| ==> OnTime(s.fired[i].0, s.fired[i].1)
  {
    RunKeeps(Initial(time), events, 0);
  }

  // ----- a timer that is left alone fires -----

  /** The event is a call about that timer. */
  predicate Touches(e: Event, id: nat) {
    (e.Begin? || e.Read? || e.Link? || e.Start? || e.Stop?) && e.id == id
  }

  ghost predicate Untouched(events: seq<Event>, id: nat) {
    forall i :: 0 <= i < |events| ==> !Touches(events[i], id)
  }

  predicate InCallback(s: State, id: nat) {
    s.phase.Callback? && s.phase.t.id == id
  }

  /** Links and expiries are never forgotten. */
  lemma {:induction false} RunGrows(s: State, events: seq<Event>)
    ensures s.links <= Run(s, events).links && s.fired <= Run(s, events).fired && s.time <= Run(s, events).time
    decreases |events|
  {
    if events != [] {
      StepGrows(s, events[0]);
      RunGrows(Step(s, events[0]), events[1..]);
    }
  }

  lemma StepGrows(s: State, e: Event)
    ensures var r := Step(s, e); s.links <= r.links && s.fired <= r.fired && s.time <= r.time
  {
  }

  lemma RemovedOther(list: seq<Timer>, id: nat, t: Timer)
    requires t in list && t.id != id
    ensures t in Removed(list, id)
  {
    RemovedMembers(list, id);
  }

  lemma StartedOther(s: State, id: nat, ticks: nat, periodic: bool, t: Timer)
    requires t in s.list && t.id != id
    ensures t in Started(s, id, ticks, periodic).list
  {
    RemovedOther(s.list, id, t);
    PlacedMembers(Removed(s.list, id), Timer(id, ticks, periodic, s.time + ticks, |s.links|));
  }

  lemma ExpireStays(s: State, t: Timer, slack: nat)
    requires Invariant(s, slack) && t in s.list && !InCallback(s, t.id)
    ensures var r := Step(s, Expire);
            (t in r.list && !InCallback(r, t.id)) || (t, When(s.links, t)) in r.fired
  {
    var r := Step(s, Expire);
    assert s.list == [s.list[0]] + s.list[1..];
    if r != s && t == s.list[0] {
      ExpireKeeps(s, slack);
      assert r.fired[|s.fired|] == (t, s.time) && r.links == s.links;
    } else if r != s {
      UniqueFirst(s.list[0], s.list[1..]);
      assert Differ(s.list[0], t);
    }
  }

  /** A step that is no call about a listed timer leaves it on the list or fires it. */
  lemma StepStays(s: State, e: Event, t: Timer, slack: nat)
    requires Invariant(s, slack) && t in s.list && !Touches(e, t.id) && !InCallback(s, t.id)
    ensures var r := Step(s, e);
            (t in r.list && !InCallback(r, t.id)) || (t, When(s.links, t)) in r.fired
  {
    var r := Step(s, e);
    match e
    case Tick =>
    case Expire => ExpireStays(s, t, slack);
    case Return =>
      if s.phase.Callback? && s.phase.t.periodic && s.phase.t.id in s.active {
        var idle := s.(phase := Checking, active := s.active - {s.phase.t.id});
        StartedOther(idle, s.phase.t.id, s.phase.t.ticks, true, t);
      }
    case Leave =>
    case Begin(id, _, _) => RemovedOther(s.list, id, t);
    case Read(id) => RedatedMember(s.list, id, s.time + Of(s, id).ticks, t);
    case Link(id) =>
      if r != s {
        PlacedMembers(s.list, Timer(id, Of(s, id).ticks, Of(s, id).periodic, Of(s, id).due, |s.links|));
      }
    case Start(id, ticks, periodic) =>
      StartedOther(s.(phase := Own(s.phase, id, ticks, periodic)), id, ticks, periodic, t);
    case Stop(id) => RemovedOther(s.list, id, t);
  }

  lemma {:induction false} RunStays(s: State, events: seq<Event>, t: Timer, slack: nat)
    requires Invariant(s, slack) && AllAllowed(s, events, slack)
    requires t in s.list && !InCallback(s, t.id) && Untouched(events, t.id)
    ensures var r := Run(s, events); t in r.list || (t, When(s.links, t)) in r.fired
    decreases |events|
  {
    if events != [] {
      var q, rest := Step(s, events[0]), events[1..];
      StepStays(s, events[0], t, slack);
      StepKeeps(s, events[0], slack);
      RunGrows(s, events[..1]);
      assert Run(s, events[..1]) == q;
      if t in q.list && !InCallback(q, t.id) {
        RunStays(q, rest, t, slack);
        assert Waiting(s, t, slack) && When(q.links, t) == When(s.links, t);
      } else {
        RunGrows(q, rest);
      }
    }
  }

  /** A listed timer that nobody starts or stops has fired at its time once a check at or after that time is over. */
  lemma Fires(s: State, events: seq<Event>, t: Timer, slack: nat)
    requires Invariant(s, slack) && AllAllowed(s, events, slack)
    requires t in s.list && !InCallback(s, t.id) && Untouched(events, t.id)
    ensures Waiting(s, t, slack)
    ensures var r := Run(s, events);
            r.phase == Idle && When(s.links, t) <= r.time ==> (t, When(s.links, t)) in r.fired
  {
    RunStays(s, events, t, slack);
    RunKeeps(s, events, slack);
    RunGrows(s, events);
    var r := Run(s, events);
    assert Waiting(s, t, slack) && When(r.links, t) == When(s.links, t);
    assert t in r.list ==> Waiting(r, t, slack);
  }

  /** Without late links, a listed timer of at least one tick that is left alone fires exactly when it is due. */
  lemma FiresWhenDue(s: State, events: seq<Event>, t: Timer)
    requires Invariant(s, 0) && AllAllowed(s, events, 0)
    requires t in s.list && !InCallback(s, t.id) && Untouched(events, t.id) && t.ticks >= 1
    ensures var r := Run(s, events); r.phase == Idle && t.due <= r.time ==> (t, t.due) in r.fired
  {
    Fires(s, events, t, 0);
  }

  /** The event links that timer. */
  predicate Links(s: State, e: Event, id: nat) {
    match e
    case Link(x) => x == id && s.phase == Idle && id in s.timed
    case Start(x, ticks, _) => x == id && s.phase != Checking && ticks < HALF
    case Return => InCallback(s, id) && s.phase.t.periodic && id in s.active
    case _ => false
  }

  /** The event takes that timer off the list. */
  predicate Unlinks(s: State, e: Event, id: nat) {
    match e
    case Begin(x, ticks, _) => x == id && s.phase == Idle && ticks < HALF
    case Stop(x) => x == id && s.phase != Checking && id in s.active
    case Expire => s.phase == Checking && s.list != [] && s.list[0].id == id && Expired(s.list[0], s.time % WRAP)
    case _ => false
  }

  /** What is listed after a step. */
  lemma StepListed(s: State, e: Event, id: nat)
    ensures Listed(Step(s, e).list, id) ==> Links(s, e, id) || Listed(s.list, id)
    ensures Unique(s.list) ==>
              (Listed(Step(s, e).list, id) <==> Links(s, e, id) || (Listed(s.list, id) && !Unlinks(s, e, id)))
  {
    match e
    case Expire => ExpireListed(s, id);
    case Return => ReturnListed(s, id);
    case Begin(x, _, _) => RemovedListed(s.list, x, id);
    case Read(x) => ReadListed(s, x, id);
    case Link(x) => LinkListed(s, x, id);
    case Start(x, ticks, periodic) => StartListed(s, x, ticks, periodic, id);
    case Stop(x) => RemovedListed(s.list, x, id);
    case _ =>
  }

  lemma StartListed(s: State, x: nat, ticks: nat, periodic: bool, id: nat)
    ensures Listed(Step(s, Start(x, ticks, periodic)).list, id)
            <==> Links(s, Start(x, ticks, periodic), id) || Listed(s.list, id)
  {
    StartedListed(s.(phase := Own(s.phase, x, ticks, periodic)), x, ticks, periodic, id);
  }

  lemma ReadListed(s: State, x: nat, id: nat)
    ensures Listed(Step(s, Read(x)).list, id) <==> Listed(s.list, id)
  {
    RedatedListed(s.list, x, s.time + Of(s, x).ticks, id);
  }

  lemma LinkListed(s: State, x: nat, id: nat)
    ensures Listed(Step(s, Link(x)).list, id) <==> Links(s, Link(x), id) || Listed(s.list, id)
  {
    PlacedListed(s.list, Timer(x, Of(s, x).ticks, Of(s, x).periodic, Of(s, x).due, |s.links|), id);
  }

  lemma ExpireListed(s: State, id: nat)
    ensures Listed(Step(s, Expire).list, id) ==> Listed(s.list, id)
    ensures Unique(s.list) ==>
              (Listed(Step(s, Expire).list, id) <==> Listed(s.list, id) && !Unlinks(s, Expire, id))
  {
    if s.list != [] && Unique(s.list) {
      assert s.list == [s.list[0]] + s.list[1..];
      UniqueFirst(s.list[0], s.list[1..]);
      ListedMember(s.list[1..], s.list[0].id);
      assert forall x :: x in s.list[1..] ==> Differ(s.list[0], x);
    }
  }

  lemma ReturnListed(s: State, id: nat)
    ensures Listed(Step(s, Return).list, id) <==> Links(s, Return, id) || Listed(s.list, id)
  {
    if s.phase.Callback? {
      var t := s.phase.t;
      StartedListed(s.(phase := Checking, active := s.active - {t.id}), t.id, t.ticks, true, id);
    }
  }

  lemma {:induction false} RedatedListed(list: seq<Timer>, x: nat, due: nat, id: nat)
    ensures Listed(Redated(list, x, due), id) <==> Listed(list, id)
  {
    if list != [] {
      RedatedListed(list[1..], x, due, id);
      assert Redated(list, x, due)[1..] == Redated(list[1..], x, due);
    }
  }

  lemma StartedListed(s: State, x: nat, ticks: nat, periodic: bool, id: nat)
    ensures Listed(Started(s, x, ticks, periodic).list, id) <==> x == id || Listed(s.list, id)
  {
    RemovedListed(s.list, x, id);
    PlacedListed(Removed(s.list, x), Timer(x, ticks, periodic, s.time + ticks, |s.links|), id);
  }

  /** A step that is no call about a timer that is not listed leaves its fields and its starts alone. */
  lemma StepAbsent(s: State, e: Event, id: nat)
    requires !Listed(s.list, id) && !InCallback(s, id) && !Touches(e, id)
    ensures var r := Step(s, e);
            !Listed(r.list, id) && !InCallback(r, id) && Of(r, id) == Of(s, id) && r.timed[id] == s.timed[id]
  {
    StepListed(s, e, id);
    OtherFields(s, e, id);
    OtherTimed(s, e, id);
  }

  lemma OtherFields(s: State, e: Event, id: nat)
    requires !InCallback(s, id) && !Touches(e, id)
    ensures Of(Step(s, e), id) == Of(s, id)
  {
    if e == Return {
      OtherReturns(s, id);
    } else if e.Start? {
      OtherStarts(s, e.id, e.ticks, e.periodic, id);
    } else if e.Begin? {
      OtherBegins(s, e.id, e.ticks, e.periodic, id);
    } else if e.Read? {
      OtherReads(s, e.id, id);
    } else {
      assert Step(s, e).fields == s.fields;
    }
  }

  lemma OtherReturns(s: State, id: nat)
    requires !InCallback(s, id)
    ensures Of(Step(s, Return), id) == Of(s, id)
  {
    if s.phase.Callback? {
      var t := s.phase.t;
      OtherStarted(s.(phase := Checking, active := s.active - {t.id}), t.id, t.ticks, true, id);
    }
  }

  lemma OtherStarts(s: State, x: nat, ticks: nat, periodic: bool, id: nat)
    requires x != id
    ensures Of(Step(s, Start(x, ticks, periodic)), id) == Of(s, id)
  {
    OtherStarted(s.(phase := Own(s.phase, x, ticks, periodic)), x, ticks, periodic, id);
  }

  lemma OtherBegins(s: State, x: nat, ticks: nat, periodic: bool, id: nat)
    requires x != id
    ensures Of(Step(s, Begin(x, ticks, periodic)), id) == Of(s, id)
  {
    OtherBegun(s, x, ticks, periodic, id);
  }

  lemma OtherReads(s: State, x: nat, id: nat)
    requires x != id
    ensures Of(Step(s, Read(x)), id) == Of(s, id)
  {
    OtherDated(s, x, id);
  }

  lemma OtherTimed(s: State, e: Event, id: nat)
    requires !Touches(e, id)
    ensures Step(s, e).timed[id] == s.timed[id]
  {
  }

  lemma OtherStarted(s: State, x: nat, ticks: nat, periodic: bool, id: nat)
    requires x != id
    ensures Of(Started(s, x, ticks, periodic), id) == Of(s, id)
  {
  }

  lemma OtherBegun(s: State, x: nat, ticks: nat, periodic: bool, id: nat)
    requires x != id
    ensures Of(Begun(s, x, ticks, periodic), id) == Of(s, id)
  {
  }

  lemma OtherDated(s: State, x: nat, id: nat)
    requires x != id
    ensures Of(Dated(s, x), id) == Of(s, id)
  {
  }

  lemma {:induction false} StaysAbsent(s: State, events: seq<Event>, id: nat)
    requires !Listed(s.list, id) && !InCallback(s, id) && Untouched(events, id)
    ensures var r := Run(s, events); !Listed(r.list, id) && Of(r, id) == Of(s, id) && r.timed[id] == s.timed[id]
    decreases |events|
  {
    if events != [] {
      StepAbsent(s, events[0], id);
      StaysAbsent(Step(s, events[0]), events[1..], id);
    }
  }

  /**
   A start that reads the tick in state `s`, for a timer of `ticks` ticks that is not listed, and
   links it after the events of `gap`, none of them about that timer: the timer fires when it is due,
   or at the first check after the link. It is on time exactly when fewer than `ticks` ticks passed
   between the reading and the linking.
   */
  lemma FiresOnTimeIff(s: State, id: nat, gap: seq<Event>, after: seq<Event>, slack: nat)
    returns (t: Timer, time: nat)
    requires Invariant(s, slack) && s.phase == Idle && id in s.begun && !Listed(s.list, id) && 1 <= Of(s, id).ticks
    requires Untouched(gap, id) && Untouched(after, id)
    requires var read, ticks := Step(s, Read(id)), Of(s, id).ticks;
             var before := Run(read, gap);
             var linked := Step(before, Link(id));
             var r := Run(linked, after);
             && AllAllowed(read, gap, slack) && AllAllowed(linked, after, slack)
             && before.phase == Idle && before.time < s.time + ticks + slack
             && r.phase == Idle && before.time < r.time && s.time + ticks <= r.time
    ensures var before, ticks := Run(Step(s, Read(id)), gap), Of(s, id).ticks;
            var r := Run(Step(before, Link(id)), after);
            && t == Timer(id, ticks, Of(s, id).periodic, s.time + ticks, |before.links|)
            && (t, time) in r.fired
            && (time == s.time + ticks <==> before.time - s.time < ticks)
  {
    var before := Run(Step(s, Read(id)), gap);
    ReadAndWait(s, id, gap, slack);
    t := LinkLists(before, id, slack);
    var linked := Step(before, Link(id));
    time := When(linked.links, t);
    Fires(linked, after, t, slack);
  }

  lemma LinkLists(s: State, id: nat, slack: nat) returns (t: Timer)
    requires Invariant(s, slack) && s.phase == Idle && id in s.timed && !Listed(s.list, id)
    requires 1 <= Of(s, id).ticks && s.time < Of(s, id).due + slack
    ensures t == Timer(id, Of(s, id).ticks, Of(s, id).periodic, Of(s, id).due, |s.links|)
    ensures var r := Step(s, Link(id));
            && Invariant(r, slack) && t in r.list && r.phase == Idle
            && r.links == s.links + [Entry(t.due, s.time + 1)]
  {
    LinkEventKeeps(s, id, slack);
    t := Timer(id, Of(s, id).ticks, Of(s, id).periodic, Of(s, id).due, |s.links|);
    PlacedMembers(s.list, t);
  }

  /** Behind the gap the start has its tick and the timer is not listed. */
  lemma ReadAndWait(s: State, id: nat, gap: seq<Event>, slack: nat)
    requires Invariant(s, slack) && s.phase == Idle && id in s.begun && !Listed(s.list, id) && Untouched(gap, id)
    requires AllAllowed(Step(s, Read(id)), gap, slack)
    ensures var before := Run(Step(s, Read(id)), gap);
            && Invariant(before, slack) && id in before.timed && !Listed(before.list, id)
            && Of(before, id) == Of(s, id).(due := s.time + Of(s, id).ticks)
  {
    ReadAbsent(s, id, slack);
    RunKeeps(Step(s, Read(id)), gap, slack);
    StaysAbsent(Step(s, Read(id)), gap, id);
  }

  lemma ReadAbsent(s: State, id: nat, slack: nat)
    requires Invariant(s, slack) && s.phase == Idle && id in s.begun && !Listed(s.list, id)
    ensures var r := Step(s, Read(id));
            && Invariant(r, slack) && r.phase == Idle && id in r.timed && !Listed(r.list, id)
            && Of(r, id) == Of(s, id).(due := s.time + Of(s, id).ticks)
  {
    NoneListed(s.list, id);
    DatedAbsent(s, id);
    ReadKeeps(s, id, slack);
  }

  lemma DatedAbsent(s: State, id: nat)
    requires !Listed(s.list, id)
    ensures Dated(s, id) == s.(fields := s.fields[id := Of(s, id).(due := s.time + Of(s, id).ticks)])
  {
    NoneListed(s.list, id);
    RedatedSame(s.list, id, s.time + Of(s, id).ticks);
  }

  lemma NoneListed(list: seq<Timer>, id: nat)
    requires !Listed(list, id)
    ensures forall t :: t in list ==> t.id != id
  {
    ListedMember(list, id);
  }

  // ----- what each event does -----

  /** All timers but that one are listed as before. */
  ghost predicate OthersStay(list: seq<Timer>, r: seq<Timer>, id: nat) {
    forall x: Timer :: x.id != id ==> (x in r <==> x in list)
  }

  lemma StartedMembers(s: State, id: nat, ticks: nat, periodic: bool, x: Timer)
    ensures var n := Timer(id, ticks, periodic, s.time + ticks, |s.links|);
            x in Started(s, id, ticks, periodic).list <==> (x in s.list && x.id != id) || x == n
  {
    RemovedMembers(s.list, id);
    PlacedMembers(Removed(s.list, id), Timer(id, ticks, periodic, s.time + ticks, |s.links|));
  }

  /** A start lists the timer, to be due after its ticks, and makes it active. */
  lemma StartMeans(s: State, id: nat, ticks: nat, periodic: bool)
    requires s.phase != Checking && ticks < HALF
    ensures var r, t := Step(s, Start(id, ticks, periodic)), Timer(id, ticks, periodic, s.time + ticks, |s.links|);
            && (forall x :: x in r.list && x.id == id <==> x == t) && OthersStay(s.list, r.list, id)
            && r.active == s.active + {id} && Of(r, id) == Fields(ticks, periodic, s.time + ticks)
            && r.time == s.time && r.fired == s.fired && r.links == s.links + [Entry(s.time + ticks, FirstCheck(s))]
            && r.begun == s.begun && r.timed == s.timed
            && r.phase == (if InCallback(s, id) then Callback(s.phase.t.(ticks := ticks, periodic := periodic))
                           else s.phase)
  {
    var q := s.(phase := Own(s.phase, id, ticks, periodic));
    forall x
      ensures x in Started(q, id, ticks, periodic).list
              <==> (x in s.list && x.id != id) || x == Timer(id, ticks, periodic, s.time + ticks, |s.links|)
    {
      StartedMembers(q, id, ticks, periodic, x);
    }
  }

  /** A stop takes an active timer off the list; nothing happens to another. */
  lemma StopMeans(s: State, id: nat)
    requires s.phase != Checking
    ensures var r := Step(s, Stop(id));
            if id in s.active then
              && !Listed(r.list, id) && OthersStay(s.list, r.list, id)
              && r == s.(list := r.list, active := s.active - {id})
            else r == s
  {
    RemovedMembers(s.list, id);
    RemovedListed(s.list, id, id);
  }

  /** The first region of a start takes the timer off the list and gives it its length. */
  lemma BeginMeans(s: State, id: nat, ticks: nat, periodic: bool)
    requires s.phase == Idle && ticks < HALF
    ensures var r := Step(s, Begin(id, ticks, periodic));
            && !Listed(r.list, id) && OthersStay(s.list, r.list, id) && r.active == s.active - {id}
            && Of(r, id) == Fields(ticks, periodic, Of(s, id).due) && r.begun == s.begun + multiset{id}
            && r.timed == s.timed && r.links == s.links && r.fired == s.fired && r.time == s.time
  {
    RemovedMembers(s.list, id);
    RemovedListed(s.list, id, id);
  }

  /** Reading the tick gives the timer its due time. */
  lemma ReadMeans(s: State, id: nat)
    requires s.phase == Idle && id in s.begun
    ensures var r := Step(s, Read(id));
            && Of(r, id) == Of(s, id).(due := s.time + Of(s, id).ticks) && r.active == s.active
            && r.begun == s.begun - multiset{id} && r.timed == s.timed + multiset{id}
            && r.links == s.links && r.fired == s.fired && r.time == s.time
  {
  }

  /** The second region lists the timer for the due time it has by then. */
  lemma LinkMeans(s: State, id: nat)
    requires s.phase == Idle && id in s.timed
    ensures var r, f := Step(s, Link(id)), Of(s, id);
            && (forall x :: x in r.list <==> x in s.list || x == Timer(id, f.ticks, f.periodic, f.due, |s.links|))
            && r.timed == s.timed - multiset{id} && r.begun == s.begun && r.active == s.active + {id}
            && r.links == s.links + [Entry(f.due, s.time + 1)] && r.fired == s.fired && r.time == s.time
  {
    PlacedMembers(s.list, Timer(id, Of(s, id).ticks, Of(s, id).periodic, Of(s, id).due, |s.links|));
  }

  /** A tick begins a check, in which the first timer fires if it is due; the check is over when it is not. */
  lemma CheckMeans(s: State, slack: nat)
    requires Invariant(s, slack)
    ensures s.phase == Idle ==> Step(s, Tick) == s.(time := s.time + 1, phase := Checking)
    ensures s.phase == Checking && s.list != [] && s.list[0].due <= s.time ==>
              && Step(s, Expire) == s.(phase := Callback(s.list[0]), list := s.list[1..],
                                       fired := s.fired + [(s.list[0], s.time)])
              && Step(s, Leave) == s
    ensures s.phase == Checking && (s.list == [] || s.time < s.list[0].due) ==>
              Step(s, Expire) == s && Step(s, Leave) == s.(phase := Idle)
  {
    if s.list != [] {
      assert Waiting(s, s.list[0], slack);
      ExpiredIsDue(s.list[0], s.time);
    }
  }

  /** After its callback a periodic timer that is still active is due again after its ticks; another is not active. */
  lemma ReturnMeans(s: State)
    requires s.phase.Callback?
    ensures var r, t := Step(s, Return), s.phase.t;
            && r.phase == Checking && r.time == s.time && r.fired == s.fired && OthersStay(s.list, r.list, t.id)
            && (if t.periodic && t.id in s.active then
                  && (forall x :: x in r.list && x.id == t.id
                                  <==> x == Timer(t.id, t.ticks, true, s.time + t.ticks, |s.links|))
                  && r.active == s.active
                else r.list == s.list && r.active == s.active - {t.id})
  {
    var t := s.phase.t;
    var idle := s.(phase := Checking, active := s.active - {t.id});
    forall x
      ensures x in Started(idle, t.id, t.ticks, true).list
              <==> (x in s.list && x.id != t.id) || x == Timer(t.id, t.ticks, true, s.time + t.ticks, |s.links|)
    {
      StartedMembers(idle, t.id, t.ticks, true, x);
    }
  }

  /** A timer started with interrupts off, for at least one tick, and left alone fires exactly after its ticks. */
  lemma StartFires(s: State, id: nat, ticks: nat, periodic: bool, after: seq<Event>, slack: nat)
    requires Invariant(s, slack) && s.phase == Idle && 1 <= ticks && ticks + slack < HALF && Untouched(after, id)
    requires AllAllowed(Step(s, Start(id, ticks, periodic)), after, slack)
    ensures var r := Run(Step(s, Start(id, ticks, periodic)), after);
            r.phase == Idle && s.time + ticks <= r.time ==>
              (Timer(id, ticks, periodic, s.time + ticks, |s.links|), s.time + ticks) in r.fired
  {
    var t := Timer(id, ticks, periodic, s.time + ticks, |s.links|);
    StartLists(s, id, ticks, periodic, t, slack);
    Fires(Step(s, Start(id, ticks, periodic)), after, t, slack);
  }

  lemma StartLists(s: State, id: nat, ticks: nat, periodic: bool, t: Timer, slack: nat)
    requires Invariant(s, slack) && s.phase == Idle && 1 <= ticks && ticks + slack < HALF
    requires t == Timer(id, ticks, periodic, s.time + ticks, |s.links|)
    ensures var q := Step(s, Start(id, ticks, periodic));
            Invariant(q, slack) && t in q.list && q.phase == Idle && t.serial < |q.links| && When(q.links, t) == t.due
  {
    StartMeans(s, id, ticks, periodic);
    StepKeeps(s, Start(id, ticks, periodic), slack);
    assert t in Step(s, Start(id, ticks, periodic)).list;
  }

  /** A timer that is not listed and is left alone does not fire. */
  lemma {:induction false} AbsentSilent(s: State, events: seq<Event>, id: nat)
    requires !Listed(s.list, id) && !InCallback(s, id) && Untouched(events, id)
    ensures var r := Run(s, events);
            forall i :: |s.fired| <= i < |r.fired| ==> r.fired[i].0.id != id
    decreases |events|
  {
    if events != [] {
      var e, q := events[0], Step(s, events[0]);
      StepAbsent(s, e, id);
      AbsentSilent(q, events[1..], id);
      NewlyFired(s, e);
      RunGrows(q, events[1..]);
    }
  }

  /** Only an expiry fires a timer, which is the first of the list. */
  lemma NewlyFired(s: State, e: Event)
    ensures var r := Step(s, e);
            r.fired == s.fired
            || (e == Expire && s.list != [] && r.fired == s.fired + [(s.list[0], s.time)])
  {
  }

  /** A timer that is stopped and left alone does not fire any more. */
  lemma StoppedSilent(s: State, id: nat, events: seq<Event>)
    requires s.phase == Idle && id in s.active && Untouched(events, id)
    ensures var r := Run(Step(s, Stop(id)), events);
            forall i :: |s.fired| <= i < |r.fired| ==> r.fired[i].0.id != id
  {
    StopMeans(s, id);
    AbsentSilent(Step(s, Stop(id)), events, id);
  }

  // ----- several starts of one timer -----

  ghost predicate NoneUnlinks(s: State, events: seq<Event>, id: nat)
    decreases |events|
  {
    events == [] || (!Unlinks(s, events[0], id) && NoneUnlinks(Step(s, events[0]), events[1..], id))
  }

  /** Some event links the timer, and none behind it takes it off the list. */
  ghost predicate LeftLinked(s: State, events: seq<Event>, id: nat)
    decreases |events|
  {
    && events != []
    && (|| (Links(s, events[0], id) && NoneUnlinks(Step(s, events[0]), events[1..], id))
        || LeftLinked(Step(s, events[0]), events[1..], id))
  }

  lemma {:induction false} RunListed(s: State, events: seq<Event>, id: nat, slack: nat)
    requires Invariant(s, slack) && AllAllowed(s, events, slack)
    ensures Listed(Run(s, events).list, id)
            <==> LeftLinked(s, events, id) || (Listed(s.list, id) && NoneUnlinks(s, events, id))
    decreases |events|
  {
    if events != [] {
      StepKeeps(s, events[0], slack);
      StepListed(s, events[0], id);
      RunListed(Step(s, events[0]), events[1..], id, slack);
    }
  }

  /**
   A start whose regions any events come between, other starts of the same timer among them: its
   link keeps the timers in order exactly when no event of the gap linked the timer and left it
   linked, and the link is not too late for what the last start wrote.
   */
  lemma StartInPieces(s: State, id: nat, ticks: nat, periodic: bool, gap: seq<Event>, slack: nat)
    requires Invariant(s, slack) && s.phase == Idle && ticks + slack < HALF
    requires var begun := Step(s, Begin(id, ticks, periodic));
             AllAllowed(begun, gap, slack) && Run(begun, gap).phase == Idle && id in Run(begun, gap).timed
    ensures var begun := Step(s, Begin(id, ticks, periodic));
            var before := Run(begun, gap);
            && Invariant(before, slack)
            && (Invariant(Step(before, Link(id)), slack)
                <==> && !LeftLinked(begun, gap, id)
                     && before.time + Ahead(Of(before, id).ticks) <= Of(before, id).due + slack)
  {
    var begun := Step(s, Begin(id, ticks, periodic));
    BeginKeeps(s, id, ticks, periodic, slack);
    RunKeeps(begun, gap, slack);
    RunListed(begun, gap, id, slack);
    LinkEventKeeps(Run(begun, gap), id, slack);
  }

  /** A run by its first event and the others. */
  lemma RunFirst(s: State, e: Event, rest: seq<Event>)
    ensures Run(s, [e] + rest) == Run(Step(s, e), rest)
    ensures AllAllowed(s, [e] + rest, 0) <==> Allowed(s, e, 0) && AllAllowed(Step(s, e), rest, 0)
  {
    assert ([e] + rest)[1..] == rest;
  }

  /** A start of one tick that a tick interrupts before the timer is linked: it fires one tick too late. */
  lemma LateLink()
    ensures var events := [Begin(0, 1, false)] + ([Read(0)] + ([Tick] + ([Leave] + ([Link(0)] + ([Tick] + [Expire])))));
            var s, t := Run(Initial(0), events), Timer(0, 1, false, 1, 0);
            s.fired == [(t, 2)] && !OnTime(t, 2) && !AllAllowed(Initial(0), events, 0)
  {
    var a, last := Initial(0), [Tick] + ([Leave] + ([Link(0)] + ([Tick] + [Expire])));
    RunFirst(a, Begin(0, 1, false), [Read(0)] + last);
    RunFirst(Step(a, Begin(0, 1, false)), Read(0), last);
    ReadOneSteps();
    LateFrom();
  }

  lemma LateFrom()
    ensures var last := [Tick] + ([Leave] + ([Link(0)] + ([Tick] + [Expire])));
            && Run(ReadOne(), last).fired == [(Timer(0, 1, false, 1, 0), 2)]
            && !AllAllowed(ReadOne(), last, 0)
  {
    var b := ReadOne();
    var c, d := b.(time := 1, phase := Checking), b.(time := 1);
    RunFirst(b, Tick, [Leave] + ([Link(0)] + ([Tick] + [Expire])));
    RunFirst(c, Leave, [Link(0)] + ([Tick] + [Expire]));
    assert Step(b, Tick) == c && Step(c, Leave) == d;
    LinkedAfterTick(d);
  }

  lemma LinkedAfterTick(d: State)
    requires d == ReadOne().(time := 1)
    ensures var last := [Link(0)] + ([Tick] + [Expire]);
            && Run(d, last).fired == [(Timer(0, 1, false, 1, 0), 2)]
            && !AllAllowed(d, last, 0)
  {
    var t := Timer(0, 1, false, 1, 0);
    var e := d.(list := [t], timed := multiset{}, active := {0}, links := [Entry(1, 2)]);
    RunFirst(d, Link(0), [Tick] + [Expire]);
    assert Step(d, Link(0)) == e by {
      assert Placed([], t) == [t];
    }
    RunFirst(e, Tick, [Expire]);
    assert Run(Step(e, Tick), [Expire]) == Step(Step(e, Tick), Expire);
  }

  /** A start of timer 0 for one tick has read the tick at time 0. */
  function ReadOne(): (s: State) {
    Initial(0).(fields := map[0 := Fields(1, false, 1)], timed := multiset{0})
  }

  lemma ReadOneSteps()
    ensures Step(Step(Initial(0), Begin(0, 1, false)), Read(0)) == ReadOne()
  {
    assert Step(Initial(0), Begin(0, 1, false))
        == Initial(0).(fields := map[0 := Fields(1, false, 0)], begun := multiset{0});
  }

  /** A start from an interrupt between the regions of another: the timer is listed twice. */
  lemma DoubleStart()
    ensures var events := [Begin(0, 1, false)] + ([Read(0)] + ([Start(0, 1, false)] + [Link(0)]));
            var s := Run(Initial(0), events);
            && s.list == [Timer(0, 1, false, 1, 0), Timer(0, 1, false, 1, 1)]
            && !Unique(s.list) && !AllAllowed(Initial(0), events, 0)
            && AllAllowed(Initial(0), [Begin(0, 1, false)] + ([Read(0)] + [Start(0, 1, false)]), 0)
  {
    var a, e := Initial(0), [Start(0, 1, false)];
    RunFirst(a, Begin(0, 1, false), [Read(0)] + (e + [Link(0)]));
    RunFirst(Step(a, Begin(0, 1, false)), Read(0), e + [Link(0)]);
    RunFirst(a, Begin(0, 1, false), [Read(0)] + e);
    RunFirst(Step(a, Begin(0, 1, false)), Read(0), e);
    ReadOneSteps();
    DoubleFrom();
  }

  lemma DoubleFrom()
    ensures var e := [Start(0, 1, false)];
            var s := Run(ReadOne(), e + [Link(0)]);
            && s.list == [Timer(0, 1, false, 1, 0), Timer(0, 1, false, 1, 1)] && !Unique(s.list)
            && !AllAllowed(ReadOne(), e + [Link(0)], 0) && AllAllowed(ReadOne(), e, 0)
  {
    var t, u, b := Timer(0, 1, false, 1, 0), Timer(0, 1, false, 1, 1), ReadOne();
    var c := b.(list := [t], active := {0}, links := [Entry(1, 1)]);
    RunFirst(b, Start(0, 1, false), [Link(0)]);
    assert Step(b, Start(0, 1, false)) == c;
    assert !Later(t, 1) && Placed([t], u) == [t] + Placed([], u);
    assert Step(c, Link(0)).list == [t, u] && !Differ([t, u][0], [t, u][1]);
    assert Run(c, [Link(0)]) == Step(c, Link(0));
  }

  /**
   A start that is interrupted before it reads the tick, by another start of its timer: it moves
   the time at which that timer is due while it is listed, and the next timer is not seen in time.
   */
  lemma OtherLate()
    ensures var events := [Begin(0, 2, false)] + ([Start(0, 2, false)] + ([Start(1, 2, false)]
                          + ([Tick] + ([Leave] + ([Read(0)] + ([Tick] + [Leave]))))));
            var s, t := Run(Initial(0), events), Timer(1, 2, false, 2, 1);
            && s.list == [Timer(0, 2, false, 3, 0), t] && s.time == 2 && s.phase == Idle && t.due == 2
            && !AllAllowed(Initial(0), events, 0)
  {
    var a, last := Initial(0), [Tick] + ([Leave] + ([Read(0)] + ([Tick] + [Leave])));
    RunFirst(a, Begin(0, 2, false), [Start(0, 2, false)] + ([Start(1, 2, false)] + last));
    RunFirst(Step(a, Begin(0, 2, false)), Start(0, 2, false), [Start(1, 2, false)] + last);
    FirstStarted();
    RunFirst(OneListed(), Start(1, 2, false), last);
    SecondStarted();
    MovedFrom();
  }

  /** The first timer is listed, and a start of it is under way. */
  function OneListed(): (s: State) {
    Initial(0).(list := [Timer(0, 2, false, 2, 0)], fields := map[0 := Fields(2, false, 2)], begun := multiset{0},
                active := {0}, links := [Entry(2, 1)])
  }

  lemma FirstStarted()
    ensures Step(Step(Initial(0), Begin(0, 2, false)), Start(0, 2, false)) == OneListed()
  {
    var b := Initial(0).(fields := map[0 := Fields(2, false, 0)], begun := multiset{0});
    assert Step(Initial(0), Begin(0, 2, false)) == b;
  }

  /** Two timers are listed, and a start of the first is under way. */
  function TwoListed(): (s: State) {
    Initial(0).(list := [Timer(0, 2, false, 2, 0), Timer(1, 2, false, 2, 1)],
                fields := map[0 := Fields(2, false, 2), 1 := Fields(2, false, 2)], begun := multiset{0},
                active := {0, 1}, links := [Entry(2, 1), Entry(2, 1)])
  }

  lemma SecondStarted()
    ensures Step(OneListed(), Start(1, 2, false)) == TwoListed()
  {
    var t, u := Timer(0, 2, false, 2, 0), Timer(1, 2, false, 2, 1);
    assert Removed([t], 1) == [t] + Removed([], 1) == [t];
    assert !Later(t, 2) && Placed([t], u) == [t] + Placed([], u) == [t, u];
    assert map[0 := Fields(2, false, 2)][1 := Fields(2, false, 2)] == TwoListed().fields;
  }

  lemma MovedFrom()
    ensures var last := [Tick] + ([Leave] + ([Read(0)] + ([Tick] + [Leave])));
            var s := Run(TwoListed(), last);
            && s.list == [Timer(0, 2, false, 3, 0), Timer(1, 2, false, 2, 1)] && s.time == 2 && s.phase == Idle
            && !AllAllowed(TwoListed(), last, 0)
  {
    var a := TwoListed();
    var b, c := a.(time := 1, phase := Checking), a.(time := 1);
    var end := [Tick] + [Leave];
    RunFirst(a, Tick, [Leave] + ([Read(0)] + end));
    RunFirst(b, Leave, [Read(0)] + end);
    assert Step(a, Tick) == b && !Expired(a.list[0], 1) && Step(b, Leave) == c;
    RunFirst(c, Read(0), end);
    assert a.list[0] in c.list && a.list[0].due != c.time + Of(c, 0).ticks;
    RunFirst(Step(c, Read(0)), Tick, [Leave]);
    Moved(c);
    assert Run(Step(Step(c, Read(0)), Tick), [Leave]) == Step(Step(Step(c, Read(0)), Tick), Leave);
  }

  lemma Moved(c: State)
    requires c == TwoListed().(time := 1)
    ensures var d := Step(c, Read(0));
            var r := Step(Step(d, Tick), Leave);
            r.list == [Timer(0, 2, false, 3, 0), Timer(1, 2, false, 2, 1)] && r.time == 2 && r.phase == Idle
  {
    var t, u := c.list[0], c.list[1];
    assert Redated([t, u], 0, 3) == [t.(due := 3)] + ([u] + Redated([], 0, 3)) by {
      assert [t, u][1..] == [u] && [u][1..] == [];
    }
    assert !Expired(t.(due := 3), 2);
  }

  // ----- the check ends -----

  /** How many timers of the list are due. */
  ghost function DueCount(s: State): (n: nat) {
    Cut(s.list, s.time)
  }

  /** In a check a timer expires exactly when one is due, and then fewer are. */
  lemma ExpireProgresses(s: State, slack: nat)
    requires Invariant(s, slack) && s.phase == Checking
    ensures if DueCount(s) == 0 then Step(s, Expire) == s else DueCount(Step(s, Expire)) < DueCount(s)
  {
    if s.list != [] {
      assert Waiting(s, s.list[0], slack);
      ExpiredIsDue(s.list[0], s.time);
    }
  }

  /** Whatever a callback starts for at least a tick or stops, it makes no more timers due. */
  lemma CallbackBounded(s: State, e: Event, slack: nat)
    requires Invariant(s, slack) && s.phase.Callback? && (e == Return || e.Start? || e.Stop?) && Allowed(s, e, slack)
    requires e.Start? ==> e.ticks >= 1
    requires e == Return && s.phase.t.periodic ==> s.phase.t.ticks >= 1
    ensures DueCount(Step(s, e)) <= DueCount(s)
  {
    match e
    case Return =>
      if s.phase.t.periodic && s.phase.t.id in s.active {
        var idle := s.(phase := Checking, active := s.active - {s.phase.t.id});
        SameList(s, idle, slack);
        StartCount(idle, s.phase.t.id, s.phase.t.ticks, true, slack);
      }
    case Start(id, ticks, periodic) =>
      if ticks < HALF {
        var q := s.(phase := Own(s.phase, id, ticks, periodic));
        SameList(s, q, slack);
        StartCount(q, id, ticks, periodic, slack);
      }
    case Stop(id) => RemovedCount(s.list, id, s.time);
  }

  /** `n` expiries, each with a callback that does nothing. */
  function Rounds(n: nat): (events: seq<Event>) {
    if n == 0 then [] else [Expire, Return] + Rounds(n - 1)
  }

  lemma RunTwo(s: State, n: nat)
    requires n > 0
    ensures Run(s, Rounds(n)) == Run(Step(Step(s, Expire), Return), Rounds(n - 1))
  {
    assert Rounds(n)[1..] == [Return] + Rounds(n - 1);
    assert ([Return] + Rounds(n - 1))[1..] == Rounds(n - 1);
  }

  /** A timer that is due and will be started again for no ticks. */
  ghost predicate Endless(s: State, t: Timer) {
    t in s.list && t.due <= s.time && t.periodic && t.ticks == 0 && t.id in s.active
  }

  lemma DueFirst(s: State, t: Timer)
    requires Sorted(s.list) && t in s.list && t.due <= s.time
    ensures DueCount(s) > 0
  {
    NoneEarlier(s.list);
  }

  /** The state in the callback of the first timer, as the callback returns. */
  function InFirst(s: State): (q: State)
    requires s.list != []
  {
    s.(list := s.list[1..], phase := Checking, active := s.active - {s.list[0].id},
       fired := s.fired + [(s.list[0], s.time)])
  }

  /** A round on the first timer, which is due. */
  lemma RoundIs(s: State, slack: nat)
    requires Invariant(s, slack) && s.phase == Checking && DueCount(s) > 0
    ensures var t, q, r := s.list[0], InFirst(s), Step(Step(s, Expire), Return);
            && t in s.list && t.due <= s.time && t.ticks + slack < HALF
            && Invariant(q, slack) && Invariant(r, slack) && DueCount(q) < DueCount(s)
            && r.phase == Checking && r.time == s.time
            && r == (if t.periodic && t.id in s.active then Started(q, t.id, t.ticks, true) else q)
            && !Listed(q.list, t.id)
  {
    var t, q := s.list[0], InFirst(s);
    assert Waiting(s, t, slack);
    ExpiredIsDue(t, s.time);
    ExpireProgresses(s, slack);
    ExpireKeeps(s, slack);
    ReturnKeeps(Step(s, Expire), slack);
    SameList(Step(s, Expire), q, slack);
    assert Unlinks(s, Expire, t.id);
    ExpireListed(s, t.id);
  }

  /** An endless timer stays endless. */
  lemma RoundEndless(s: State, e: Timer, slack: nat) returns (f: Timer)
    requires Invariant(s, slack) && s.phase == Checking && Endless(s, e)
    ensures var r := Step(Step(s, Expire), Return);
            Invariant(r, slack) && r.phase == Checking && Endless(r, f)
  {
    DueFirst(s, e);
    RoundIs(s, slack);
    var t, q := s.list[0], InFirst(s);
    assert s.list == [t] + q.list;
    f := if e == t then Timer(t.id, 0, true, s.time, |s.links|) else e;
    ListedMember(q.list, t.id);
    if t.periodic && t.id in s.active {
      StartedMembers(q, t.id, t.ticks, true, f);
    }
  }

  lemma {:induction false} GoesOn(s: State, e: Timer, n: nat, slack: nat)
    requires Invariant(s, slack) && s.phase == Checking && Endless(s, e)
    ensures DueCount(Run(s, Rounds(n))) > 0
    decreases n
  {
    if n == 0 {
      DueFirst(s, e);
    } else {
      var f := RoundEndless(s, e, slack);
      RunTwo(s, n);
      GoesOn(Step(Step(s, Expire), Return), f, n - 1, slack);
    }
  }

  lemma RoundProgresses(s: State, slack: nat)
    requires Invariant(s, slack) && s.phase == Checking && DueCount(s) > 0 && forall e :: !Endless(s, e)
    ensures var r := Step(Step(s, Expire), Return);
            Invariant(r, slack) && r.phase == Checking && DueCount(r) < DueCount(s) && forall e :: !Endless(r, e)
  {
    RoundIs(s, slack);
    var t, q, r := s.list[0], InFirst(s), Step(Step(s, Expire), Return);
    assert s.list == [t] + q.list && !Endless(s, t);
    if t.periodic && t.id in s.active {
      StartCount(q, t.id, t.ticks, true, slack);
    }
    forall e
      ensures !Endless(r, e)
    {
      assert !Endless(s, e);
      if t.periodic && t.id in s.active {
        StartedMembers(q, t.id, t.ticks, true, e);
      }
    }
  }

  lemma {:induction false} ComesToEnd(s: State, slack: nat) returns (n: nat)
    requires Invariant(s, slack) && s.phase == Checking && forall e :: !Endless(s, e)
    ensures DueCount(Run(s, Rounds(n))) == 0
    decreases DueCount(s)
  {
    if DueCount(s) == 0 {
      n := 0;
    } else {
      RoundProgresses(s, slack);
      n := ComesToEnd(Step(Step(s, Expire), Return), slack);
      n := n + 1;
      RunTwo(s, n);
    }
  }

  /**
   With callbacks that do nothing, the check comes to a state in which no timer is due exactly if
   no timer that is due starts again for no ticks.
   */
  lemma CheckEndsIff(s: State, slack: nat)
    requires Invariant(s, slack) && s.phase == Checking
    ensures (exists n: nat :: DueCount(Run(s, Rounds(n))) == 0) <==> forall e :: !Endless(s, e)
  {
    if e :| Endless(s, e) {
      forall n: nat
        ensures DueCount(Run(s, Rounds(n))) > 0
      {
        GoesOn(s, e, n, slack);
      }
    } else {
      var n := ComesToEnd(s, slack);
    }
  }

  /** A periodic timer of no ticks: the check at the first tick never ends. */
  lemma NeverEnds(n: nat)
    ensures var s := Step(Step(Initial(0), Start(0, 0, true)), Tick);
            DueCount(Run(s, Rounds(n))) > 0
  {
    var t := Timer(0, 0, true, 0, 0);
    var s := Step(Step(Initial(0), Start(0, 0, true)), Tick);
    NoTicks();
    assert Endless(s, t);
    StepKeeps(Initial(0), Start(0, 0, true), 0);
    TickKeeps(Step(Initial(0), Start(0, 0, true)), 0);
    GoesOn(s, t, n, 0);
  }

  lemma NoTicks()
    ensures var s := Step(Step(Initial(0), Start(0, 0, true)), Tick);
            s.list == [Timer(0, 0, true, 0, 0)] && s.active == {0} && s.phase == Checking && s.time == 1
  {
  }

  lemma {:induction false} RemovedCount(list: seq<Timer>, id: nat, time: nat)
    requires Sorted(list)
    ensures Cut(Removed(list, id), time) <= Cut(list, time)
  {
    if list != [] {
      var rest := list[1..];
      assert list == [list[0]] + rest;
      SortedFirst(list[0], rest);
      RemovedCount(rest, id, time);
      if list[0].due <= time && list[0].id != id {
        assert Removed(list, id)[1..] == Removed(rest, id);
      } else if time < list[0].due {
        RemovedMembers(list, id);
        NoneAhead(list, Removed(list, id), time);
      }
    }
  }

  lemma NoneAhead(list: seq<Timer>, q: seq<Timer>, time: nat)
    requires list != [] && time < list[0].due && Sorted(list) && forall x :: x in q ==> x in list
    ensures Cut(q, time) == 0
  {
    if q != [] {
      assert q[0] in list;
      var j :| 0 <= j < |list| && list[j] == q[0];
      assert j > 0 ==> InOrder(list[0], list[j]);
    }
  }

  lemma StartCount(s: State, id: nat, ticks: nat, periodic: bool, slack: nat)
    requires Invariant(s, slack) && 1 <= ticks && ticks + slack < HALF
    ensures DueCount(Started(s, id, ticks, periodic)) <= DueCount(s)
  {
    var t := Timer(id, ticks, periodic, s.time + ticks, |s.links|);
    RemovedCount(s.list, id, s.time);
    RemoveKeeps(s, id, s.active, slack);
    LinkedList(s.(list := Removed(s.list, id)), t, slack);
    InsertedCount(Removed(s.list, id), t, s.time);
  }

  lemma InsertedCount(list: seq<Timer>, t: Timer, time: nat)
    requires time < t.due
    ensures Cut(Inserted(list, t), time) == Cut(list, time)
  {
    InsertedAt(list, t);
    var k, r := Cut(list, t.due), Inserted(list, t);
    var a, b := Cut(list, time), Cut(r, time);
    assert forall i :: 0 <= i < k ==> r[i] == list[i];
    assert r[k] == t;
  }
}
