/** The timer list in place: rows of timers, each row a selection of the row below it. */
module TimerRows {
  import opened Timers

  /** Where a timer of the list is. */
  function Index(list: seq<Timer>, t: Timer): (k: nat)
    requires t in list
    ensures k < |list| && list[k] == t
  {
    if list[0] == t then 0 else 1 + Index(list[1..], t)
  }

  /** A timer that a search at this time can be compared with, if it was linked at most `slack` ticks late. */
  ghost predicate Near(t: Timer, time: nat, slack: nat) {
    t.due + slack < time + HALF && time <= t.due + slack + 1
  }

  lemma {:induction false} RemovedAbsent(list: seq<Timer>, id: nat)
    requires forall t :: t in list ==> t.id != id
    ensures Removed(list, id) == list
  {
    if list != [] {
      assert list == [list[0]] + list[1..];
      RemovedAbsent(list[1..], id);
    }
  }

  lemma RemovedFirst(list: seq<Timer>)
    requires Unique(list) && list != []
    ensures Removed(list, list[0].id) == list[1..]
    ensures forall x :: x in list[1..] ==> x in list && x.id != list[0].id
  {
    assert list == [list[0]] + list[1..];
    UniqueFirst(list[0], list[1..]);
    RemovedAbsent(list[1..], list[0].id);
    RemovedMembers(list, list[0].id);
  }

  /** Walk from a place that is not too far to the last timer that is not later. */
  method Locate(row: seq<Timer>, from: nat, due: nat) returns (p: nat)
    requires from <= Cut(row, due) && Sorted(row)
    requires forall t :: t in row ==> t.due < due + HALF && due <= t.due + HALF
    ensures p == Cut(row, due)
  {
    p := from;
    while p < |row|
      invariant from <= p <= Cut(row, due)
    {
      Comparisons(row[p], due);
      if Later(row[p], due % WRAP) {
        break;
      }
      p := p + 1;
    }
  }

  /** The rows of a list: sorted, each a selection of the next, the last one with every timer once. */
  ghost predicate Rows(rows: seq<seq<Timer>>) {
    && rows != [] && Unique(rows[|rows| - 1])
    && (forall r :: 0 <= r < |rows| ==> Sorted(rows[r]))
    && (forall r :: Selects(rows, r))
  }

  /** Row `r` holds timers of the next row. */
  ghost predicate Selects(rows: seq<seq<Timer>>, r: int) {
    0 <= r < |rows| - 1 ==> forall t :: t in rows[r] ==> t in rows[r + 1]
  }

  lemma {:induction false} InLast(rows: seq<seq<Timer>>, r: nat, t: Timer)
    requires Rows(rows) && r < |rows| && t in rows[r]
    ensures t in rows[|rows| - 1]
    decreases |rows| - r
  {
    if r < |rows| - 1 {
      assert Selects(rows, r);
      InLast(rows, r + 1, t);
    }
  }

  /** In a higher row the walk gets no further than the same timers allow in the row below. */
  lemma StartBelow(row: seq<Timer>, t: Timer, due: nat)
    requires Sorted(row) && t in row && t.due <= due
    ensures Index(row, t) + 1 <= Cut(row, due)
  {
    var k := Index(row, t);
    assert forall i :: 0 <= i < k ==> InOrder(row[i], row[k]);
  }

  class TimerList {
    const levels: nat
    ghost const slack: nat
    var rows: seq<seq<Timer>>
    var time: nat
    var started: nat
    var random: nat

    ghost predicate Valid()
      reads this
    {
      && |rows| == levels && Rows(rows) && slack + 1 < HALF
      && forall t :: t in rows[levels - 1] ==> Near(t, time, slack) && t.serial < started
    }

    ghost function Bottom(): (list: seq<Timer>)
      requires Valid()
      reads this
    {
      rows[levels - 1]
    }

    constructor (levels: nat, ghost slack: nat)
      requires levels > 0 && slack + 1 < HALF
      ensures Valid() && Bottom() == [] && this.levels == levels && this.slack == slack && time == 0
    {
      this.levels, this.slack := levels, slack;
      rows := seq(levels, _ => []);
      time, started, random := 0, 0, 0;
    }

    /** The walk down the rows: in each row the place of a timer due at that time. */
    method Search(due: nat) returns (heads: seq<nat>)
      requires Valid() && time <= due + slack && due + slack < time + HALF
      ensures |heads| == levels && forall r :: 0 <= r < levels ==> heads[r] == Cut(rows[r], due)
    {
      heads := [];
      var level: nat, from: nat := 0, 0;
      while level < levels
        invariant 0 <= level <= levels && |heads| == level
        invariant forall r :: 0 <= r < level ==> heads[r] == Cut(rows[r], due)
        invariant level < levels ==> from <= Cut(rows[level], due)
      {
        NearRow(level, due);
        var p := Locate(rows[level], from, due);
        heads := heads + [p];
        if level != levels - 1 {
          from := 0;
          if p > 0 {
            var t := rows[level][p - 1];
            assert t in rows[level] && Selects(rows, level);
            StartBelow(rows[level + 1], t, due);
            from := Index(rows[level + 1], t) + 1;
          }
        }
        level := level + 1;
      }
    }

    lemma NearRow(level: nat, due: nat)
      requires Valid() && level < levels && time <= due + slack && due + slack < time + HALF
      ensures forall t :: t in rows[level] ==> t.due < due + HALF && due <= t.due + HALF
    {
      forall t | t in rows[level]
        ensures t in rows[levels - 1]
      {
        InLast(rows, level, t);
      }
    }

    /** Take a timer out of every row. */
    method Remove(id: nat)
      requires Valid()
      modifies this`rows
      ensures Valid() && Bottom() == Removed(old(Bottom()), id)
    {
      var before := rows;
      var i := 0;
      while i < levels
        invariant 0 <= i <= levels && |rows| == levels
        invariant forall r :: 0 <= r < levels ==> rows[r] == if r < i then Removed(before[r], id) else before[r]
      {
        rows := rows[i := Removed(rows[i], id)];
        i := i + 1;
      }
      RowsRemoved(before, rows, id);
      RemovedMembers(before[levels - 1], id);
    }

    /** Insert behind the places found: in the last row always, above it as the counter's bits say. */
    method Link(heads: seq<nat>, t: Timer)
      requires Valid() && |heads| == levels && forall r :: 0 <= r < levels ==> heads[r] == Cut(rows[r], t.due)
      requires Near(t, time, slack) && t.serial == started && forall x :: x in rows[levels - 1] ==> x.id != t.id
      modifies this`rows, this`random, this`started
      ensures Valid() && Bottom() == Inserted(old(Bottom()), t) && started == old(started) + 1
      ensures random == (old(random) + 1) % WRAP
      ensures Raised(old(rows), rows, t, levels - 1 - Pairs(random, levels - 1))
    {
      ghost var before := rows;
      ghost var top := Raise(heads, t);
      RowsInserted(before, rows, t, top, started);
      InsertedMembers(before[levels - 1], t);
      started := started + 1;
    }

    method Raise(heads: seq<nat>, t: Timer) returns (ghost top: int)
      requires |rows| == levels > 0
      requires |heads| == levels && forall r :: 0 <= r < levels ==> heads[r] == Cut(rows[r], t.due)
      modifies this`rows, this`random
      ensures random == (old(random) + 1) % WRAP && top == levels - 1 - Pairs(random, levels - 1)
      ensures Raised(old(rows), rows, t, top)
    {
      ghost var before := rows;
      random := (random + 1) % WRAP;
      RaiseLast(heads[levels - 1], t);
      top := RaiseAbove(heads, t, random, before);
    }

    method RaiseLast(head: nat, t: Timer)
      requires |rows| == levels > 0 && head == Cut(rows[levels - 1], t.due)
      modifies this`rows
      ensures Raised(old(rows), rows, t, levels - 1)
    {
      RaisedMore(rows, rows, t, levels - 1);
      rows := rows[levels - 1 := Put(rows[levels - 1], head, t)];
    }

    /** In the rows above the last, as long as the counter ends in zero bits. */
    method RaiseAbove(heads: seq<nat>, t: Timer, counter: nat, ghost before: seq<seq<Timer>>) returns (ghost top: int)
      requires |rows| == levels > 0 && Raised(before, rows, t, levels - 1)
      requires |heads| == levels && forall r :: 0 <= r < levels ==> heads[r] == Cut(before[r], t.due)
      modifies this`rows
      ensures top == levels - 1 - Pairs(counter, levels - 1) && Raised(before, rows, t, top)
    {
      var bits, level, go := counter, 2, true;
      while go && level <= levels
        invariant 2 <= level <= levels + 1 && Raised(before, rows, t, levels + 1 - level)
        invariant Pairs(counter, levels - 1) == level - 2 + if go then Pairs(bits, levels + 1 - level) else 0
        decreases levels + 1 - level, go
      {
        if bits % 4 == 0 {
          var r := levels - level;
          RaisedMore(before, rows, t, r);
          rows := rows[r := Put(rows[r], heads[r], t)];
          bits := bits / 4;
          level := level + 1;
        } else {
          go := false;
        }
      }
      top := levels + 1 - level;
    }

    /** Timers have legal lengths, and periodic ones take time. */
    ghost predicate Legal()
      reads this
    {
      && |rows| == levels > 0
      && forall t :: t in rows[levels - 1] ==> t.ticks + slack < HALF && (t.periodic ==> t.ticks >= 1)
    }

    /** Fire the timers that are due, each once and in order, and start the periodic ones again. */
    method Check() returns (fired: seq<Timer>)
      requires Valid() && Legal()
      modifies this`rows, this`random, this`started
      ensures Valid() && Legal()
      ensures fired == Due(old(Bottom()), time)
      ensures forall t :: t in Bottom() ==> time < t.due
      ensures Bottom() == Rearmed(old(Bottom()), |fired|, time, old(started))
    {
      ghost var goal := Rearmed(Bottom(), |Due(Bottom(), time)|, time, started);
      fired := [];
      while rows[levels - 1] != []
        invariant Valid() && Legal()
        invariant fired + Due(Bottom(), time) == Due(old(Bottom()), time)
        invariant Rearmed(Bottom(), |Due(Bottom(), time)|, time, started) == goal
        decreases |Due(Bottom(), time)|
      {
        var t := rows[levels - 1][0];
        assert t in rows[levels - 1];
        ExpiredIsDue(t, time);
        if !Expired(t, time % WRAP) {
          break;
        }
        Fire(t);
        Shift(fired, t, Due(Bottom(), time));
        fired := fired + [t];
      }
      NoneDue(Bottom(), time);
    }

    /** Remove the first timer and start it again if it is periodic. */
    method Fire(t: Timer)
      requires Valid() && Legal() && Bottom() != [] && Bottom()[0] == t && t.due <= time
      modifies this`rows, this`random, this`started
      ensures Valid() && Legal()
      ensures Bottom() == Fired(old(Bottom()), time, old(started))
      ensures started == if t.periodic then old(started) + 1 else old(started)
      ensures Due(old(Bottom()), time) == [t] + Due(Bottom(), time)
      ensures Rearmed(old(Bottom()), |Due(old(Bottom()), time)|, time, old(started))
              == Rearmed(Bottom(), |Due(Bottom(), time)|, time, started)
    {
      ghost var list := Bottom();
      DueFired(list, time, started);
      assert t in list;
      RemovedFirst(list);
      Remove(t.id);
      if t.periodic {
        StartPeriodic(t.id, t.ticks);
      }
    }

    method StartPeriodic(id: nat, ticks: nat)
      requires Valid() && Legal() && 1 <= ticks && ticks + slack < HALF && forall x :: x in Bottom() ==> x.id != id
      modifies this`rows, this`random, this`started
      ensures Valid() && Legal()
      ensures Bottom() == Inserted(old(Bottom()), Timer(id, ticks, true, time + ticks, old(started)))
      ensures started == old(started) + 1
    {
      ghost var list, again := Bottom(), Timer(id, ticks, true, time + ticks, started);
      Start(id, ticks, true);
      StartedAgain(list, again);
    }

    /** One tick of the clock. */
    method Tick() returns (fired: seq<Timer>)
      requires Valid() && Legal() && forall t :: t in Bottom() ==> time <= t.due + slack
      modifies this
      ensures Valid() && Legal() && time == old(time) + 1
      ensures fired == Due(old(Bottom()), time)
      ensures forall t :: t in Bottom() ==> time < t.due
      ensures Bottom() == Rearmed(old(Bottom()), |fired|, time, old(started))
    {
      time := time + 1;
      fired := Check();
    }

    /** Start a timer, or start it anew, with interrupts off. */
    method Start(id: nat, ticks: nat, periodic: bool)
      requires Valid() && ticks + slack < HALF
      modifies this`rows, this`random, this`started
      ensures Valid() && started == old(started) + 1
      ensures Bottom() == Inserted(Removed(old(Bottom()), id), Timer(id, ticks, periodic, time + ticks, old(started)))
    {
      var due := BeginStart(id, ticks);
      LinkStart(id, ticks, periodic, due);
    }

    /** The first region of a start, and the reading of the tick. */
    method BeginStart(id: nat, ticks: nat) returns (due: nat)
      requires Valid()
      modifies this`rows
      ensures Valid() && Bottom() == Removed(old(Bottom()), id) && due == time + ticks
      ensures forall x :: x in Bottom() ==> x.id != id
    {
      ghost var list := Bottom();
      Remove(id);
      RemovedMembers(list, id);
      due := time + ticks;
    }

    /** The second region: the timer is linked, at most `slack` ticks later than it was due. */
    method LinkStart(id: nat, ticks: nat, periodic: bool, due: nat)
      requires Valid() && due + slack < time + HALF && time <= due + slack
      requires forall x :: x in Bottom() ==> x.id != id
      modifies this`rows, this`random, this`started
      ensures Valid() && started == old(started) + 1
      ensures Bottom() == Inserted(old(Bottom()), Timer(id, ticks, periodic, due, old(started)))
    {
      var t := Timer(id, ticks, periodic, due, started);
      var heads := Search(t.due);
      Link(heads, t);
    }
  }

  lemma Shift(a: seq<Timer>, t: Timer, b: seq<Timer>)
    ensures a + ([t] + b) == a + [t] + b
  {
  }

  /** The timers at the front that are due. */
  ghost function Due(list: seq<Timer>, time: nat): (due: seq<Timer>) {
    if list == [] || time < list[0].due then [] else [list[0]] + Due(list[1..], time)
  }

  /** Those due are the timers up to the first that is not. */
  lemma {:induction false} DueIsCut(list: seq<Timer>, time: nat)
    ensures Due(list, time) == list[..Cut(list, time)]
  {
    if list != [] && list[0].due <= time {
      DueIsCut(list[1..], time);
      assert list[..Cut(list, time)] == [list[0]] + list[1..][..Cut(list[1..], time)];
    }
  }

  /** The first timer leaves the list, and starts again if it is periodic. */
  function Fired(list: seq<Timer>, time: nat, started: nat): (r: seq<Timer>) {
    if list == [] then []
    else if list[0].periodic then
      Inserted(list[1..], Timer(list[0].id, list[0].ticks, true, time + list[0].ticks, started))
    else list[1..]
  }

  /** The list after the first `n` timers have fired, one after the other. */
  function Rearmed(list: seq<Timer>, n: nat, time: nat, started: nat): (r: seq<Timer>)
    decreases n
  {
    if n == 0 || list == [] then list
    else Rearmed(Fired(list, time, started), n - 1, time, if list[0].periodic then started + 1 else started)
  }

  lemma StartedAgain(list: seq<Timer>, again: Timer)
    requires forall x :: x in list ==> x.id != again.id
    ensures Inserted(Removed(list, again.id), again) == Inserted(list, again)
    ensures forall x :: x in Inserted(Removed(list, again.id), again) ==> x in list || x == again
  {
    RemovedAbsent(list, again.id);
    InsertedMembers(list, again);
  }

  lemma NoneDue(list: seq<Timer>, time: nat)
    requires Sorted(list) && (list != [] ==> time < list[0].due)
    ensures forall t :: t in list ==> time < t.due
    ensures Due(list, time) == []
  {
    forall i | 0 <= i < |list|
      ensures time < list[i].due
    {
      assert i > 0 ==> InOrder(list[0], list[i]);
    }
  }

  lemma {:induction false} DueInserted(list: seq<Timer>, t: Timer, time: nat)
    requires time < t.due
    ensures Due(Inserted(list, t), time) == Due(list, time)
  {
    if list != [] && list[0].due <= time {
      DueInserted(list[1..], t, time);
      assert Inserted(list, t)[1..] == Inserted(list[1..], t);
    }
  }

  /** Firing the first timer makes no other one due. */
  lemma DueFired(list: seq<Timer>, time: nat, started: nat)
    requires list != [] && list[0].due <= time && (list[0].periodic ==> list[0].ticks >= 1)
    ensures Due(list, time) == [list[0]] + Due(Fired(list, time, started), time)
    ensures Rearmed(list, |Due(list, time)|, time, started)
            == Rearmed(Fired(list, time, started), |Due(Fired(list, time, started), time)|, time,
                       if list[0].periodic then started + 1 else started)
  {
    if list[0].periodic {
      DueInserted(list[1..], Timer(list[0].id, list[0].ticks, true, time + list[0].ticks, started), time);
    }
  }

  function Put(row: seq<Timer>, k: nat, t: Timer): (r: seq<Timer>)
    requires k <= |row|
  {
    row[..k] + [t] + row[k..]
  }

  /** The rows from `top` on have the timer inserted. */
  ghost predicate Raised(before: seq<seq<Timer>>, after: seq<seq<Timer>>, t: Timer, top: int) {
    && |after| == |before|
    && forall r :: 0 <= r < |before| ==> after[r] == if r >= top then Inserted(before[r], t) else before[r]
  }

  /** How many pairs of zero bits a counter ends with, up to `n`. */
  function Pairs(bits: nat, n: nat): (k: nat)
    ensures k <= n
    decreases n
  {
    if n == 0 || bits % 4 != 0 then 0 else 1 + Pairs(bits / 4, n - 1)
  }

  lemma RaisedMore(before: seq<seq<Timer>>, after: seq<seq<Timer>>, t: Timer, r: nat)
    requires Raised(before, after, t, r + 1) && r < |before|
    ensures Raised(before, after[r := Put(after[r], Cut(before[r], t.due), t)], t, r)
  {
    InsertedAt(before[r], t);
  }

  lemma RowsRemoved(before: seq<seq<Timer>>, after: seq<seq<Timer>>, id: nat)
    requires Rows(before) && |after| == |before|
    requires forall r :: 0 <= r < |before| ==> after[r] == Removed(before[r], id)
    ensures Rows(after)
  {
    RemovedUnique(before[|before| - 1], id);
    forall r | 0 <= r < |after|
      ensures Sorted(after[r])
    {
      RemovedMembers(before[r], id);
    }
    forall r
      ensures Selects(after, r)
    {
      if 0 <= r < |after| - 1 {
        assert Selects(before, r);
        RemovedMembers(before[r], id);
        RemovedMembers(before[r + 1], id);
      }
    }
  }

  lemma RowsInserted(before: seq<seq<Timer>>, after: seq<seq<Timer>>, t: Timer, top: int, started: nat)
    requires Rows(before) && Raised(before, after, t, top) && top < |before|
    requires forall x :: x in before[|before| - 1] ==> x.id != t.id && x.serial < started
    requires t.serial == started
    ensures Rows(after)
  {
    var last := |before| - 1;
    assert forall i :: 0 <= i < |before[last]| ==> before[last][i] in before[last];
    InsertedUnique(before[last], t);
    forall r | 0 <= r < |after|
      ensures Sorted(after[r])
    {
      if r >= top {
        forall x | x in before[r]
          ensures x.serial < started
        {
          InLast(before, r, x);
        }
        InsertedSorted(before[r], t);
      }
    }
    forall r
      ensures Selects(after, r)
    {
      if 0 <= r < |after| - 1 {
        assert Selects(before, r);
        InsertedMembers(before[r], t);
        InsertedMembers(before[r + 1], t);
      }
    }
  }

  // ----- the check and the steps -----

  /** The timers that start again are those marked active. */
  ghost predicate Rearming(s: State) {
    forall t :: t in s.list && t.periodic ==> t.ticks >= 1 && t.id in s.active
  }

  /** A periodic timer that is started again. */
  lemma Restarts(s: State, t: Timer, slack: nat)
    requires Invariant(s, slack) && t.periodic && 1 <= t.ticks && t.ticks + slack < HALF
    requires !Listed(s.list, t.id) && Rearming(s)
    ensures var r := Started(s, t.id, t.ticks, true);
            && r.list == Inserted(s.list, Timer(t.id, t.ticks, true, s.time + t.ticks, |s.links|))
            && |r.links| == |s.links| + 1 && Rearming(r)
  {
    var n := Timer(t.id, t.ticks, true, s.time + t.ticks, |s.links|);
    ListedMember(s.list, t.id);
    RemovedAbsent(s.list, t.id);
    LinkedList(s, n, slack);
    InsertedMembers(s.list, n);
  }

  lemma OneRound(s: State, slack: nat)
    requires Invariant(s, slack) && s.phase == Checking && Rearming(s) && s.list != [] && s.list[0].due <= s.time
    ensures var r := Step(Step(s, Expire), Return);
            && Invariant(r, slack) && r.phase == Checking && r.time == s.time && Rearming(r)
            && r.list == Fired(s.list, s.time, |s.links|)
            && |r.links| == |s.links| + (if s.list[0].periodic then 1 else 0)
  {
    var t, q := s.list[0], InFirst(s);
    RoundIs(s, slack);
    RearmingBehind(s);
    assert t in s.list && Seen(s.links, t, slack) by {
      assert Waiting(s, t, slack);
    }
    if t.periodic {
      Restarts(q, t, slack);
    }
  }

  /** Behind the first timer what starts again is active still. */
  lemma RearmingBehind(s: State)
    requires Rearming(s) && Unique(s.list) && s.list != []
    ensures Rearming(InFirst(s))
  {
    var t, rest := s.list[0], s.list[1..];
    assert s.list == [t] + rest;
    UniqueFirst(t, rest);
    forall x | x in rest && x.periodic
      ensures x.ticks >= 1 && x.id in InFirst(s).active
    {
      assert x in s.list && Differ(t, x);
    }
  }

  /** The first of `n` rounds ends in a state from which the others run. */
  lemma RunRound(s: State, n: nat, slack: nat) returns (r: State)
    requires Invariant(s, slack) && s.phase == Checking && Rearming(s) && 0 < n <= |Due(s.list, s.time)|
    ensures Invariant(r, slack) && r.phase == Checking && Rearming(r) && r.time == s.time
    ensures r.list == Fired(s.list, s.time, |s.links|) && n - 1 <= |Due(r.list, r.time)|
    ensures |r.links| == |s.links| + (if s.list[0].periodic then 1 else 0)
    ensures Run(s, Rounds(n)) == Run(r, Rounds(n - 1))
  {
    r := Step(Step(s, Expire), Return);
    assert s.list[0] in s.list;
    OneRound(s, slack);
    DueFired(s.list, s.time, |s.links|);
    RunTwo(s, n);
  }

  /** The check of the kernel, on the rows, is a run of the steps. */
  lemma {:induction false} CheckIsRun(s: State, n: nat, slack: nat)
    requires Invariant(s, slack) && s.phase == Checking && Rearming(s) && n <= |Due(s.list, s.time)|
    ensures var r := Run(s, Rounds(n)); r.phase == Checking && r.list == Rearmed(s.list, n, s.time, |s.links|)
    decreases n
  {
    if n > 0 {
      var r := RunRound(s, n, slack);
      CheckIsRun(r, n - 1, slack);
    }
  }
}
