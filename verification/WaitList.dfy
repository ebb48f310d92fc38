/** The list of threads suspended on an IPC object. */
module WaitList {
  import opened Options
  import opened Lists

  /** A thread as a wait list sees it; a lower number is a more urgent priority. */
  datatype Thread = Thread(id: nat, priority: nat)

  datatype Flag = Fifo | Prio

  /** The first place whose thread is less urgent than priority `p`, or the end. */
  function Place(list: seq<Thread>, p: nat): (k: nat)
    ensures k <= |list|
    ensures forall i :: 0 <= i < k ==> list[i].priority <= p
    ensures k < |list| ==> p < list[k].priority
  {
    if list == [] || p < list[0].priority then 0 else 1 + Place(list[1..], p)
  }

  /** In a sorted list everyone from there on is less urgent. */
  lemma PlaceAbove(list: seq<Thread>, p: nat)
    requires Sorted(list)
    ensures forall i :: Place(list, p) <= i < |list| ==> p < list[i].priority
  {
    var k := Place(list, p);
    forall i | k <= i < |list|
      ensures p < list[i].priority
    {
      assert k < i ==> list[k].priority <= list[i].priority;
    }
  }

  function Enqueued(list: seq<Thread>, t: Thread, flag: Flag): (r: seq<Thread>) {
    match flag
    case Fifo => list + [t]
    case Prio => list[..Place(list, t.priority)] + [t] + list[Place(list, t.priority)..]
  }

  ghost predicate Sorted(list: seq<Thread>) {
    forall i, j :: 0 <= i < j < |list| ==> list[i].priority <= list[j].priority
  }

  /** A sorted list by its first thread and the others. */
  lemma SortedFirst(t: Thread, rest: seq<Thread>)
    ensures Sorted([t] + rest) <==> Sorted(rest) && forall x :: x in rest ==> t.priority <= x.priority
  {
    var list := [t] + rest;
    if Sorted(list) {
      forall i, j | 0 <= i < j < |rest|
        ensures rest[i].priority <= rest[j].priority
      {
        assert list[i + 1].priority <= list[j + 1].priority;
      }
      forall x | x in rest
        ensures t.priority <= x.priority
      {
        var j :| 0 <= j < |rest| && rest[j] == x;
        assert list[0].priority <= list[j + 1].priority;
      }
    }
  }

  /** Threads wait in the order of their flag: in a priority list the most urgent is first. */
  ghost predicate Ordered(list: seq<Thread>, flag: Flag) {
    flag == Prio ==> Sorted(list)
  }

  /** A thread enters behind everyone at least as urgent and in front of everyone less urgent. */
  lemma EnqueuedOrder(list: seq<Thread>, t: Thread, flag: Flag)
    requires Ordered(list, flag)
    ensures Ordered(Enqueued(list, t, flag), flag)
    ensures exists k :: 0 <= k <= |list| && Enqueued(list, t, flag) == list[..k] + [t] + list[k..]
                        && (flag == Fifo ==> k == |list|)
                        && (flag == Prio ==> (forall i :: 0 <= i < k ==> list[i].priority <= t.priority)
                                             && (forall i :: k <= i < |list| ==> t.priority < list[i].priority))
  {
    var k := if flag == Fifo then |list| else Place(list, t.priority);
    assert Enqueued(list, t, flag) == list[..k] + [t] + list[k..];
  }

  /** The new thread is somewhere in the list, and the others are as they were. */
  ghost predicate Joins(list: seq<Thread>, t: Thread, r: seq<Thread>) {
    exists k :: 0 <= k <= |list| && r == list[..k] + [t] + list[k..]
  }

  lemma EnqueuedMembers(list: seq<Thread>, t: Thread, flag: Flag)
    ensures forall x :: x in Enqueued(list, t, flag) <==> x in list || x == t
    ensures Nodup(list) && t !in list ==> Nodup(Enqueued(list, t, flag))
  {
    var k := if flag == Fifo then |list| else Place(list, t.priority);
    var a, b := list[..k], list[k..];
    assert Enqueued(list, t, flag) == a + [t] + b;
    assert list == a + b;
    assert forall x :: x in a + [t] + b <==> x in a + b || x == t;
    if Nodup(list) && t !in list {
      InsertedMembers(list, t, k);
    }
  }

  lemma {:induction false} WithoutOrder(list: seq<Thread>, t: Thread)
    requires Nodup(list)
    ensures Nodup(Without(list, t))
    ensures forall x :: x in Without(list, t) <==> x in list && x != t
    ensures Sorted(list) ==> Sorted(Without(list, t))
  {
    WithoutMembers(list, t);
    if list != [] {
      var first, rest := list[0], list[1..];
      NodupTail(list);
      SortedFirst(first, rest);
      if first != t {
        WithoutOrder(rest, t);
        SortedFirst(first, Without(rest, t));
      }
    }
  }

  function First(list: seq<Thread>): (r: Option<Thread>) {
    if list == [] then None else Some(list[0])
  }

  function Rest(list: seq<Thread>): (r: seq<Thread>) {
    if list == [] then [] else list[1..]
  }

  lemma RestMembers(list: seq<Thread>)
    requires Nodup(list)
    ensures Nodup(Rest(list)) && (Sorted(list) ==> Sorted(Rest(list)))
    ensures forall x :: x in Rest(list) <==> x in list && First(list) != Some(x)
  {
    if list != [] {
      assert list == [list[0]] + list[1..];
    }
  }

  lemma NonEmpty(few: seq<Thread>, many: seq<Thread>)
    requires forall x :: x in few ==> x in many
    ensures few != [] ==> many != []
  {
    if few != [] {
      assert few[0] in many;
    }
  }

  /** The rest of a waiting time in 32-bit arithmetic: a negative rest counts as none. */
  function Remaining(timeout: int, since: int, now: int): (r: int)
    ensures timeout <= 0 ==> r == timeout
    ensures timeout > 0 ==> 0 <= r < 0x8000_0000
    ensures 0 < timeout < 0x8000_0000 && 0 <= now - since <= timeout ==> r == timeout - (now - since)
    ensures 0 < timeout < 0x8000_0000 && timeout < now - since <= timeout + 0x8000_0000 ==> r == 0
  {
    if timeout <= 0 then timeout
    else
      var rest := (timeout - (now - since)) % 0x1_0000_0000;
      if rest >= 0x8000_0000 then 0 else rest
  }

  /** Find the place from the front and insert. */
  method Enqueue(list: seq<Thread>, t: Thread, flag: Flag) returns (r: seq<Thread>)
    ensures r == Enqueued(list, t, flag)
  {
    match flag
    case Fifo =>
      r := list + [t];
    case Prio =>
      var n := 0;
      while n < |list| && t.priority >= list[n].priority
        invariant 0 <= n <= |list|
        invariant Place(list, t.priority) == n + Place(list[n..], t.priority)
      {
        assert list[n..][1..] == list[n + 1..];
        n := n + 1;
      }
      r := list[..n] + [t] + list[n..];
  }
}
