/** Time slices: the ready threads of the most urgent priority take turns. */
module RoundRobin {

  /** A thread, the length of its slice, and the ticks left of the current one. */
  datatype Slice = Slice(id: nat, ticks: nat, left: nat)

  /** The first thread runs. */
  type Queue = seq<Slice>

  /** A tick is taken off the running thread; when its slice ends, a new one begins and it goes to the end. */
  function Tick(q: Queue): (r: Queue)
    requires q != []
    ensures |r| == |q|
  {
    var left := q[0].left - 1;
    if left > 0 then q[0 := q[0].(left := left)]
    else if left == 0 then Yielded(q[0 := q[0].(left := q[0].ticks)])
    else q
  }

  /** A thread that is alone at its priority keeps its place. */
  function Yielded(q: Queue): (r: Queue)
    requires q != []
    ensures |r| == |q|
  {
    if |q| == 1 then q else q[1..] + [q[0]]
  }

  function Ticks(q: Queue, n: nat): (r: Queue)
    requires q != []
    ensures |r| == |q|
    decreases n
  {
    if n == 0 then q else Ticks(Tick(q), n - 1)
  }

  /** The ticks left of the first `k` threads' slices. */
  function Wait(q: Queue, k: nat): (n: nat)
    requires k <= |q|
  {
    if k == 0 then 0 else q[0].left + Wait(q[1..], k - 1)
  }

  ghost predicate Running(q: Queue) {
    q != [] && forall i :: 0 <= i < |q| ==> q[i].left >= 1 && q[i].ticks >= 1
  }

  /** The queue once the first `k` threads have used up their slices. */
  function Turned(q: Queue, k: nat): (r: Queue)
    requires k <= |q|
    ensures |r| == |q|
  {
    q[k..] + Fresh(q[..k])
  }

  function Fresh(q: Queue): (r: Queue)
    ensures |r| == |q|
    ensures forall i :: 0 <= i < |q| ==> r[i] == q[i].(left := q[i].ticks)
  {
    if q == [] then [] else [q[0].(left := q[0].ticks)] + Fresh(q[1..])
  }

  lemma {:induction false} TicksAdd(q: Queue, m: nat, n: nat)
    requires q != []
    ensures Ticks(q, m + n) == Ticks(Ticks(q, m), n)
    decreases m
  {
    if m > 0 {
      TicksAdd(Tick(q), m - 1, n);
    }
  }

  /** Within its slice the running thread only loses ticks. */
  lemma {:induction false} SliceRuns(q: Queue, n: nat)
    requires Running(q) && n < q[0].left
    ensures Ticks(q, n) == q[0 := q[0].(left := q[0].left - n)]
    decreases n
  {
    if n > 0 {
      var r := Tick(q);
      assert r == q[0 := q[0].(left := q[0].left - 1)];
      SliceRuns(r, n - 1);
    }
  }

  lemma TurnedFirst(q: Queue)
    requires q != []
    ensures Turned(q, 1) == q[1..] + [q[0].(left := q[0].ticks)]
  {
    assert q[..1] == [q[0]];
  }

  lemma LastTick(q: Queue)
    requires q != [] && q[0].left == 1
    ensures Tick(q) == Turned(q, 1)
  {
    TurnedFirst(q);
    var r := q[0 := q[0].(left := q[0].ticks)];
    assert r[1..] == q[1..];
    assert |q| == 1 ==> r == [r[0]] && q[1..] == [];
  }

  /** At the end of its slice the running thread is last, with a new slice. */
  lemma {:induction false} SliceEnds(q: Queue)
    requires Running(q)
    ensures Ticks(q, q[0].left) == Turned(q, 1)
    decreases q[0].left
  {
    if q[0].left == 1 {
      LastTick(q);
      assert Ticks(Tick(q), 0) == Tick(q);
    } else {
      var r := q[0 := q[0].(left := q[0].left - 1)];
      assert Tick(q) == r;
      SliceEnds(r);
      TurnedFirst(q);
      TurnedFirst(r);
      assert r[1..] == q[1..];
    }
  }

  lemma TurnedRunning(q: Queue, k: nat)
    requires Running(q) && k <= |q|
    ensures Running(Turned(q, k))
  {
  }

  lemma {:induction false} WaitSplit(q: Queue, k: nat)
    requires k < |q|
    ensures Wait(q, k + 1) == Wait(q, k) + q[k].left
    decreases k
  {
    if k > 0 {
      WaitSplit(q[1..], k - 1);
    }
  }

  lemma TurnedOnce(q: Queue, k: nat)
    requires k < |q|
    ensures Turned(q, k)[0] == q[k]
    ensures Turned(Turned(q, k), 1) == Turned(q, k + 1)
  {
    var r := Turned(q, k);
    var f := q[k].(left := q[k].ticks);
    assert r[..1] == [q[k]];
    assert Fresh(r[..1]) == [f];
    assert q[..k + 1] == q[..k] + [q[k]];
    FreshJoin(q[..k], [q[k]]);
    assert r[1..] == q[k + 1..] + Fresh(q[..k]);
  }

  lemma {:induction false} FreshJoin(a: Queue, b: Queue)
    ensures Fresh(a + b) == Fresh(a) + Fresh(b)
  {
    if a == [] {
      assert a + b == b;
    } else {
      assert (a + b)[1..] == a[1..] + b;
      FreshJoin(a[1..], b);
    }
  }

  /** After exactly the ticks left ahead of it, the thread at place `k` runs. */
  lemma {:induction false} TurnComes(q: Queue, k: nat)
    requires Running(q) && k <= |q|
    ensures Ticks(q, Wait(q, k)) == Turned(q, k)
    decreases k
  {
    if k == 0 {
      assert Turned(q, 0) == q;
    } else {
      TurnComes(q, k - 1);
      TurnedRunning(q, k - 1);
      TurnedOnce(q, k - 1);
      SliceEnds(Turned(q, k - 1));
      WaitSplit(q, k - 1);
      TicksAdd(q, Wait(q, k - 1), q[k - 1].left);
    }
  }

  /** It then keeps the processor for the ticks left of its own slice, and no longer. */
  lemma TurnLasts(q: Queue, k: nat, n: nat)
    requires Running(q) && k < |q| && n < q[k].left
    ensures Ticks(q, Wait(q, k) + n)[0] == q[k].(left := q[k].left - n)
    ensures Ticks(q, Wait(q, k) + q[k].left) == Turned(q, k + 1)
  {
    TurnComes(q, k);
    TurnComes(q, k + 1);
    WaitSplit(q, k);
    TurnedRunning(q, k);
    TurnedOnce(q, k);
    TicksAdd(q, Wait(q, k), n);
    SliceRuns(Turned(q, k), n);
  }

  /** A whole round leaves the order as it was and everyone with a full slice. */
  lemma Round(q: Queue)
    requires Running(q)
    ensures Ticks(q, Wait(q, |q|)) == Fresh(q)
  {
    TurnComes(q, |q|);
    assert q[..|q|] == q && q[|q|..] == [];
  }

  /** Thread `k` is on after `m` ticks. */
  ghost predicate OnTurn(q: Queue, m: nat, k: nat)
    requires q != []
  {
    k < |q| && Wait(q, k) <= m < Wait(q, k + 1) && Ticks(q, m)[0].id == q[k].id
  }

  /** At every moment of a round the thread runs whose turn it is. */
  lemma WhoRuns(q: Queue, m: nat) returns (k: nat)
    requires Running(q) && m < Wait(q, |q|)
    ensures OnTurn(q, m, k)
  {
    k := TurnAt(q, m, 0);
    WaitSplit(q, k);
    TurnLasts(q, k, m - Wait(q, k));
  }

  lemma {:induction false} TurnAt(q: Queue, m: nat, from: nat) returns (k: nat)
    requires from < |q| && Wait(q, from) <= m < Wait(q, |q|)
    ensures k < |q| && Wait(q, k) <= m < Wait(q, k + 1)
    decreases |q| - from
  {
    if m < Wait(q, from + 1) {
      k := from;
    } else {
      k := TurnAt(q, m, from + 1);
    }
  }
}
