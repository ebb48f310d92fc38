/** Lists without repetitions, as the kernel's linked lists are. */
module Lists {

  ghost predicate Nodup<T>(list: seq<T>) {
    forall i, j :: 0 <= i < j < |list| ==> list[i] != list[j]
  }

  lemma NodupTail<T>(list: seq<T>)
    requires Nodup(list) && list != []
    ensures Nodup(list[1..]) && list[0] !in list[1..] && list == [list[0]] + list[1..]
    ensures forall x :: x in list <==> x == list[0] || x in list[1..]
  {
  }

  /** The list without the element, which leaves it from any place. */
  function Without<T(==)>(list: seq<T>, x: T): (r: seq<T>) {
    if list == [] then [] else if list[0] == x then list[1..] else [list[0]] + Without(list[1..], x)
  }

  lemma {:induction false} WithoutMembers<T>(list: seq<T>, x: T)
    requires Nodup(list)
    ensures Nodup(Without(list, x)) && forall y :: y in Without(list, x) <==> y in list && y != x
  {
    if list != [] {
      NodupTail(list);
      WithoutMembers(list[1..], x);
    }
  }

  lemma AppendMembers<T>(list: seq<T>, x: T)
    requires Nodup(list) && x !in list
    ensures Nodup(list + [x]) && forall y :: y in list + [x] <==> y in list || y == x
  {
  }

  lemma InsertedMembers<T>(list: seq<T>, x: T, k: nat)
    requires Nodup(list) && x !in list && k <= |list|
    ensures Nodup(list[..k] + [x] + list[k..]) && forall y :: y in list[..k] + [x] + list[k..] <==> y in list || y == x
  {
    var r := list[..k] + [x] + list[k..];
    forall i, j | 0 <= i < j < |r|
      ensures r[i] != r[j]
    {
      assert i < k ==> r[i] == list[i];
      assert i > k ==> r[i] == list[i - 1];
      assert j < k ==> r[j] == list[j];
      assert j > k ==> r[j] == list[j - 1];
    }
    assert list == list[..k] + list[k..];
  }

  /** List `r` is `list` without its element at `k`. */
  ghost predicate LeavesOut<T>(list: seq<T>, k: int, r: seq<T>) {
    0 <= k < |list| && r == list[..k] + list[k + 1..]
  }

  /** List `r` is `list` without `x`, in the same order. */
  ghost predicate Drops<T>(list: seq<T>, x: T, r: seq<T>) {
    if x in list then exists k :: LeavesOut(list, k, r) && list[k] == x else r == list
  }

  lemma {:induction false} WithoutAt<T>(list: seq<T>, x: T) returns (k: nat)
    requires x in list
    ensures LeavesOut(list, k, Without(list, x)) && list[k] == x
  {
    if list[0] == x {
      k := 0;
    } else {
      assert list == [list[0]] + list[1..];
      k := WithoutAt(list[1..], x);
      OneMore(list[0], list[1..], k, Without(list[1..], x));
      k := k + 1;
    }
  }

  lemma OneMore<T>(first: T, rest: seq<T>, k: nat, r: seq<T>)
    requires LeavesOut(rest, k, r)
    ensures LeavesOut([first] + rest, k + 1, [first] + r)
  {
  }

  lemma {:induction false} WithoutAbsent<T>(list: seq<T>, x: T)
    requires x !in list
    ensures Without(list, x) == list
  {
    if list != [] {
      WithoutAbsent(list[1..], x);
    }
  }

  /** Removal keeps the order of the others. */
  lemma WithoutSplits<T>(list: seq<T>, x: T)
    ensures Drops(list, x, Without(list, x))
  {
    if x in list {
      var k := WithoutAt(list, x);
    } else {
      WithoutAbsent(list, x);
    }
  }
}
