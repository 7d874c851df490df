/**
  What both btree_gist picksplit methods start from: the offsets 1..maxoff of an
  entry vector, sorted by key, of which the first half goes left.
 */
module Halving {

  // The contract of qsort on arr[1..maxoff]: every offset once, in key order.
  ghost predicate SortedOffsets<K>(vector: seq<K>, order: seq<nat>, cmp: (K, K) -> int) {
    && |order| + 1 == |vector|
    && (forall i | 0 <= i < |order| :: 1 <= order[i] < |vector|)
    && (forall o | 1 <= o < |vector| :: o in order)
    && (forall i, j | 0 <= i < j < |order| :: order[i] != order[j] && cmp(vector[order[i]], vector[order[j]]) <= 0)
  }

  predicate Within(offsets: seq<nat>, n: nat) {
    forall i | 0 <= i < |offsets| :: offsets[i] < n
  }

  function KeysAt<K>(vector: seq<K>, offsets: seq<nat>): (ks: seq<K>)
    requires Within(offsets, |vector|)
    ensures |ks| == |offsets| && forall i | 0 <= i < |ks| :: ks[i] == vector[offsets[i]]
  {
    seq(|offsets|, i requires 0 <= i < |offsets| => vector[offsets[i]])
  }

  // Floor and ceiling halves of 1..maxoff, nothing lost, nothing on both sides, left no later than right.
  lemma HalvesPartition<K>(vector: seq<K>, order: seq<nat>, cmp: (K, K) -> int, left: seq<nat>, right: seq<nat>)
    requires |vector| >= 3 && SortedOffsets(vector, order, cmp)
    requires left == order[..|order| / 2] && right == order[|order| / 2..]
    ensures |left| == (|vector| - 1) / 2 && |right| == |vector| / 2 && left != [] && right != []
    ensures Within(left, |vector|) && Within(right, |vector|)
    ensures forall o | 1 <= o < |vector| :: o in left || o in right
    ensures forall i, j | 0 <= i < |left| && 0 <= j < |right| ::
              left[i] != right[j] && cmp(vector[left[i]], vector[right[j]]) <= 0
  {
    assert left + right == order;
    forall o | 1 <= o < |vector|
      ensures o in left || o in right
    {
      assert o in order;
    }
    forall i, j | 0 <= i < |left| && 0 <= j < |right|
      ensures left[i] != right[j] && cmp(vector[left[i]], vector[right[j]]) <= 0
    {
      assert order[i] == left[i] && order[|left| + j] == right[j];
    }
  }

  // Appends an offset to the n already in the list.
  method Put(a: array<nat>, n: nat, o: nat)
    requires n < a.Length
    modifies a
    ensures a[..n + 1] == old(a[..n]) + [o]
  {
    a[n] := o;
  }

  /* Filling the two offset lists */

  // After i - 1 entries in sorted order: up to the middle they are left, the rest right.
  ghost predicate Placed(order: seq<nat>, i: nat, nleft: nat, nright: nat, llist: seq<nat>, rlist: seq<nat>) {
    && 1 <= i <= |order| + 1
    && nleft == (if i <= |order| / 2 then i - 1 else |order| / 2) && nright == i - 1 - nleft
    && nleft <= |llist| && llist[..nleft] == order[..nleft]
    && nright <= |rlist| && rlist[..nright] == order[nleft..i - 1]
  }

  lemma NothingPlaced(order: seq<nat>, llist: seq<nat>, rlist: seq<nat>)
    ensures Placed(order, 1, 0, 0, llist, rlist)
  {
  }

  method PlaceLeft(order: seq<nat>, i: nat, nleft: nat, ghost nright: nat, llist: array<nat>, ghost rlist: array<nat>)
    requires 1 <= i <= |order| / 2 && llist != rlist && |order| < llist.Length
    requires Placed(order, i, nleft, nright, llist[..], rlist[..])
    modifies llist
    ensures Placed(order, i + 1, nleft + 1, nright, llist[..], rlist[..])
    ensures order[..nleft] + [order[i - 1]] == order[..nleft + 1]
    ensures order[nleft..i - 1] == order[nleft + 1..i] == []
  {
    Put(llist, nleft, order[i - 1]);
    assert llist[..][..nleft + 1] == llist[..nleft + 1];
  }

  method PlaceRight(order: seq<nat>, i: nat, ghost nleft: nat, nright: nat, ghost llist: array<nat>, rlist: array<nat>)
    requires |order| / 2 < i <= |order| && llist != rlist && |order| < rlist.Length
    requires Placed(order, i, nleft, nright, llist[..], rlist[..])
    modifies rlist
    ensures Placed(order, i + 1, nleft, nright + 1, llist[..], rlist[..])
    ensures order[nleft..i - 1] + [order[i - 1]] == order[nleft..i]
  {
    Put(rlist, nright, order[i - 1]);
    assert rlist[..][..nright + 1] == rlist[..nright + 1];
  }

  lemma AllPlaced(order: seq<nat>, nleft: nat, nright: nat, llist: seq<nat>, rlist: seq<nat>)
    requires Placed(order, |order| + 1, nleft, nright, llist, rlist)
    ensures nleft <= |llist| && llist[..nleft] == order[..nleft] == order[..|order| / 2]
    ensures nright <= |rlist| && rlist[..nright] == order[nleft..] == order[|order| / 2..]
  {
    assert order[nleft..|order|] == order[nleft..];
  }
}
