/**
  From the offset lists that picksplit returns to a split of a tree node.
 */
module SplitOffsets {
  import opened GistTree
  import opened Halving

  ghost predicate SameMembers<E(!new)>(a: seq<E>, b: seq<E>) {
    forall e :: e in a <==> e in b
  }

  // Offsets count from one; every offset up to n is on exactly one side, and no side is empty.
  ghost predicate Sides(left: seq<nat>, right: seq<nat>, n: nat) {
    && left != [] && right != []
    && (forall o | o in left + right :: 1 <= o <= n)
    && (forall o | 1 <= o <= n :: (o in left) != (o in right))
  }

  function MarksOf(left: seq<nat>, n: nat): (marks: seq<bool>)
    ensures |marks| == n
  {
    seq(n, i requires 0 <= i < n => i + 1 in left)
  }

  lemma {:induction false} PickHas<E>(es: seq<E>, marks: seq<bool>, side: bool, e: E)
    requires |marks| == |es|
    ensures e in Pick(es, marks, side) <==> exists i :: 0 <= i < |es| && marks[i] == side && es[i] == e
  {
    if es != [] {
      PickHas(es[1..], marks[1..], side, e);
      if i :| 0 <= i < |es| && marks[i] == side && es[i] == e && i > 0 {
        assert marks[1..][i - 1] == side && es[1..][i - 1] == e;
      }
      if j :| 0 <= j < |es| - 1 && marks[1..][j] == side && es[1..][j] == e {
        assert marks[j + 1] == side && es[j + 1] == e;
      }
    }
  }

  lemma {:induction false} PickMaps<A, B>(as_: seq<A>, bs: seq<B>, marks: seq<bool>, side: bool, f: A -> B)
    requires |as_| == |bs| == |marks| && forall i | 0 <= i < |bs| :: bs[i] == f(as_[i])
    ensures |Pick(bs, marks, side)| == |Pick(as_, marks, side)|
    ensures forall i | 0 <= i < |Pick(bs, marks, side)| :: Pick(bs, marks, side)[i] == f(Pick(as_, marks, side)[i])
  {
    if as_ != [] {
      PickMaps(as_[1..], bs[1..], marks[1..], side, f);
    }
  }

  lemma HalfKeys<K, I>(t: Tree<K, I>, marks: seq<bool>, side: bool, key: K, leafKey: I -> K)
    requires |marks| == EntryCount(t)
    ensures EntryKeys(Half(t, marks, side, key), leafKey) == Pick(EntryKeys(t, leafKey), marks, side)
  {
    match t
    case Page(_, items) => PickMaps(items, EntryKeys(t, leafKey), marks, side, leafKey);
    case Inner(_, kids) => PickMaps(kids, EntryKeys(t, leafKey), marks, side, (kid: Tree<K, I>) => kid.key);
  }

  // An offset on a side is marked so, and every entry marked so is on that side.
  lemma MarksTell(left: seq<nat>, right: seq<nat>, n: nat, o: nat)
    requires Sides(left, right, n)
    ensures o in left ==> 1 <= o <= n && MarksOf(left, n)[o - 1]
    ensures o in right ==> 1 <= o <= n && !MarksOf(left, n)[o - 1]
    ensures 1 <= o <= n && !(o in left) ==> o in right
  {
    assert o in left || o in right ==> o in left + right;
  }

  // The keys that a split by offset lists puts on the left side, or on the right.
  lemma OneSide<K>(vector: seq<K>, left: seq<nat>, right: seq<nat>, side: bool, e: K)
    requires vector != [] && Sides(left, right, |vector| - 1) && Within(left, |vector|) && Within(right, |vector|)
    ensures e in Pick(vector[1..], MarksOf(left, |vector| - 1), side) <==>
      e in KeysAt(vector, if side then left else right)
  {
    var keys, marks, offsets := vector[1..], MarksOf(left, |vector| - 1), if side then left else right;
    PickHas(keys, marks, side, e);
    hide Sides, Pick;
    if e in Pick(keys, marks, side) {
      var i :| 0 <= i < |keys| && marks[i] == side && keys[i] == e;
      MarksTell(left, right, |vector| - 1, i + 1);
      var j :| 0 <= j < |offsets| && offsets[j] == i + 1;
      assert KeysAt(vector, offsets)[j] == e;
    }
    if e in KeysAt(vector, offsets) {
      var j :| 0 <= j < |offsets| && KeysAt(vector, offsets)[j] == e;
      MarksTell(left, right, |vector| - 1, offsets[j]);
      assert keys[offsets[j] - 1] == e;
    }
  }

  // A split by offset lists fits a node whose entries are vector[1..], if the rule looks only at which keys
  // are on which side and accepts the keys of the two lists.
  lemma OffsetsFit<K(!new), I>(
    t: Tree<K, I>, vector: seq<K>, left: seq<nat>, right: seq<nat>, lkey: K, rkey: K, leafKey: I -> K, rule: SplitRule<K>)
    requires vector != [] && EntryKeys(t, leafKey) == vector[1..] && (t.Page? || rule.innerToo)
    requires Sides(left, right, |vector| - 1) && Within(left, |vector|) && Within(right, |vector|)
    requires LooksAtMembers(rule)
    requires rule.key(lkey, KeysAt(vector, left), KeysAt(vector, right))
    requires rule.key(rkey, KeysAt(vector, right), KeysAt(vector, left))
    ensures CanSplit(t, [], MarksOf(left, |vector| - 1), lkey, rkey, leafKey, rule)
  {
    var marks := MarksOf(left, |vector| - 1);
    SideMembers(vector, left, right, true);
    SideMembers(vector, left, right, false);
    BothMarks(left, right, |vector| - 1);
    HalfKeys(t, marks, true, lkey, leafKey);
    HalfKeys(t, marks, false, lkey, leafKey);
    HalfKeys(t, marks, true, rkey, leafKey);
    HalfKeys(t, marks, false, rkey, leafKey);
  }

  ghost predicate LooksAtMembers<K(!new)>(rule: SplitRule<K>) {
    forall k, a, b, c, d {:trigger rule.key(k, a, b), rule.key(k, c, d)} |
      rule.key(k, a, b) && SameMembers(a, c) && SameMembers(b, d) :: rule.key(k, c, d)
  }

  lemma SideMembers<K(!new)>(vector: seq<K>, left: seq<nat>, right: seq<nat>, side: bool)
    requires vector != [] && Sides(left, right, |vector| - 1) && Within(left, |vector|) && Within(right, |vector|)
    ensures SameMembers(KeysAt(vector, if side then left else right), Pick(vector[1..], MarksOf(left, |vector| - 1), side))
  {
    hide Sides, Pick;
    var picked, listed := Pick(vector[1..], MarksOf(left, |vector| - 1), side), KeysAt(vector, if side then left else right);
    forall e
      ensures e in picked <==> e in listed
    {
      OneSide(vector, left, right, side, e);
    }
  }

  lemma BothMarks(left: seq<nat>, right: seq<nat>, n: nat)
    requires Sides(left, right, n)
    ensures true in MarksOf(left, n) && false in MarksOf(left, n)
  {
    assert left[0] in left + right && right[0] in left + right;
    assert MarksOf(left, n)[left[0] - 1];
    assert right[0] in right;
    assert !MarksOf(left, n)[right[0] - 1];
  }

  // The halves of a sorted offset list are such sides.
  lemma HalvesAreSides<K>(vector: seq<K>, order: seq<nat>, cmp: (K, K) -> int)
    requires |vector| >= 3 && SortedOffsets(vector, order, cmp)
    ensures Sides(order[..|order| / 2], order[|order| / 2..], |vector| - 1)
  {
    var left, right := order[..|order| / 2], order[|order| / 2..];
    assert left + right == order;
    HalvesPartition(vector, order, cmp, left, right);
  }
}
