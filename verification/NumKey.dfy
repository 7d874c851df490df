/**
  Range keys over fixed-size values: two values side by side in one buffer, over
  any total preorder of values.
 */
module NumKey {
  import opened Halving
  import opened RangeKey
  import opened SplitOffsets
  import GistTree
  import Nearest

  datatype TypeInfo<!V(!new)> = TypeInfo(cmp: (V, V) -> int) {

    predicate Leq(a: V, b: V) {
      AtMost(cmp, a, b)
    }

    ghost predicate Valid() {
      TotalPreorder(cmp)
    }
  }

  /* The buffers: lower end in cell 0, upper end in cell 1 */

  method NumUnion<V(!new)>(info: TypeInfo<V>, vector: seq<Range<V>>, out: array<V>)
    requires vector != [] && out.Length == 2
    modifies out
    ensures Range(out[0], out[1]) == Hull(info.cmp, vector)
  {
    var cur := vector[0];
    out[0], out[1] := cur.lower, cur.upper;
    var i := 1;
    while i < |vector|
      invariant 1 <= i <= |vector|
      invariant Range(out[0], out[1]) == Hull(info.cmp, vector[..i])
    {
      assert vector[..i + 1][..i] == vector[..i];
      cur := vector[i];
      if info.cmp(out[0], cur.lower) > 0 {
        out[0] := cur.lower;
      }
      if info.cmp(out[1], cur.upper) < 0 {
        out[1] := cur.upper;
      }
      i := i + 1;
    }
    assert vector[..i] == vector;
  }

  // u is null until the first entry arrives.
  method BinUnion<V(!new)>(info: TypeInfo<V>, u: array?<V>, e: Range<V>) returns (r: array<V>)
    requires u != null ==> u.Length == 2
    modifies u
    ensures r.Length == 2 && if u == null then fresh(r) else r == u
    ensures Range(r[0], r[1]) == if u == null then e else Widen(info.cmp, old(Range(u[0], u[1])), e)
  {
    if u == null {
      r := new V[2](i requires 0 <= i < 2 => if i == 0 then e.lower else e.upper);
    } else {
      r := u;
      if info.cmp(u[0], e.lower) > 0 {
        u[0] := e.lower;
      }
      if info.cmp(u[1], e.upper) < 0 {
        u[1] := e.upper;
      }
    }
  }

  /* Search */

  predicate Consistent<V(!new)>(info: TypeInfo<V>, k: Range<V>, q: V, s: Strategy, isLeaf: bool) {
    match s
    case LessEqual => info.cmp(q, k.lower) >= 0
    case Less => if isLeaf then info.cmp(q, k.lower) > 0 else info.cmp(q, k.lower) >= 0
    case Equal =>
      if isLeaf then info.cmp(q, k.lower) == 0 else info.cmp(k.lower, q) <= 0 && info.cmp(q, k.upper) <= 0
    case Greater => if isLeaf then info.cmp(q, k.upper) < 0 else info.cmp(q, k.upper) <= 0
    case GreaterEqual => info.cmp(q, k.upper) <= 0
    case NotEqual => !(info.cmp(q, k.lower) == 0 && info.cmp(q, k.upper) == 0)
    case Other => false
  }

  ghost predicate Covers<V(!new)>(info: TypeInfo<V>, k: Range<V>, x: V) {
    info.Leq(k.lower, x) && info.Leq(x, k.upper)
  }

  lemma InnerTestAccepts<V(!new)>(info: TypeInfo<V>, k: Range<V>, x: V, s: Strategy, q: V)
    requires info.Valid() && Covers(info, k, x) && Satisfies(info.cmp, x, s, q)
    ensures Consistent(info, k, q, s, false)
  {
    assert info.Leq(x, q) ==> info.Leq(k.lower, q);
    assert info.Leq(q, x) ==> info.Leq(q, k.upper);
    assert info.Leq(q, k.lower) ==> info.Leq(q, x);
    assert info.Leq(k.upper, q) ==> info.Leq(x, q);
  }

  // The inner test rejects a key exactly if no value between its ends can satisfy the operator; only for < and > it
  // also accepts a query that is the very end it is compared with.
  lemma InnerTestExactlyWhen<V(!new)>(info: TypeInfo<V>, k: Range<V>, s: Strategy, q: V)
    requires info.Valid() && info.Leq(k.lower, k.upper)
    ensures Consistent(info, k, q, s, false) <==>
      || (exists x :: Covers(info, k, x) && Satisfies(info.cmp, x, s, q))
      || (s == Less && info.cmp(q, k.lower) == 0)
      || (s == Greater && info.cmp(q, k.upper) == 0)
  {
    assert info.Leq(k.lower, k.lower) && info.Leq(k.upper, k.upper) && info.Leq(q, q);
    assert Covers(info, k, k.lower) && Covers(info, k, k.upper);
    EndsCompare(info, k.lower, q);
    EndsCompare(info, k.upper, q);
    EndsCompare(info, q, q);
    if s == Equal && Consistent(info, k, q, s, false) {
      assert Covers(info, k, q);
    }
    forall x | Covers(info, k, x) && Satisfies(info.cmp, x, s, q)
      ensures Consistent(info, k, q, s, false)
    {
      InnerTestAccepts(info, k, x, s, q);
    }
  }

  lemma EndsCompare<V(!new)>(info: TypeInfo<V>, a: V, b: V)
    requires info.Valid()
    ensures info.cmp(a, b) < 0 <==> info.cmp(b, a) > 0
    ensures info.cmp(a, b) == 0 <==> info.cmp(b, a) == 0
  {
    assert info.cmp(b, a) < 0 <==> info.cmp(a, b) > 0;
  }

  lemma LeafTestIsOperator<V(!new)>(info: TypeInfo<V>, x: V, s: Strategy, q: V)
    requires info.Valid()
    ensures Consistent(info, LeafKey(x), q, s, true) <==> Satisfies(info.cmp, x, s, q)
  {
    assert info.cmp(x, q) < 0 <==> info.cmp(q, x) > 0;
    assert info.cmp(q, x) < 0 <==> info.cmp(x, q) > 0;
  }

  type Index<V> = GistTree.Tree<Range<V>, V>

  // gbt_num_union reads its first entry, so it has no value on an empty vector.
  ghost function UnionOf<V(!new)>(info: TypeInfo<V>, none: Range<V>): seq<Range<V>> -> Range<V> {
    (es: seq<Range<V>>) => if es == [] then none else Hull(info.cmp, es)
  }

  lemma UnionKeepsCovers<V(!new)>(info: TypeInfo<V>, none: Range<V>)
    requires info.Valid()
    ensures GistTree.UnionKeeps((k, x) => Covers(info, k, x), k => true, LeafKey<V>, UnionOf(info, none))
  {
    forall x: V
      ensures Covers(info, LeafKey(x), x)
    {
      assert info.Leq(x, x);
    }
    forall es: seq<Range<V>>, e, x {:trigger Covers(info, e, x), UnionOf(info, none)(es)} | e in es && Covers(info, e, x)
      ensures Covers(info, UnionOf(info, none)(es), x)
    {
      HullKeeps(info, es, e, x);
    }
  }

  // gbt_num_picksplit returns the hull of each side.
  ghost function SplitRule<V(!new)>(info: TypeInfo<V>): GistTree.SplitRule<Range<V>> {
    GistTree.SplitRule((k: Range<V>, ks: seq<Range<V>>, js: seq<Range<V>>) => SplitKey(info, k, ks), true)
  }

  // The hull of the entries ks, taken in some order.
  ghost predicate SplitKey<V(!new)>(info: TypeInfo<V>, k: Range<V>, ks: seq<Range<V>>) {
    exists a :: SameMembers(a, ks) && a != [] && k == Hull(info.cmp, a)
  }

  lemma SplitKeyKeeps<V(!new)>(info: TypeInfo<V>, k: Range<V>, ks: seq<Range<V>>, e: Range<V>, x: V)
    requires info.Valid() && SplitKey(info, k, ks) && e in ks && Covers(info, e, x)
    ensures Covers(info, k, x)
  {
    var a :| SameMembers(a, ks) && a != [] && k == Hull(info.cmp, a);
    assert e in a;
    HullKeeps(info, a, e, x);
  }

  lemma HullKeeps<V(!new)>(info: TypeInfo<V>, es: seq<Range<V>>, e: Range<V>, x: V)
    requires info.Valid() && e in es && Covers(info, e, x)
    ensures Covers(info, Hull(info.cmp, es), x)
  {
    var i :| 0 <= i < |es| && es[i] == e;
    HullBoundsEach(info.cmp, es, i);
  }

  lemma SplitKeepsCovers<V(!new)>(info: TypeInfo<V>)
    requires info.Valid()
    ensures GistTree.SplitKeeps((k, x) => Covers(info, k, x), k => true, LeafKey<V>, SplitRule(info))
  {
    forall k, xs: seq<V>, ys: seq<V>, x |
      SplitRule(info).key(k, GistTree.Keys(xs, LeafKey<V>), GistTree.Keys(ys, LeafKey<V>)) && x in xs
      ensures Covers(info, k, x)
    {
      var i :| 0 <= i < |xs| && xs[i] == x;
      assert info.Leq(x, x) && GistTree.Keys(xs, LeafKey<V>)[i] == LeafKey(x);
      SplitKeyKeeps(info, k, GistTree.Keys(xs, LeafKey<V>), LeafKey(x), x);
    }
    forall k, ks: seq<Range<V>>, js: seq<Range<V>>, e, x | SplitRule(info).key(k, ks, js) && e in ks && Covers(info, e, x)
      ensures Covers(info, k, x)
    {
      SplitKeyKeeps(info, k, ks, e, x);
    }
  }

  type Action<V> = GistTree.Action<Range<V>, V>

  ghost function Reached<V(!new)>(info: TypeInfo<V>, none: Range<V>, t: Index<V>, actions: seq<Action<V>>): Index<V> {
    GistTree.Run(t, actions, LeafKey<V>, UnionOf(info, none), SplitRule(info))
  }

  // Trees built by unions and then changed by any run of insertions, deletions and splits.
  lemma ReachableIsSound<V(!new)>(info: TypeInfo<V>, none: Range<V>, t: Index<V>, actions: seq<Action<V>>)
    requires info.Valid() && GistTree.Built(t, LeafKey<V>, UnionOf(info, none))
    ensures GistTree.Sound(Reached(info, none, t, actions),
                           (k, x) => Covers(info, k, x), k => true)
  {
    UnionKeepsCovers(info, none);
    SplitKeepsCovers(info);
    GistTree.BuiltIsSound(t, (k, x) => Covers(info, k, x), k => true, LeafKey<V>, UnionOf(info, none));
    GistTree.RunKeepsSound(t, actions, (k, x) => Covers(info, k, x), k => true, LeafKey<V>, UnionOf(info, none), SplitRule(info));
  }

  lemma SearchFindsExactly<V(!new)>(
    info: TypeInfo<V>, none: Range<V>, t: Index<V>, actions: seq<Action<V>>, s: Strategy, q: V)
    requires info.Valid() && GistTree.Built(t, LeafKey<V>, UnionOf(info, none))
    ensures var u := Reached(info, none, t, actions);
            GistTree.Search(u, x => Consistent(info, LeafKey(x), q, s, true), k => Consistent(info, k, q, s, false)) ==
            GistTree.Filter(GistTree.Items(u), x => Satisfies(info.cmp, x, s, q))
  {
    var covers := (k, x) => Covers(info, k, x);
    var ok := (k: Range<V>) => true;
    var leaf := x => Consistent(info, LeafKey(x), q, s, true);
    var node := k => Consistent(info, k, q, s, false);
    forall x
      ensures leaf(x) == Satisfies(info.cmp, x, s, q)
    {
      LeafTestIsOperator(info, x, s, q);
    }
    assert GistTree.NoFalsePruning(covers, ok, leaf, node) by {
      forall k, x | ok(k) && covers(k, x) && leaf(x)
        ensures node(k)
      {
        InnerTestAccepts(info, k, x, s, q);
      }
    }
    ReachableIsSound(info, none, t, actions);
    var u := Reached(info, none, t, actions);
    GistTree.SearchIsFilter(u, covers, ok, leaf, node);
    GistTree.FilterSame(GistTree.Items(u), leaf, x => Satisfies(info.cmp, x, s, q));
  }

  /* Distance */

  // f_dist grows as its second argument moves away from the first, on either side.
  ghost predicate Compatible<V(!new)>(info: TypeInfo<V>, dist: (V, V) -> real) {
    && (forall q, a :: dist(q, a) >= 0.0)
    && (forall q, a, b :: info.Leq(q, a) && info.Leq(a, b) ==> dist(q, a) <= dist(q, b))
    && (forall q, a, b :: info.Leq(a, b) && info.Leq(b, q) ==> dist(q, b) <= dist(q, a))
  }

  datatype Result = Value(d: real) | NotSupported

  datatype DistFn<!V> = NoDist | Dist(f: (V, V) -> real)

  function Distance<V(!new)>(info: TypeInfo<V>, dist: DistFn<V>, k: Range<V>, q: V): Result {
    match dist
    case NoDist => NotSupported
    case Dist(f) =>
      if info.cmp(q, k.lower) <= 0 then Value(f(q, k.lower))
      else if info.cmp(q, k.upper) >= 0 then Value(f(q, k.upper))
      else Value(0.0)
  }

  lemma KeyDistanceIsLowerBound<V(!new)>(info: TypeInfo<V>, f: (V, V) -> real, k: Range<V>, q: V, x: V)
    requires info.Valid() && Compatible(info, f) && Covers(info, k, x)
    ensures Distance(info, Dist(f), k, q).d <= Distance(info, Dist(f), LeafKey(x), q).d
    ensures Distance(info, Dist(f), LeafKey(x), q).d == f(q, x)
  {
    assert info.cmp(q, x) < 0 <==> info.cmp(x, q) > 0;
    assert info.cmp(x, q) < 0 <==> info.cmp(q, x) > 0;
    assert info.cmp(k.upper, q) < 0 <==> info.cmp(q, k.upper) > 0;
    assert info.cmp(q, k.upper) < 0 <==> info.cmp(k.upper, q) > 0;
    if info.Leq(q, k.lower) {
      assert info.Leq(q, x);
    } else if info.Leq(k.upper, q) {
      assert info.Leq(x, q);
    }
  }

  // No less than that: a key's distance is that of a value between its ends, and zero if the query lies strictly
  // between them.
  lemma KeyDistanceIsAttained<V(!new)>(info: TypeInfo<V>, f: (V, V) -> real, k: Range<V>, q: V)
    requires info.Valid() && info.Leq(k.lower, k.upper)
    ensures if info.cmp(k.lower, q) < 0 && info.cmp(q, k.upper) < 0 then Distance(info, Dist(f), k, q) == Value(0.0)
            else exists x :: Covers(info, k, x) && Distance(info, Dist(f), k, q) == Value(f(q, x))
  {
    assert info.Leq(k.lower, k.lower) && info.Leq(k.upper, k.upper);
    assert Covers(info, k, k.lower) && Covers(info, k, k.upper);
    EndsCompare(info, k.lower, q);
    EndsCompare(info, k.upper, q);
  }

  // An ordered scan by key distance reports the items of any reachable tree by increasing f_dist.
  lemma NearestFirst<V(!new)>(
    info: TypeInfo<V>, none: Range<V>, f: (V, V) -> real, t: Index<V>, actions: seq<Action<V>>, q: V,
    choices: seq<nat>)
    requires info.Valid() && Compatible(info, f) && GistTree.Built(t, LeafKey<V>, UnionOf(info, none))
    requires Nearest.IsRun(Nearest.State([Nearest.Subtree(Reached(info, none, t, actions))], []),
                           choices, k => Distance(info, Dist(f), k, q).d, x => f(q, x))
    ensures var u := Reached(info, none, t, actions);
            var end := Nearest.After(Nearest.State([Nearest.Subtree(u)], []), choices);
            && (forall i, j | 0 <= i < j < |end.out| :: f(q, end.out[i]) <= f(q, end.out[j]))
            && (end.queue == [] ==> multiset(end.out) == multiset(GistTree.Items(u)))
            && |choices| <= Nearest.Weight(u)
            && (Nearest.IsMaximal(Nearest.State([Nearest.Subtree(u)], []), choices, k => Distance(info, Dist(f), k, q).d, x => f(q, x))
                ==> multiset(end.out) == multiset(GistTree.Items(u)))
  {
    ReachableIsSound(info, none, t, actions);
    var u := Reached(info, none, t, actions);
    var node := k => Distance(info, Dist(f), k, q).d;
    var leaf := x => f(q, x);
    forall k, x | Covers(info, k, x)
      ensures node(k) <= leaf(x)
    {
      KeyDistanceIsLowerBound(info, f, k, q, x);
    }
    Nearest.ReportsInOrder(u, choices, (k, x) => Covers(info, k, x), (k: Range<V>) => true, node, leaf);
    Nearest.MaximalRunsReportAll(u, choices, (k, x) => Covers(info, k, x), (k: Range<V>) => true, node, leaf);
  }

  /* Split */

  datatype Split<V> = Split(left: seq<nat>, right: seq<nat>, leftKey: Range<V>, rightKey: Range<V>)

  // The loop over the sorted entries: the first half left, the rest right.
  method Distribute<V(!new)>(info: TypeInfo<V>, none: Range<V>, vector: seq<Range<V>>, order: seq<nat>)
    returns (left: seq<nat>, right: seq<nat>, ldatum: Range<V>, rdatum: Range<V>)
    requires |vector| >= 3 && |order| == |vector| - 1 && Within(order, |vector|)
    ensures left == order[..|order| / 2] && right == order[|order| / 2..]
    ensures ldatum == HullAt(info.cmp, none, vector, left) && rdatum == HullAt(info.cmp, none, vector, right)
  {
    var maxoff := |vector| - 1;
    var splLeft, splRight := new nat[maxoff + 2], new nat[maxoff + 2];
    var nleft, nright := 0, 0;
    ldatum, rdatum := none, none;
    assert HullAt(info.cmp, none, vector, []) == none && Within([], |vector|);
    hide HullAt, Placed, Within;
    NothingPlaced(order, splLeft[..], splRight[..]);
    ghost var lside, rside := [], [];
    var i := 1;
    while i <= maxoff
      invariant 1 <= i <= maxoff + 1 && nleft + nright == i - 1
      invariant lside == order[..nleft] && rside == order[nleft..i - 1]
      invariant Placed(order, i, nleft, nright, splLeft[..], splRight[..])
      invariant Within(lside, |vector|) && ldatum == HullAt(info.cmp, none, vector, lside)
      invariant Within(rside, |vector|) && rdatum == HullAt(info.cmp, none, vector, rside)
    {
      var o := OffsetAt(order, |vector|, i);
      if i <= maxoff / 2 {
        HullGrows(info.cmp, none, vector, lside, o);
        ldatum := if nleft == 0 then vector[o] else Widen(info.cmp, ldatum, vector[o]);
        lside := lside + [o];
        PlaceLeft(order, i, nleft, nright, splLeft, splRight);
        nleft := nleft + 1;
      } else {
        HullGrows(info.cmp, none, vector, rside, o);
        rdatum := if nright == 0 then vector[o] else Widen(info.cmp, rdatum, vector[o]);
        rside := rside + [o];
        PlaceRight(order, i, nleft, nright, splLeft, splRight);
        nright := nright + 1;
      }
      i := i + 1;
    }
    AllPlaced(order, nleft, nright, splLeft[..], splRight[..]);
    left, right := splLeft[..][..nleft], splRight[..][..nright];
  }

  function OffsetAt(order: seq<nat>, n: nat, i: nat): (o: nat)
    requires Within(order, n) && 1 <= i <= |order|
    ensures o == order[i - 1] && o < n
  {
    order[i - 1]
  }

  method PickSplit<V(!new)>(info: TypeInfo<V>, vector: seq<Range<V>>, order: seq<nat>) returns (v: Split<V>)
    requires |vector| >= 3 && SortedOffsets(vector, order, SortCmp(info.cmp))
    ensures v.left == order[..|order| / 2] && v.right == order[|order| / 2..]
    ensures v.left != [] && Within(v.left, |vector|) && v.leftKey == Hull(info.cmp, KeysAt(vector, v.left))
    ensures v.right != [] && Within(v.right, |vector|) && v.rightKey == Hull(info.cmp, KeysAt(vector, v.right))
  {
    hide Hull;
    var left, right, ldatum, rdatum := Distribute(info, vector[0], vector, order);
    v := Split(left, right, ldatum, rdatum);
  }

  // The result of picksplit on the entries of a node is a split of that node.
  lemma PickSplitFits<V(!new)>(info: TypeInfo<V>, t: Index<V>, vector: seq<Range<V>>, order: seq<nat>)
    requires |vector| >= 3 && SortedOffsets(vector, order, SortCmp(info.cmp))
    requires GistTree.EntryKeys(t, LeafKey<V>) == vector[1..]
    ensures var left, right := order[..|order| / 2], order[|order| / 2..];
            && left != [] && right != [] && Within(left, |vector|) && Within(right, |vector|)
            && GistTree.CanSplit(t, [], MarksOf(left, |vector| - 1), Hull(info.cmp, KeysAt(vector, left)),
                                 Hull(info.cmp, KeysAt(vector, right)), LeafKey<V>, SplitRule(info))
  {
    var left, right := order[..|order| / 2], order[|order| / 2..];
    HalvesPartition(vector, order, SortCmp(info.cmp), left, right);
    HalvesAreSides(vector, order, SortCmp(info.cmp));
    var l, r := KeysAt(vector, left), KeysAt(vector, right);
    HullIsSplitKey(info, l);
    HullIsSplitKey(info, r);
    RuleLooksAtMembers(info);
    hide Hull, SplitKey;
    OffsetsFit(t, vector, left, right, Hull(info.cmp, l), Hull(info.cmp, r), LeafKey<V>, SplitRule(info));
  }

  lemma HullIsSplitKey<V(!new)>(info: TypeInfo<V>, ks: seq<Range<V>>)
    requires ks != []
    ensures SplitKey(info, Hull(info.cmp, ks), ks)
  {
    assert SameMembers(ks, ks);
  }

  lemma RuleLooksAtMembers<V(!new)>(info: TypeInfo<V>)
    ensures LooksAtMembers(SplitRule(info))
  {
    forall k, a: seq<Range<V>>, c: seq<Range<V>> | SplitKey(info, k, a) && SameMembers(a, c)
      ensures SplitKey(info, k, c)
    {
      var a' :| SameMembers(a', a) && a' != [] && k == Hull(info.cmp, a');
      assert SameMembers(a', c);
    }
  }
}
