/**
  The GiST operator class for boxes: which searches of a tree of bounding boxes
  are exact.
 */
module CubeIndex {
  import opened Wrappers
  import opened Halving
  import opened SplitOffsets
  import opened Cube
  import opened CubeSplit
  import GistTree

  datatype Strategy = Overlaps | Same | ContainsQuery | ContainedByQuery | Other

  predicate LeafConsistent(key: NDBox, q: NDBox, s: Strategy) {
    match s
    case Overlaps => Overlap(key, q)
    case Same => Cmp(key, q) == 0
    case ContainsQuery => Contains(key, q)
    case ContainedByQuery => Contains(q, key)
    case Other => false
  }

  predicate InternalConsistent(key: NDBox, q: NDBox, s: Strategy) {
    match s
    case Overlaps => Overlap(key, q)
    case Same => Contains(key, q)
    case ContainsQuery => Contains(key, q)
    case ContainedByQuery => Overlap(key, q)
    case Other => false
  }

  // A single entry is joined with itself: the GiST core never passes fewer than two.
  function UnionAll(es: seq<NDBox>): NDBox {
    if es == [] then Box(0, [])
    else if |es| == 1 then UnionOf(es[0], es[0])
    else if |es| == 2 then UnionOf(es[0], es[1])
    else UnionOf(UnionAll(es[..|es| - 1]), es[|es| - 1])
  }

  lemma UnionGrows(vector: seq<NDBox>, i: nat)
    requires 1 <= i < |vector|
    ensures UnionAll(vector[..i + 1]) == UnionOf(if i == 1 then vector[0] else UnionAll(vector[..i]), vector[i])
  {
    hide UnionOf;
    assert vector[..i + 1][..i] == vector[..i];
  }

  // A single entry is not joined with anything: the source returns a null pointer.
  method GCubeUnion(vector: seq<NDBox>) returns (out: Option<NDBox>)
    requires vector != []
    ensures out == if |vector| == 1 then None else Some(UnionAll(vector))
  {
    hide UnionOf;
    var tmp := vector[0];
    out := None;
    var i := 1;
    while i < |vector|
      invariant 1 <= i <= |vector|
      invariant i == 1 ==> out == None && tmp == vector[0]
      invariant i > 1 ==> out == Some(tmp) && tmp == UnionAll(vector[..i])
    {
      UnionGrows(vector, i);
      tmp := CubeUnion(tmp, vector[i]);
      out := Some(tmp);
      i := i + 1;
    }
    assert vector[..i] == vector;
  }

  // u encloses x and has at least as many dimensions.
  ghost predicate Bounds(u: NDBox, x: NDBox) {
    Encloses(u, x) && x.dim <= u.dim
  }

  lemma UnionBounds(a: NDBox, b: NDBox)
    ensures Bounds(UnionOf(a, b), a) && Bounds(UnionOf(a, b), b)
  {
    UnionEncloses(a, b, a);
  }

  lemma BoundsTransitive(a: NDBox, b: NDBox, c: NDBox)
    requires Bounds(a, b) && Bounds(b, c)
    ensures Bounds(a, c)
  {
    EnclosesTransitive(a, b, c);
  }

  lemma {:induction false} UnionAllBounds(es: seq<NDBox>, i: nat)
    requires i < |es|
    ensures Bounds(UnionAll(es), es[i])
    decreases |es|
  {
    hide UnionOf, Bounds;
    if |es| <= 2 {
      UnionBounds(es[0], es[|es| - 1]);
    } else {
      var last := |es| - 1;
      UnionBounds(UnionAll(es[..last]), es[last]);
      if i < last {
        UnionAllBounds(es[..last], i);
        BoundsTransitive(UnionAll(es), UnionAll(es[..last]), es[i]);
      }
    }
  }

  // And no more than that: whatever encloses all entries encloses the union.
  lemma {:induction false} UnionAllIsLeast(es: seq<NDBox>, c: NDBox)
    requires es != [] && forall e | e in es :: Encloses(c, e)
    ensures Encloses(c, UnionAll(es))
    ensures exists e | e in es :: UnionAll(es).dim == e.dim
    decreases |es|
  {
    hide Encloses, UnionOf;
    if |es| <= 2 {
      UnionEncloses(es[0], es[|es| - 1], c);
      UnionDim(es[0], es[|es| - 1]);
      assert es[0] in es && es[|es| - 1] in es;
    } else {
      var last := |es| - 1;
      UnionAllIsLeast(es[..last], c);
      UnionEncloses(UnionAll(es[..last]), es[last], c);
      UnionDim(UnionAll(es[..last]), es[last]);
      assert es[last] in es;
      var e :| e in es[..last] && UnionAll(es[..last]).dim == e.dim;
      assert e in es;
    }
  }

  lemma UnionDim(a: NDBox, b: NDBox)
    ensures UnionOf(a, b).dim == a.dim || UnionOf(a, b).dim == b.dim
  {
  }

  lemma UnionKeepsBounds()
    ensures GistTree.UnionKeeps((k, x) => Bounds(k, x), (k: NDBox) => true, (x: NDBox) => x, UnionAll)
  {
    forall es: seq<NDBox>, k, x {:trigger Bounds(k, x), UnionAll(es)} | k in es && Bounds(k, x)
      ensures Bounds(UnionAll(es), x)
    {
      var i :| 0 <= i < |es| && es[i] == k;
      UnionAllBounds(es, i);
      BoundsTransitive(UnionAll(es), k, x);
    }
  }

  lemma OverlapGrows(u: NDBox, x: NDBox, q: NDBox)
    requires Encloses(u, x) && Overlap(x, q)
    ensures Overlap(u, q)
  {
    OverlapByAxis(x, q);
    OverlapByAxis(u, q);
    forall i: nat
      ensures Meets(u, q, i)
    {
      assert Meets(x, q, i);
      assert Lo(u, i) <= Lo(x, i) && Hi(x, i) <= Hi(u, i);
    }
  }

  lemma ContainsGrows(u: NDBox, x: NDBox, q: NDBox)
    requires Encloses(u, x) && Contains(x, q)
    ensures Contains(u, q)
  {
    ContainsByAxis(x, q);
    ContainsByAxis(u, q);
    forall i: nat | i < q.dim
      ensures Lo(u, i) <= Lo(q, i) && Hi(q, i) <= Hi(u, i)
    {
      assert Lo(u, i) <= Lo(x, i) && Hi(x, i) <= Hi(u, i);
      assert Lo(x, i) <= Lo(q, i) && Hi(q, i) <= Hi(x, i);
    }
  }

  // On the axes from `from` on, zero lies within q.
  predicate ZeroFrom(q: NDBox, from: nat) {
    forall i | from <= i < q.dim :: Lo(q, i) <= 0.0 <= Hi(q, i)
  }

  // "Contained by q" is tested further up as "overlaps q": right exactly if q spans zero wherever x has no axis.
  lemma ContainedMeansOverlap(x: NDBox, q: NDBox)
    requires Contains(q, x)
    ensures Overlap(x, q) <==> ZeroFrom(q, x.dim)
  {
    ContainsByAxis(q, x);
    OverlapByAxis(x, q);
    forall i: nat
      ensures Meets(x, q, i) <==> (x.dim <= i < q.dim ==> Lo(q, i) <= 0.0 <= Hi(q, i))
    {
      LoIsBelowHi(x, i);
      if i < x.dim {
        assert Lo(q, i) <= Lo(x, i) && Hi(x, i) <= Hi(q, i);
      }
    }
    if !ZeroFrom(q, x.dim) {
      var i :| x.dim <= i < q.dim && !(Lo(q, i) <= 0.0 <= Hi(q, i));
      assert !Meets(x, q, i);
    }
  }

  lemma InternalAccepts(u: NDBox, x: NDBox, q: NDBox, s: Strategy)
    requires Encloses(u, x) && LeafConsistent(x, q, s)
    requires s.ContainedByQuery? ==> ZeroFrom(q, x.dim)
    ensures InternalConsistent(u, q, s)
  {
    match s
    case Overlaps => OverlapGrows(u, x, q);
    case Same =>
      CmpZero(x, q);
      ContainsGrows(u, x, q);
    case ContainsQuery => ContainsGrows(u, x, q);
    case ContainedByQuery =>
      ContainedMeansOverlap(x, q);
      OverlapGrows(u, x, q);
    case Other =>
  }

  // What the operators mean for points.
  lemma LeafTestMeans(x: NDBox, q: NDBox)
    ensures LeafConsistent(x, q, Overlaps) <==> exists p: Point :: In(p, x) && In(p, q)
    ensures LeafConsistent(x, q, Same) <==> x.dim == q.dim && forall p: Point :: In(p, x) <==> In(p, q)
    ensures ZeroFrom(x, q.dim) ==> (LeafConsistent(x, q, ContainsQuery) <==> forall p: Point | In(p, q) :: In(p, x))
    ensures ZeroFrom(q, x.dim) ==> (LeafConsistent(x, q, ContainedByQuery) <==> forall p: Point | In(p, x) :: In(p, q))
  {
    OverlapIsSharedPoint(x, q);
    ContainsIsEnclosing(x, q);
    ContainsIsEnclosing(q, x);
    EnclosesIsSubset(x, q);
    EnclosesIsSubset(q, x);
    CmpZero(x, q);
    SameExtents(x, q);
  }

  lemma ContainsIsEnclosing(a: NDBox, b: NDBox)
    ensures Encloses(a, b) <==> Contains(a, b) && ZeroFrom(a, b.dim)
  {
    ContainsIsSubset(a, b);
  }

  lemma SameExtents(a: NDBox, b: NDBox)
    ensures a.dim == b.dim && (forall i | 0 <= i < a.dim :: Lo(a, i) == Lo(b, i) && Hi(a, i) == Hi(b, i))
            <==> a.dim == b.dim && Encloses(a, b) && Encloses(b, a)
  {
  }

  // Some item that u may stand for matches the query.
  ghost predicate CanHold(u: NDBox, q: NDBox, s: Strategy) {
    exists x: NDBox :: Bounds(u, x) && LeafConsistent(x, q, s)
  }

  // The internal test is no weaker than it has to be: it accepts a key for overlap and containment of the query exactly if
  // some item below the key could match; for equality it also accepts keys of other dimensions, or that leave out
  // zero where the query has no axis; and for "contained by" it accepts only keys below which some item could match.
  lemma InternalTestExactlyWhen(u: NDBox, q: NDBox)
    ensures InternalConsistent(u, q, Overlaps) <==> CanHold(u, q, Overlaps)
    ensures InternalConsistent(u, q, ContainsQuery) <==> CanHold(u, q, ContainsQuery)
    ensures InternalConsistent(u, q, Same) && q.dim <= u.dim && ZeroFrom(u, q.dim) <==> CanHold(u, q, Same)
    ensures InternalConsistent(u, q, ContainedByQuery) ==> CanHold(u, q, ContainedByQuery)
  {
    assert Bounds(u, u);
    forall x: NDBox, s: Strategy | Bounds(u, x) && LeafConsistent(x, q, s) && s != ContainedByQuery
      ensures InternalConsistent(u, q, s)
    {
      InternalAccepts(u, x, q, s);
    }
    EqualityExactlyWhen(u, q);
    if Overlap(u, q) {
      PointOfBoth(u, q);
    }
  }

  lemma EqualityExactlyWhen(u: NDBox, q: NDBox)
    ensures Contains(u, q) && q.dim <= u.dim && ZeroFrom(u, q.dim) <==> CanHold(u, q, Same)
  {
    ContainsIsEnclosing(u, q);
    CmpZero(q, q);
    if Contains(u, q) && q.dim <= u.dim && ZeroFrom(u, q.dim) {
      assert Bounds(u, q) && LeafConsistent(q, q, Same);
    }
    if x: NDBox :| Bounds(u, x) && LeafConsistent(x, q, Same) {
      CmpZero(x, q);
      SameExtents(x, q);
      EnclosesTransitive(u, x, q);
    }
  }

  // A point of u that the query contains.
  lemma PointOfBoth(u: NDBox, q: NDBox)
    requires Overlap(u, q)
    ensures CanHold(u, q, ContainedByQuery)
  {
    OverlapByAxis(u, q);
    var c := seq(u.dim, i requires 0 <= i < u.dim => Max(Lo(u, i), Lo(q, i)));
    var x: NDBox := Box(u.dim, c + c);
    forall i: nat
      ensures Lo(u, i) <= Lo(x, i) && Hi(x, i) <= Hi(u, i)
      ensures i < u.dim ==> Lo(q, i) <= Lo(x, i) && Hi(x, i) <= Hi(q, i)
    {
      assert Meets(u, q, i);
      LoIsBelowHi(u, i);
      LoIsBelowHi(q, i);
    }
    ContainsByAxis(q, x);
    assert Bounds(u, x) && LeafConsistent(x, q, ContainedByQuery);
  }

  type Index = GistTree.Tree<NDBox, NDBox>

  ghost predicate BuiltByUnion(t: Index) {
    GistTree.Built(t, (x: NDBox) => x, UnionAll)
  }

  type Action = GistTree.Action<NDBox, NDBox>

  // Any box that bounds the entries of a side may be its key; g_cube_picksplit returns the tightest one.
  ghost function SplitRule(): GistTree.SplitRule<NDBox> {
    GistTree.SplitRule((k, ks, js) => forall e | e in ks :: Bounds(k, e), true)
  }

  lemma SplitKeepsBounds()
    ensures GistTree.SplitKeeps((k, x) => Bounds(k, x), (k: NDBox) => true, (x: NDBox) => x, SplitRule())
  {
    var rule, id := SplitRule(), (x: NDBox) => x;
    forall k, xs: seq<NDBox>, ys: seq<NDBox>, x | rule.key(k, GistTree.Keys(xs, id), GistTree.Keys(ys, id)) && x in xs
      ensures Bounds(k, x)
    {
      var i :| 0 <= i < |xs| && xs[i] == x;
      assert GistTree.Keys(xs, id)[i] == x;
    }
    forall k, ks: seq<NDBox>, js: seq<NDBox>, e, x | rule.key(k, ks, js) && e in ks && Bounds(e, x)
      ensures Bounds(k, x)
    {
      BoundsTransitive(k, e, x);
    }
  }

  ghost function Reached(t: Index, actions: seq<Action>): Index {
    GistTree.Run(t, actions, (x: NDBox) => x, UnionAll, SplitRule())
  }

  ghost predicate SearchIsExact(t: Index, q: NDBox, s: Strategy) {
    GistTree.Search(t, x => LeafConsistent(x, q, s), k => InternalConsistent(k, q, s)) ==
    GistTree.Filter(GistTree.Items(t), x => LeafConsistent(x, q, s))
  }

  // Every tree built by unions and changed by any run of insertions, deletions and splits, in any mix of
  // dimensions: exact for overlap, equality and containment of the query, and for "contained by"
  // if the query spans zero beyond the fewest dimensions any item has.
  lemma SearchFindsExactly(t: Index, actions: seq<Action>, q: NDBox, s: Strategy, fewest: nat)
    requires BuiltByUnion(t)
    requires s.ContainedByQuery? ==> ZeroFrom(q, fewest)
    requires s.ContainedByQuery? ==> forall x | x in GistTree.Items(Reached(t, actions)) :: x.dim >= fewest
    ensures SearchIsExact(Reached(t, actions), q, s)
  {
    var covers := (k, x) => Bounds(k, x);
    var ok := (k: NDBox) => true;
    UnionKeepsBounds();
    GistTree.BuiltIsSound(t, covers, ok, (x: NDBox) => x, UnionAll);
    SplitKeepsBounds();
    GistTree.RunKeepsSound(t, actions, covers, ok, (x: NDBox) => x, UnionAll, SplitRule());
    SoundIsExact(Reached(t, actions), q, s, fewest);
  }

  lemma SoundIsExact(u: Index, q: NDBox, s: Strategy, fewest: nat)
    requires GistTree.Sound(u, (k, x) => Bounds(k, x), (k: NDBox) => true)
    requires s.ContainedByQuery? ==> ZeroFrom(q, fewest)
    requires s.ContainedByQuery? ==> forall x | x in GistTree.Items(u) :: x.dim >= fewest
    ensures SearchIsExact(u, q, s)
  {
    var covers := (k, x) => Bounds(k, x) && (s.ContainedByQuery? ==> x.dim >= fewest);
    var ok := (k: NDBox) => true;
    var leaf := x => LeafConsistent(x, q, s);
    var node := k => InternalConsistent(k, q, s);
    forall k, x | covers(k, x) && leaf(x)
      ensures node(k)
    {
      InternalAccepts(k, x, q, s);
    }
    GistTree.SoundStrengthens(u, (k, x) => Bounds(k, x), covers, ok,
                              (x: NDBox) => s.ContainedByQuery? ==> x.dim >= fewest);
    GistTree.SearchIsFilter(u, covers, ok, leaf, node);
  }

  // A point box of d dimensions inside q.
  function PointIn(q: NDBox, d: nat): (x: NDBox)
    ensures x.dim == d && forall i: nat | i < d :: Lo(x, i) == Hi(x, i) == Lo(q, i)
  {
    var c := seq(d, i requires 0 <= i < d => Lo(q, i));
    Box(d, c + c)
  }

  // The exact condition for "contained by": it fails on a two-level tree for every other query.
  lemma ContainedByExactlyWhen(q: NDBox, d: nat)
    ensures (forall t: Index | BuiltByUnion(t) && (forall x | x in GistTree.Items(t) :: x.dim >= d) ::
               SearchIsExact(t, q, ContainedByQuery)) <==> ZeroFrom(q, d)
  {
    if ZeroFrom(q, d) {
      forall t: Index | BuiltByUnion(t) && (forall x | x in GistTree.Items(t) :: x.dim >= d)
        ensures SearchIsExact(t, q, ContainedByQuery)
      {
        SearchFindsExactly(t, [], q, ContainedByQuery, d);
      }
    } else {
      var t := MissingItem(q, d);
    }
  }

  // A d-dimensional point inside q and its bounding box, which does not overlap q.
  lemma LonelyPoint(q: NDBox, d: nat) returns (x: NDBox)
    requires !ZeroFrom(q, d)
    ensures x.dim == d && Contains(q, x) && !Overlap(UnionOf(x, x), q)
  {
    x := PointIn(q, d);
    ContainsByAxis(q, x);
    forall i: nat | i < d
      ensures Lo(q, i) <= Lo(x, i) && Hi(x, i) <= Hi(q, i)
    {
      LoIsBelowHi(q, i);
    }
    assert Contains(q, x);
    var u := UnionOf(x, x);
    forall i: nat
      ensures Lo(u, i) == Lo(x, i) && Hi(u, i) == Hi(x, i)
    {
      UnionEnds(x, x, i);
    }
    ContainsByAxis(q, u);
    ContainedMeansOverlap(u, q);
  }

  // Two pages that each hold that point.
  lemma MissingItem(q: NDBox, d: nat) returns (t: Index)
    requires !ZeroFrom(q, d)
    ensures BuiltByUnion(t) && t.Inner? && |t.kids| == 2
    ensures forall x | x in GistTree.Items(t) :: x.dim >= d
    ensures !SearchIsExact(t, q, ContainedByQuery)
  {
    var x := LonelyPoint(q, d);
    var u := UnionOf(x, x);
    var page := GistTree.Page(u, [x]);
    t := GistTree.Inner(UnionAll([u, u]), [page, page]);
    assert GistTree.EntryKeys(page, (b: NDBox) => b) == [x];
    assert GistTree.EntryKeys(t, (b: NDBox) => b) == [u, u];
    TwinPages(t, page, x);
    var leaf := b => LeafConsistent(b, q, ContainedByQuery);
    var node := k => InternalConsistent(k, q, ContainedByQuery);
    assert !node(u) && leaf(x);
    assert page in t.kids;
    assert x in GistTree.Filter(GistTree.Items(page), leaf);
    GistTree.SearchIsFilterExactlyWhen(t, leaf, node);
  }

  lemma TwinPages(t: Index, page: Index, x: NDBox)
    requires t.Inner? && t.kids == [page, page] && page.Page? && page.items == [x]
    ensures GistTree.Items(t) == [x, x]
  {
    assert [page, page][1..] == [page] && [page][1..] == [];
    assert GistTree.ItemsBelow([page][1..]) == [];
    assert GistTree.ItemsBelow([page]) == [x];
  }

  // The result of picksplit on the entries of a node is a split of that node.
  lemma PickSplitFits(t: Index, vector: seq<NDBox>, v: Sides)
    requires |vector| >= 3 && GistTree.EntryKeys(t, (x: NDBox) => x) == vector[1..]
    requires Partition(v.left, v.right, |vector| - 1) && v.left != [] && v.right != []
    requires Tightest(v.l, vector, Offsets(v.left)) && Tightest(v.r, vector, Offsets(v.right))
    ensures GistTree.CanSplit(t, [], MarksOf(v.left, |vector| - 1), v.l, v.r, (x: NDBox) => x, SplitRule())
  {
    assert Within(v.left, |vector|) && Within(v.right, |vector|) && SplitOffsets.Sides(v.left, v.right, |vector| - 1);
    TightestBounds(v.l, vector, v.left);
    TightestBounds(v.r, vector, v.right);
    RuleLooksAtMembers();
    hide Tightest, Bounds, Partition, Within, SplitOffsets.Sides;
    OffsetsFit(t, vector, v.left, v.right, v.l, v.r, (x: NDBox) => x, SplitRule());
  }

  lemma TightestBounds(u: NDBox, vector: seq<NDBox>, side: seq<nat>)
    requires Tightest(u, vector, Offsets(side)) && Within(side, |vector|)
    ensures forall e | e in KeysAt(vector, side) :: Bounds(u, e)
  {
    forall e | e in KeysAt(vector, side)
      ensures Bounds(u, e)
    {
      var i :| 0 <= i < |side| && KeysAt(vector, side)[i] == e;
      assert side[i] in Offsets(side);
    }
  }

  lemma RuleLooksAtMembers()
    ensures LooksAtMembers(SplitRule())
  {
  }
}
