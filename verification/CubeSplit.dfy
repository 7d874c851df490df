/**
  g_cube_picksplit: Guttman's quadratic split. The pair of entries that wastes
  most space seeds the two sides; every other entry joins the side that grows
  least.
 */
module CubeSplit {
  import opened Cube
  import opened CubeVolume

  /* Seeds */

  function Waste(vector: seq<NDBox>, i: nat, j: nat): real
    requires i < |vector| && j < |vector|
  {
    Volume(UnionOf(vector[i], vector[j])) - Volume(InterOf(vector[i], vector[j]))
  }

  // Pairs in the order in which the two nested loops visit them.
  predicate Before(i: nat, j: nat, k: nat, l: nat) {
    i < k || (i == k && j < l)
  }

  // (s1, s2) is the first pair with the greatest waste among the pairs visited before (i, j).
  ghost predicate BestSeeds(vector: seq<NDBox>, s1: nat, s2: nat, maxoff: nat, i: nat, j: nat)
    requires maxoff < |vector|
  {
    && 1 <= s1 < s2 <= maxoff && Before(s1, s2, i, j)
    && (forall k: nat, l: nat | 1 <= k < l <= maxoff && Before(k, l, i, j) ::
          Waste(vector, k, l) <= Waste(vector, s1, s2))
    && (forall k: nat, l: nat | 1 <= k < l <= maxoff && Before(k, l, s1, s2) ::
          Waste(vector, k, l) < Waste(vector, s1, s2))
  }

  method WasteOf(vector: seq<NDBox>, i: nat, j: nat) returns (w: real)
    requires i < |vector| && j < |vector|
    ensures w == Waste(vector, i, j)
  {
    var union := CubeUnion(vector[i], vector[j]);
    var sizeUnion := CubeSize(union);
    var inter := CubeInter(vector[i], vector[j]);
    var sizeInter := CubeSize(inter);
    w := sizeUnion - sizeInter;
  }

  // The last entry of the vector is not a candidate. With a single candidate the defaults stand.
  method PickSeeds(vector: seq<NDBox>) returns (s1: nat, s2: nat)
    requires |vector| >= 3
    ensures |vector| == 3 ==> s1 == 1 && s2 == 2
    ensures |vector| > 3 ==> BestSeeds(vector, s1, s2, |vector| - 2, |vector|, 0)
  {
    hide Waste;
    var maxoff := |vector| - 2;
    var firsttime, waste := true, 0.0;
    s1, s2 := 1, 2;
    var i := 1;
    while i < maxoff
      invariant 1 <= i <= maxoff
      invariant firsttime <==> i == 1
      invariant i == 1 ==> s1 == 1 && s2 == 2
      invariant i > 1 ==> BestSeeds(vector, s1, s2, maxoff, i, i + 1) && waste == Waste(vector, s1, s2)
    {
      var j := i + 1;
      while j <= maxoff
        invariant i < j <= maxoff + 1
        invariant firsttime <==> i == 1 && j == 2
        invariant !firsttime ==> BestSeeds(vector, s1, s2, maxoff, i, j) && waste == Waste(vector, s1, s2)
      {
        var w := WasteOf(vector, i, j);
        if w > waste || firsttime {
          waste, s1, s2, firsttime := w, i, j, false;
        }
        j := j + 1;
      }
      i := i + 1;
    }
  }

  /* Distribution */

  datatype Sides = Sides(left: seq<nat>, right: seq<nat>, l: NDBox, r: NDBox)

  // A seed goes to its own side, any other entry where it enlarges the box less; right on a tie.
  function GoesLeft(vector: seq<NDBox>, s1: nat, s2: nat, i: nat, l: NDBox, r: NDBox): bool
    requires i < |vector|
  {
    i == s1 || (i != s2 && Volume(UnionOf(l, vector[i])) - Volume(l) < Volume(UnionOf(r, vector[i])) - Volume(r))
  }

  // The box of a side that entry i joins; a seed's box is there already.
  function Joined(vector: seq<NDBox>, seed: nat, i: nat, b: NDBox): NDBox
    requires i < |vector|
  {
    if i == seed then b else UnionOf(b, vector[i])
  }

  function Place(vector: seq<NDBox>, s1: nat, s2: nat, i: nat, s: Sides): Sides
    requires i < |vector|
  {
    if GoesLeft(vector, s1, s2, i, s.l, s.r) then
      Sides(s.left + [i], s.right, Joined(vector, s1, i, s.l), s.r)
    else
      Sides(s.left, s.right + [i], s.l, Joined(vector, s2, i, s.r))
  }

  // The sides after entries 1 .. n.
  function Placed(vector: seq<NDBox>, s1: nat, s2: nat, n: nat): Sides
    requires n < |vector| && s1 < |vector| && s2 < |vector|
  {
    if n == 0 then Sides([], [], UnionOf(vector[s1], vector[s1]), UnionOf(vector[s2], vector[s2]))
    else Place(vector, s1, s2, n, Placed(vector, s1, s2, n - 1))
  }

  // The offsets among 1 .. n that are in order, on one side only and none missing.
  ghost predicate Ascending(s: seq<nat>, n: nat) {
    && (forall i | 0 <= i < |s| :: 1 <= s[i] <= n)
    && (forall i, j | 0 <= i < j < |s| :: s[i] < s[j])
  }

  ghost predicate Partition(left: seq<nat>, right: seq<nat>, n: nat) {
    && Ascending(left, n) && Ascending(right, n) && |left| + |right| == n
    && (forall o: nat | 1 <= o <= n :: (o in left) != (o in right))
  }

  lemma PartitionGrows(left: seq<nat>, right: seq<nat>, n: nat)
    requires n > 0 && Partition(left, right, n - 1)
    ensures Partition(left + [n], right, n) && Partition(left, right + [n], n)
  {
    assert n !in left && n !in right;
    forall o: nat | 1 <= o <= n
      ensures (o in left + [n]) != (o in right) && (o in left) != (o in right + [n])
    {
      assert o < n ==> (o in left) != (o in right);
    }
  }

  lemma EmptyPartition()
    ensures Partition([], [], 0)
  {
  }

  lemma SeedsGoHome(vector: seq<NDBox>, s1: nat, s2: nat, i: nat, l: NDBox, r: NDBox)
    requires i < |vector| && s1 != s2
    ensures i == s1 ==> GoesLeft(vector, s1, s2, i, l, r)
    ensures i == s2 ==> !GoesLeft(vector, s1, s2, i, l, r)
  {
  }

  lemma {:induction false} PlacedPartitions(vector: seq<NDBox>, s1: nat, s2: nat, n: nat)
    requires n < |vector| && 1 <= s1 < s2 < |vector|
    ensures var p := Placed(vector, s1, s2, n);
            && Partition(p.left, p.right, n)
            && (s1 <= n ==> s1 in p.left) && (s2 <= n ==> s2 in p.right)
  {
    hide Partition, UnionOf, Joined, GoesLeft;
    if n == 0 {
      EmptyPartition();
    } else {
      PlacedPartitions(vector, s1, s2, n - 1);
      var p := Placed(vector, s1, s2, n - 1);
      SeedsGoHome(vector, s1, s2, n, p.l, p.r);
      PartitionGrows(p.left, p.right, n);
    }
  }

  /* Bounding boxes */

  // u is the exact bounding box of the entries at the given offsets.
  ghost predicate Tightest(u: NDBox, vector: seq<NDBox>, offsets: set<nat>) {
    && (forall o | o in offsets :: o < |vector| && Encloses(u, vector[o]) && vector[o].dim <= u.dim)
    && (exists o | o in offsets :: o < |vector| && vector[o].dim == u.dim)
    && (forall c: NDBox | (forall o | o in offsets && o < |vector| :: Encloses(c, vector[o])) :: Encloses(c, u))
    && (forall i | 0 <= i < u.dim :: u.x[i] <= u.x[u.dim + i])
  }

  lemma UnionIsOrdered(a: NDBox, b: NDBox)
    ensures forall i | 0 <= i < UnionOf(a, b).dim :: UnionOf(a, b).x[i] <= UnionOf(a, b).x[UnionOf(a, b).dim + i]
  {
    var u := UnionOf(a, b);
    forall i | 0 <= i < u.dim
      ensures u.x[i] <= u.x[u.dim + i]
    {
      LoIsBelowHi(a, i);
    }
  }

  lemma TightestOfOne(vector: seq<NDBox>, o: nat)
    requires o < |vector|
    ensures Tightest(UnionOf(vector[o], vector[o]), vector, {o})
  {
    var b := vector[o];
    var u := UnionOf(b, b);
    UnionEncloses(b, b, b);
    UnionIsOrdered(b, b);
    forall c: NDBox | forall p | p in {o} && p < |vector| :: Encloses(c, vector[p])
      ensures Encloses(c, u)
    {
      assert o in {o};
      UnionEncloses(b, b, c);
    }
    assert o in {o} && vector[o].dim == u.dim;
  }

  lemma TightestGrows(u: NDBox, vector: seq<NDBox>, offsets: set<nat>, i: nat)
    requires Tightest(u, vector, offsets) && i < |vector|
    ensures Tightest(UnionOf(u, vector[i]), vector, offsets + {i})
  {
    hide Encloses, Lo, Hi;
    var b, w, all := vector[i], UnionOf(u, vector[i]), offsets + {i};
    UnionEncloses(u, b, b);
    UnionIsOrdered(u, b);
    forall o | o in all
      ensures o < |vector| && Encloses(w, vector[o]) && vector[o].dim <= w.dim
    {
      if o in offsets {
        EnclosesTransitive(w, u, vector[o]);
      }
    }
    var m :| m in offsets && m < |vector| && vector[m].dim == u.dim;
    assert m in all && i in all;
    assert vector[if u.dim >= b.dim then m else i].dim == w.dim;
    forall c: NDBox | forall o | o in all && o < |vector| :: Encloses(c, vector[o])
      ensures Encloses(c, w)
    {
      assert forall o | o in offsets && o < |vector| :: o in all;
      UnionEncloses(u, b, c);
    }
  }

  function Offsets(s: seq<nat>): set<nat> {
    set o | o in s
  }

  lemma JoinedIsTightest(vector: seq<NDBox>, seed: nat, side: seq<nat>, i: nat, b: NDBox)
    requires i < |vector| && Tightest(b, vector, Offsets(side) + {seed})
    ensures Tightest(Joined(vector, seed, i, b), vector, Offsets(side + [i]) + {seed})
  {
    hide Tightest, UnionOf;
    assert Offsets(side + [i]) + {seed} == Offsets(side) + {seed} + {i};
    if i == seed {
      assert Offsets(side) + {seed} + {i} == Offsets(side) + {seed};
    } else {
      TightestGrows(b, vector, Offsets(side) + {seed}, i);
    }
  }

  // Each side's box is the exact bounding box of its entries, its seed included from the start.
  lemma {:induction false} PlacedBoxesAreTightest(vector: seq<NDBox>, s1: nat, s2: nat, n: nat)
    requires n < |vector| && 1 <= s1 < s2 < |vector|
    ensures var p := Placed(vector, s1, s2, n);
            && Tightest(p.l, vector, Offsets(p.left) + {s1})
            && Tightest(p.r, vector, Offsets(p.right) + {s2})
  {
    hide Tightest, UnionOf, Volume, Joined, GoesLeft;
    if n == 0 {
      TightestOfOne(vector, s1);
      TightestOfOne(vector, s2);
      assert Offsets([]) + {s1} == {s1} && Offsets([]) + {s2} == {s2};
    } else {
      PlacedBoxesAreTightest(vector, s1, s2, n - 1);
      var p := Placed(vector, s1, s2, n - 1);
      JoinedIsTightest(vector, s1, p.left, n, p.l);
      JoinedIsTightest(vector, s2, p.right, n, p.r);
    }
  }

  /* Where an entry goes, said without the algorithm */

  lemma TightestIsUnique(u: NDBox, v: NDBox, vector: seq<NDBox>, offsets: set<nat>)
    requires Tightest(u, vector, offsets) && Tightest(v, vector, offsets)
    ensures u == v
  {
    assert Encloses(u, v) && Encloses(v, u);
    assert u.dim == v.dim;
    OrderedIsExtents(u, v);
  }

  lemma OrderedIsExtents(u: NDBox, v: NDBox)
    requires u.dim == v.dim && Encloses(u, v) && Encloses(v, u)
    requires forall i | 0 <= i < u.dim :: u.x[i] <= u.x[u.dim + i] && v.x[i] <= v.x[v.dim + i]
    ensures u == v
  {
    forall k | 0 <= k < |u.x|
      ensures u.x[k] == v.x[k]
    {
      var i: nat := if k < u.dim then k else k - u.dim;
      assert Lo(u, i) == Lo(v, i) && Hi(u, i) == Hi(v, i);
      assert u.x[i] <= u.x[u.dim + i] && v.x[i] <= v.x[v.dim + i];
    }
  }

  // The entries of a side that come before i.
  function EarlierOn(side: seq<nat>, i: nat): set<nat> {
    set o | o in side && o < i
  }

  // Entry i enlarges the bounding box of a side by the volume g.
  ghost predicate Enlarges(vector: seq<NDBox>, side: set<nat>, i: nat, g: real) {
    exists u: NDBox, u': NDBox :: Tightest(u, vector, side) && Tightest(u', vector, side + {i}) && g == Volume(u') - Volume(u)
  }

  // There is only one such volume.
  lemma EnlargesOnce(vector: seq<NDBox>, side: set<nat>, i: nat, g: real, h: real)
    requires Enlarges(vector, side, i, g) && Enlarges(vector, side, i, h)
    ensures g == h
  {
    hide Tightest, Volume;
    var u: NDBox, u': NDBox :| Tightest(u, vector, side) && Tightest(u', vector, side + {i}) && g == Volume(u') - Volume(u);
    var v: NDBox, v': NDBox :| Tightest(v, vector, side) && Tightest(v', vector, side + {i}) && h == Volume(v') - Volume(v);
    TightestIsUnique(u, v, vector, side);
    TightestIsUnique(u', v', vector, side + {i});
  }

  // Entry i is on the left exactly if that enlarged the bounding box of what was left before it, seed included, by less
  // volume than it would have enlarged the right one; on a tie it is on the right.
  ghost predicate WellChosen(vector: seq<NDBox>, left: seq<nat>, right: seq<nat>, s1: nat, s2: nat, i: nat) {
    exists g, h ::
      && Enlarges(vector, EarlierOn(left, i) + {s1}, i, g) && Enlarges(vector, EarlierOn(right, i) + {s2}, i, h)
      && (i in left <==> g < h)
  }

  // The sides only grow: what is before i was there when i was placed.
  lemma {:induction false} PlacedBefore(vector: seq<NDBox>, s1: nat, s2: nat, i: nat, n: nat)
    requires 0 < i <= n < |vector| && 1 <= s1 < s2 < |vector|
    ensures EarlierOn(Placed(vector, s1, s2, n).left, i) == Offsets(Placed(vector, s1, s2, i - 1).left)
    ensures EarlierOn(Placed(vector, s1, s2, n).right, i) == Offsets(Placed(vector, s1, s2, i - 1).right)
    ensures i in Placed(vector, s1, s2, n).left <==> i in Placed(vector, s1, s2, i).left
    decreases n
  {
    hide UnionOf, Joined, GoesLeft;
    if n == i {
      PlacedPartitions(vector, s1, s2, i - 1);
      EarlierIsAll(Placed(vector, s1, s2, i - 1).left, i);
      EarlierIsAll(Placed(vector, s1, s2, i - 1).right, i);
    } else {
      PlacedBefore(vector, s1, s2, i, n - 1);
    }
  }

  lemma EarlierIsAll(side: seq<nat>, i: nat)
    requires i > 0 && Ascending(side, i - 1)
    ensures EarlierOn(side, i) == EarlierOn(side + [i], i) == Offsets(side) && i !in side
  {
  }

  lemma EnlargedByUnion(vector: seq<NDBox>, side: set<nat>, i: nat, p: NDBox)
    requires i < |vector| && Tightest(p, vector, side)
    ensures Enlarges(vector, side, i, Volume(UnionOf(p, vector[i])) - Volume(p))
  {
    TightestGrows(p, vector, side, i);
    hide Tightest, UnionOf, Volume;
    assert Tightest(p, vector, side) && Tightest(UnionOf(p, vector[i]), vector, side + {i});
  }

  lemma ChosenFromBoxes(vector: seq<NDBox>, left: seq<nat>, right: seq<nat>, s1: nat, s2: nat, i: nat, p: NDBox, q: NDBox)
    requires i < |vector|
    requires Tightest(p, vector, EarlierOn(left, i) + {s1}) && Tightest(q, vector, EarlierOn(right, i) + {s2})
    requires i in left <==> Volume(UnionOf(p, vector[i])) - Volume(p) < Volume(UnionOf(q, vector[i])) - Volume(q)
    ensures WellChosen(vector, left, right, s1, s2, i)
  {
    hide Tightest, UnionOf, Volume, EarlierOn, Enlarges;
    EnlargedByUnion(vector, EarlierOn(left, i) + {s1}, i, p);
    EnlargedByUnion(vector, EarlierOn(right, i) + {s2}, i, q);
  }

  lemma EntryIsWellChosen(vector: seq<NDBox>, s1: nat, s2: nat, i: nat)
    requires 1 <= s1 < s2 < |vector| && 1 <= i < |vector| && i != s1 && i != s2
    ensures var v := Placed(vector, s1, s2, |vector| - 1); WellChosen(vector, v.left, v.right, s1, s2, i)
  {
    hide Placed, Tightest, UnionOf, Volume, WellChosen, EarlierOn, Offsets;
    var v, p := Placed(vector, s1, s2, |vector| - 1), Placed(vector, s1, s2, i - 1);
    PlacedBefore(vector, s1, s2, i, |vector| - 1);
    PlacedBoxesAreTightest(vector, s1, s2, i - 1);
    ChosenByGrowth(vector, s1, s2, i);
    ChosenFromBoxes(vector, v.left, v.right, s1, s2, i, p.l, p.r);
  }

  lemma ChosenByGrowth(vector: seq<NDBox>, s1: nat, s2: nat, i: nat)
    requires 1 <= s1 < s2 < |vector| && 1 <= i < |vector| && i != s1 && i != s2
    ensures var p := Placed(vector, s1, s2, i - 1);
            i in Placed(vector, s1, s2, i).left <==>
            Volume(UnionOf(p.l, vector[i])) - Volume(p.l) < Volume(UnionOf(p.r, vector[i])) - Volume(p.r)
  {
    hide UnionOf, Volume, Joined;
    PlacedPartitions(vector, s1, s2, i - 1);
    EarlierIsAll(Placed(vector, s1, s2, i - 1).left, i);
  }

  /* What the seeds waste */

  // What the bounding box of two entries covers beyond what they share.
  ghost function TrueWaste(a: NDBox, b: NDBox): real {
    Volume(UnionOf(a, b)) - SharedVolume(a, b)
  }

  // Entries that overlap, or touch on some axis.
  ghost predicate Close(a: NDBox, b: NDBox) {
    Overlap(a, b) || exists i: nat | i < MaxDim(a, b) :: InterLo(a, b, i) == InterHi(a, b, i)
  }

  // The waste that is compared is the true one exactly for such entries.
  lemma WasteIsTrueExactlyWhen(vector: seq<NDBox>, i: nat, j: nat)
    requires i < |vector| && j < |vector|
    ensures Waste(vector, i, j) == TrueWaste(vector[i], vector[j]) <==> Close(vector[i], vector[j])
  {
    hide Volume, UnionOf, InterOf;
    InterSizeIsSharedExactlyWhen(vector[i], vector[j]);
  }

  // If all candidates are close to each other, the seeds are the first pair with the greatest true waste.
  lemma SeedsWasteMost(vector: seq<NDBox>, s1: nat, s2: nat)
    requires |vector| > 3 && BestSeeds(vector, s1, s2, |vector| - 2, |vector|, 0)
    requires forall k: nat, l: nat | 1 <= k < l <= |vector| - 2 :: Close(vector[k], vector[l])
    ensures forall k: nat, l: nat | 1 <= k < l <= |vector| - 2 ::
              TrueWaste(vector[k], vector[l]) <= TrueWaste(vector[s1], vector[s2])
    ensures forall k: nat, l: nat | 1 <= k < l <= |vector| - 2 && Before(k, l, s1, s2) ::
              TrueWaste(vector[k], vector[l]) < TrueWaste(vector[s1], vector[s2])
  {
    hide Waste, TrueWaste, Close;
    forall k: nat, l: nat | 1 <= k < l <= |vector| - 2
      ensures Waste(vector, k, l) == TrueWaste(vector[k], vector[l])
    {
      WasteIsTrueExactlyWhen(vector, k, l);
    }
    assert forall k: nat, l: nat | 1 <= k < l <= |vector| - 2 :: Before(k, l, |vector|, 0);
  }

  // The interval from lo to hi.
  predicate IsInterval(b: NDBox, lo: real, hi: real) {
    b.dim == 1 && Lo(b, 0) == lo && Hi(b, 0) == hi
  }

  // For intervals that are apart, only their lengths are compared, not how far they are apart.
  lemma IntervalsApart(a: NDBox, b: NDBox)
    requires a.dim == b.dim == 1 && Hi(a, 0) < Lo(b, 0)
    ensures Volume(UnionOf(a, b)) - Volume(InterOf(a, b)) == (Hi(a, 0) - Lo(a, 0)) + (Hi(b, 0) - Lo(b, 0))
    ensures TrueWaste(a, b) == Hi(b, 0) - Lo(a, 0)
  {
    var u, x := UnionOf(a, b), InterOf(a, b);
    LoIsBelowHi(a, 0);
    LoIsBelowHi(b, 0);
    UnionEnds(a, b, 0);
    InterEnds(a, b, 0);
    assert VolumeUpTo(u, 1) == Times(VolumeUpTo(u, 0), Extent(u, 0));
    assert VolumeUpTo(x, 1) == Times(VolumeUpTo(x, 0), Extent(x, 0));
    OverlapByAxis(a, b);
    assert !Meets(a, b, 0);
  }

  lemma BestOfThree(vector: seq<NDBox>)
    requires |vector| == 5 && Waste(vector, 1, 2) < Waste(vector, 1, 3) && Waste(vector, 2, 3) <= Waste(vector, 1, 3)
    ensures BestSeeds(vector, 1, 3, 3, 5, 0)
  {
    hide Waste;
    forall k: nat, l: nat | 1 <= k < l <= 3
      ensures Waste(vector, k, l) <= Waste(vector, 1, 3)
    {
      assert (k == 1 && l == 2) || (k == 1 && l == 3) || (k == 2 && l == 3);
    }
  }

  // [0,1], [100,101] and [50,60], and one more entry that is no candidate: the first and the third become seeds,
  // although the first and the second waste more.
  lemma SeedsNeedNotWasteMost(v: seq<NDBox>)
    requires |v| == 5 && IsInterval(v[1], 0.0, 1.0) && IsInterval(v[2], 100.0, 101.0) && IsInterval(v[3], 50.0, 60.0)
    ensures BestSeeds(v, 1, 3, 3, 5, 0)
    ensures TrueWaste(v[1], v[3]) == 60.0 && TrueWaste(v[1], v[2]) == 101.0
  {
    hide Volume, UnionOf, InterOf, TrueWaste, Lo, Hi;
    IntervalsApart(v[1], v[2]);
    IntervalsApart(v[1], v[3]);
    IntervalsApart(v[3], v[2]);
    Commutes(v[2], v[3]);
    BestOfThree(v);
  }

  /* The whole method */

  const FIRST_OFFSET: nat := 1

  // The decision about one entry, with the sizes of both boxes carried along.
  method Decide(vector: seq<NDBox>, s1: nat, s2: nat, i: nat, l: NDBox, r: NDBox, sizeL: real, sizeR: real)
    returns (goesLeft: bool, l': NDBox, r': NDBox, sizeL': real, sizeR': real)
    requires i < |vector| && sizeL == Volume(l) && sizeR == Volume(r) && s1 != s2
    ensures goesLeft == GoesLeft(vector, s1, s2, i, l, r)
    ensures l' == (if goesLeft then Joined(vector, s1, i, l) else l) && sizeL' == Volume(l')
    ensures r' == (if goesLeft then r else Joined(vector, s2, i, r)) && sizeR' == Volume(r')
  {
    hide Volume, UnionOf;
    l', r', sizeL', sizeR' := l, r, sizeL, sizeR;
    if i == s1 {
      goesLeft := true;
    } else if i == s2 {
      goesLeft := false;
    } else {
      var ul := CubeUnion(l, vector[i]);
      var ur := CubeUnion(r, vector[i]);
      var sizeAlpha := CubeSize(ul);
      var sizeBeta := CubeSize(ur);
      goesLeft := sizeAlpha - sizeL < sizeBeta - sizeR;
      if goesLeft {
        l', sizeL' := ul, sizeAlpha;
      } else {
        r', sizeR' := ur, sizeBeta;
      }
    }
  }

  // Both offset buffers have room for n numbers; the sentinel goes behind the last one used.
  method Distribute(vector: seq<NDBox>, s1: nat, s2: nat) returns (v: Sides, left: array<nat>, right: array<nat>)
    requires |vector| >= 3 && 1 <= s1 < s2 < |vector|
    ensures v == Placed(vector, s1, s2, |vector| - 1)
    ensures left.Length == right.Length == |vector|
    ensures |v.left| < left.Length && left[..|v.left|] == v.left && left[|v.left|] == FIRST_OFFSET
    ensures |v.right| < right.Length && right[..|v.right|] == v.right && right[|v.right|] == FIRST_OFFSET
  {
    hide Volume, UnionOf, Joined, GoesLeft;
    var n := |vector|;
    left, right := new nat[n], new nat[n];
    var nleft, nright := 0, 0;
    var l := CubeUnion(vector[s1], vector[s1]);
    var sizeL := CubeSize(l);
    var r := CubeUnion(vector[s2], vector[s2]);
    var sizeR := CubeSize(r);
    var i := 1;
    while i <= n - 1
      invariant 1 <= i <= n && nleft + nright == i - 1
      invariant Sides(left[..nleft], right[..nright], l, r) == Placed(vector, s1, s2, i - 1)
      invariant sizeL == Volume(l) && sizeR == Volume(r)
    {
      var goesLeft;
      goesLeft, l, r, sizeL, sizeR := Decide(vector, s1, s2, i, l, r, sizeL, sizeR);
      if goesLeft {
        left[nleft] := i;
        nleft := nleft + 1;
      } else {
        right[nright] := i;
        nright := nright + 1;
      }
      i := i + 1;
    }
    left[nleft], right[nright] := FIRST_OFFSET, FIRST_OFFSET;
    v := Sides(left[..nleft], right[..nright], l, r);
  }

  method PickSplit(vector: seq<NDBox>) returns (v: Sides, left: array<nat>, right: array<nat>, s1: nat, s2: nat)
    requires |vector| >= 3
    ensures if |vector| == 3 then s1 == 1 && s2 == 2 else BestSeeds(vector, s1, s2, |vector| - 2, |vector|, 0)
    ensures 1 <= s1 < s2 < |vector| && v == Placed(vector, s1, s2, |vector| - 1)
    ensures Partition(v.left, v.right, |vector| - 1) && s1 in v.left && s2 in v.right
    ensures Tightest(v.l, vector, Offsets(v.left)) && Tightest(v.r, vector, Offsets(v.right))
    ensures forall i: nat | 1 <= i < |vector| && i != s1 && i != s2 :: WellChosen(vector, v.left, v.right, s1, s2, i)
    ensures left.Length == right.Length == |vector|
    ensures |v.left| < left.Length && left[..|v.left|] == v.left && left[|v.left|] == FIRST_OFFSET
    ensures |v.right| < right.Length && right[..|v.right|] == v.right && right[|v.right|] == FIRST_OFFSET
  {
    hide Tightest, Partition, Place, Placed, Waste, WellChosen;
    s1, s2 := PickSeeds(vector);
    v, left, right := Distribute(vector, s1, s2);
    PlacedPartitions(vector, s1, s2, |vector| - 1);
    PlacedBoxesAreTightest(vector, s1, s2, |vector| - 1);
    assert Offsets(v.left) + {s1} == Offsets(v.left) && Offsets(v.right) + {s2} == Offsets(v.right);
    forall i: nat | 1 <= i < |vector| && i != s1 && i != s2
      ensures WellChosen(vector, v.left, v.right, s1, s2, i)
    {
      EntryIsWellChosen(vector, s1, s2, i);
    }
  }
}
