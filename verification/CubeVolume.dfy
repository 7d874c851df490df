/**
  rt_cube_size: the volume of a box in its own dimensions.
 */
module CubeVolume {
  import opened Cube

  function Abs(d: real): real {
    if d < 0.0 then -d else d
  }

  function Extent(b: NDBox, i: nat): (e: real)
    ensures e >= 0.0
  {
    LoIsBelowHi(b, i);
    Hi(b, i) - Lo(b, i)
  }

  function Times(a: real, b: real): real {
    a * b
  }

  // The product of the extents of the first n axes.
  function VolumeUpTo(b: NDBox, n: nat): real {
    if n == 0 then 1.0 else Times(VolumeUpTo(b, n - 1), Extent(b, n - 1))
  }

  function Volume(b: NDBox): real {
    VolumeUpTo(b, b.dim)
  }

  lemma ExtentIsDifference(b: NDBox, i: nat)
    requires i < b.dim
    ensures Extent(b, i) == Abs(b.x[b.dim + i] - b.x[i])
  {
  }

  method CubeSize(b: NDBox) returns (size: real)
    ensures size == Volume(b)
  {
    hide Extent;
    size := 1.0;
    var i, j := 0, b.dim;
    while i < b.dim
      invariant 0 <= i <= b.dim && j == b.dim + i
      invariant size == VolumeUpTo(b, i)
    {
      ExtentIsDifference(b, i);
      size := size * Abs(b.x[j] - b.x[i]);
      i, j := i + 1, j + 1;
    }
  }

  /* What makes it a volume */

  // [0,1] on every axis.
  function Unit(d: nat): (b: NDBox)
    ensures b.dim == d && forall i: nat | i < d :: Lo(b, i) == 0.0 && Hi(b, i) == 1.0
  {
    Box(d, seq(d, _ => 0.0) + seq(d, _ => 1.0))
  }

  lemma {:induction false} UnitVolume(b: NDBox, n: nat)
    requires forall i: nat | i < n :: Extent(b, i) == 1.0
    ensures VolumeUpTo(b, n) == 1.0
  {
    hide Extent;
    if n > 0 {
      UnitVolume(b, n - 1);
    }
  }

  lemma UnitHasVolumeOne(d: nat)
    ensures Volume(Unit(d)) == 1.0
  {
    UnitVolume(Unit(d), d);
  }

  // b is cut into l and r across axis i.
  ghost predicate CutInTwo(b: NDBox, l: NDBox, r: NDBox, i: nat) {
    && l.dim == r.dim == b.dim && i < b.dim
    && (forall k: nat | k != i :: Lo(l, k) == Lo(r, k) == Lo(b, k) && Hi(l, k) == Hi(r, k) == Hi(b, k))
    && Lo(l, i) == Lo(b, i) && Hi(l, i) == Lo(r, i) && Hi(r, i) == Hi(b, i)
  }

  lemma {:induction false} CutVolumes(b: NDBox, l: NDBox, r: NDBox, i: nat, n: nat)
    requires CutInTwo(b, l, r, i)
    ensures n <= i ==> VolumeUpTo(l, n) == VolumeUpTo(r, n) == VolumeUpTo(b, n)
    ensures n > i ==> VolumeUpTo(l, n) + VolumeUpTo(r, n) == VolumeUpTo(b, n)
  {
    if n > 0 {
      CutVolumes(b, l, r, i, n - 1);
      var v, w := VolumeUpTo(l, n - 1), VolumeUpTo(r, n - 1);
      if n - 1 == i {
        assert Extent(l, i) + Extent(r, i) == Extent(b, i);
        TimesSum(v, Extent(l, i), Extent(r, i));
      } else {
        assert Extent(l, n - 1) == Extent(r, n - 1) == Extent(b, n - 1);
        SumTimes(v, w, Extent(b, n - 1));
      }
    }
  }

  lemma TimesSum(a: real, b: real, c: real)
    ensures Times(a, b) + Times(a, c) == Times(a, b + c)
  {
  }

  lemma SumTimes(a: real, b: real, c: real)
    ensures Times(a, c) + Times(b, c) == Times(a + b, c)
  {
  }

  // The volumes of the two parts add up, whichever axis is cut and wherever.
  lemma VolumeIsAdditive(b: NDBox, l: NDBox, r: NDBox, i: nat)
    requires CutInTwo(b, l, r, i)
    ensures Volume(l) + Volume(r) == Volume(b)
  {
    CutVolumes(b, l, r, i, b.dim);
  }

  /* Enclosing boxes */

  lemma TimesGrows(a: real, b: real, c: real, d: real)
    requires 0.0 <= a <= c && 0.0 <= b <= d
    ensures 0.0 <= Times(a, b) <= Times(c, d)
  {
    assert c * d == a * b + a * (d - b) + (c - a) * d;
    NonNegative(a, d - b);
    NonNegative(c - a, d);
    NonNegative(a, b);
  }

  lemma NonNegative(a: real, b: real)
    requires a >= 0.0 && b >= 0.0
    ensures a * b >= 0.0
  {
  }

  lemma {:induction false} VolumeGrowsUpTo(u: NDBox, x: NDBox, n: nat)
    requires Encloses(u, x)
    ensures 0.0 <= VolumeUpTo(x, n) <= VolumeUpTo(u, n)
  {
    if n > 0 {
      VolumeGrowsUpTo(u, x, n - 1);
      assert Lo(u, n - 1) <= Lo(x, n - 1) && Hi(x, n - 1) <= Hi(u, n - 1);
      assert Extent(x, n - 1) <= Extent(u, n - 1);
      hide Extent, Times;
      TimesGrows(VolumeUpTo(x, n - 1), Extent(x, n - 1), VolumeUpTo(u, n - 1), Extent(u, n - 1));
    }
  }

  lemma {:induction false} FlatVolume(b: NDBox, i: nat, n: nat)
    requires i < n && Extent(b, i) == 0.0
    ensures VolumeUpTo(b, n) == 0.0
  {
    hide Extent;
    if i < n - 1 {
      FlatVolume(b, i, n - 1);
    }
  }

  lemma EnclosingIsLarger(u: NDBox, x: NDBox)
    requires Encloses(u, x) && u.dim <= x.dim
    ensures Volume(x) <= Volume(u)
  {
    VolumeGrowsUpTo(u, x, u.dim);
    if u.dim < x.dim {
      assert Lo(u, u.dim) <= Lo(x, u.dim) && Hi(x, u.dim) <= Hi(u, u.dim);
      LoIsBelowHi(x, u.dim);
      FlatVolume(x, u.dim, x.dim);
      VolumeGrowsUpTo(u, u, u.dim);
    }
  }

  // The unit box of d dimensions in e dimensions: flat on the axes it lacks.
  function Flat(d: nat, e: nat): (b: NDBox)
    requires d < e
    ensures b.dim == e
    ensures forall i: nat :: Lo(b, i) == 0.0 && Hi(b, i) == if i < d then 1.0 else 0.0
  {
    Box(e, seq(e, _ => 0.0) + seq(e, i => if i < d then 1.0 else 0.0))
  }

  ghost predicate LargerIfEnclosing(e: nat, d: nat) {
    forall u: NDBox, x: NDBox | u.dim == e && x.dim == d && Encloses(u, x) :: Volume(x) <= Volume(u)
  }

  // A box is at least as large as every box it encloses exactly if it has no more dimensions: size counts
  // only a box's own dimensions.
  lemma EnclosingIsLargerExactlyWhen(e: nat, d: nat)
    ensures LargerIfEnclosing(e, d) <==> e <= d
  {
    if e <= d {
      forall u: NDBox, x: NDBox | u.dim == e && x.dim == d && Encloses(u, x)
        ensures Volume(x) <= Volume(u)
      {
        EnclosingIsLarger(u, x);
      }
    } else {
      var u, x := Flat(d, e), Unit(d);
      UnitHasVolumeOne(d);
      FlatVolume(u, d, e);
      assert forall i: nat | i >= d :: Lo(x, i) == 0.0 && Hi(x, i) == 0.0;
      assert Encloses(u, x);
    }
  }

  /* The overlap of two boxes */

  lemma SharedOnAxis(a: NDBox, b: NDBox, i: nat, t: real)
    requires Meets(a, b, i)
    ensures Lo(InterOf(a, b), i) <= t <= Hi(InterOf(a, b), i) <==> Lo(a, i) <= t <= Hi(a, i) && Lo(b, i) <= t <= Hi(b, i)
  {
    InterEnds(a, b, i);
    hide InterOf, Lo, Hi;
    LoIsBelowHi(a, i);
    LoIsBelowHi(b, i);
  }

  // The intersection of overlapping boxes is what they share.
  lemma InterIsShared(a: NDBox, b: NDBox, p: Point)
    requires Overlap(a, b)
    ensures In(p, InterOf(a, b)) <==> In(p, a) && In(p, b)
  {
    OverlapByAxis(a, b);
    hide Lo, Hi, InterOf, Overlap;
    forall i: nat
      ensures Lo(InterOf(a, b), i) <= p(i) <= Hi(InterOf(a, b), i) <==>
        Lo(a, i) <= p(i) <= Hi(a, i) && Lo(b, i) <= p(i) <= Hi(b, i)
    {
      assert Meets(a, b, i);
      SharedOnAxis(a, b, i, p(i));
    }
  }

  lemma InterEnds(a: NDBox, b: NDBox, i: nat)
    ensures Lo(InterOf(a, b), i) == Min(InterLo(a, b, i), InterHi(a, b, i))
    ensures Hi(InterOf(a, b), i) == Max(InterLo(a, b, i), InterHi(a, b, i))
  {
  }

  // What two boxes share; boxes apart share nothing.
  ghost function SharedVolume(a: NDBox, b: NDBox): real {
    if Overlap(a, b) then Volume(InterOf(a, b)) else 0.0
  }

  lemma {:induction false} PositiveVolume(b: NDBox, n: nat)
    requires forall i: nat | i < n :: Extent(b, i) > 0.0
    ensures VolumeUpTo(b, n) > 0.0
  {
    hide Extent;
    if n > 0 {
      PositiveVolume(b, n - 1);
    }
  }

  // The size of the intersection is the volume shared exactly if the boxes overlap or touch on some axis: otherwise
  // the gaps between them are multiplied instead, because corners may come in either order.
  lemma InterSizeIsSharedExactlyWhen(a: NDBox, b: NDBox)
    ensures Volume(InterOf(a, b)) == SharedVolume(a, b) <==>
      Overlap(a, b) || exists i: nat | i < MaxDim(a, b) :: InterLo(a, b, i) == InterHi(a, b, i)
  {
    var x, n := InterOf(a, b), MaxDim(a, b);
    forall i: nat | i < n
      ensures Extent(x, i) == 0.0 <==> InterLo(a, b, i) == InterHi(a, b, i)
    {
      InterEnds(a, b, i);
    }
    hide Extent, InterLo, InterHi, Overlap, InterOf;
    if i: nat :| i < n && InterLo(a, b, i) == InterHi(a, b, i) {
      FlatVolume(x, i, n);
    } else {
      PositiveVolume(x, n);
    }
    InterDim(a, b);
  }

  lemma InterDim(a: NDBox, b: NDBox)
    ensures InterOf(a, b).dim == MaxDim(a, b)
  {
  }
}
