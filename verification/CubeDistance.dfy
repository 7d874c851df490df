/**
  cube_distance up to its final square root: the sum of squared gaps between the
  projections of two boxes.
 */
module CubeDistance {
  import opened Cube

  function Distance1D(a1: real, a2: real, b1: real, b2: real): real {
    if a1 <= b1 && a2 <= b1 && a1 <= b2 && a2 <= b2 then Min(b1, b2) - Max(a1, a2)
    else if a1 > b1 && a2 > b1 && a1 > b2 && a2 > b2 then Min(a1, a2) - Max(b1, b2)
    else 0.0
  }

  // What lies between the two intervals on one axis.
  function Gap(a: NDBox, b: NDBox, i: nat): real {
    Max(0.0, Max(Lo(b, i) - Hi(a, i), Lo(a, i) - Hi(b, i)))
  }

  function Product(a: real, b: real): (r: real)
    ensures a == 0.0 ==> r == 0.0
    ensures a > 0.0 && b > 0.0 ==> r > 0.0
  {
    a * b
  }

  function Square(d: real): (r: real)
    ensures d == 0.0 ==> r == 0.0
    ensures d > 0.0 ==> r > 0.0
  {
    Product(d, d)
  }

  function SumOfGaps(a: NDBox, b: NDBox, n: nat): real {
    if n == 0 then 0.0 else SumOfGaps(a, b, n - 1) + Square(Gap(a, b, n - 1))
  }

  function DistanceSquared(a: NDBox, b: NDBox): real {
    SumOfGaps(a, b, MaxDim(a, b))
  }

  lemma AxisIsGap(a: NDBox, b: NDBox, i: nat)
    ensures i < a.dim && i < b.dim ==> Distance1D(a.x[i], a.x[i + a.dim], b.x[i], b.x[i + b.dim]) == Gap(a, b, i)
    ensures b.dim <= i < a.dim ==> Distance1D(a.x[i], a.x[i + a.dim], 0.0, 0.0) == Gap(a, b, i)
    ensures Gap(a, b, i) == Gap(b, a, i)
  {
  }

  method CubeDistanceSquared(a0: NDBox, b0: NDBox) returns (distance: real)
    ensures distance == DistanceSquared(a0, b0)
  {
    hide Distance1D, Gap;
    var a, b := a0, b0;
    if a.dim < b.dim {
      a, b := b, a;
    }
    distance := 0.0;
    var i := 0;
    while i < b.dim
      invariant 0 <= i <= b.dim
      invariant distance == SumOfGaps(a, b, i)
    {
      var d := Distance1D(a.x[i], a.x[i + a.dim], b.x[i], b.x[i + b.dim]);
      AxisIsGap(a, b, i);
      distance := distance + Square(d);
      i := i + 1;
    }
    while i < a.dim
      invariant b.dim <= i <= a.dim
      invariant distance == SumOfGaps(a, b, i)
    {
      var d := Distance1D(a.x[i], a.x[i + a.dim], 0.0, 0.0);
      AxisIsGap(a, b, i);
      distance := distance + Square(d);
      i := i + 1;
    }
    SumSymmetric(a, b, a.dim);
  }

  lemma {:induction false} SumSymmetric(a: NDBox, b: NDBox, n: nat)
    ensures SumOfGaps(a, b, n) == SumOfGaps(b, a, n)
  {
    if n > 0 {
      SumSymmetric(a, b, n - 1);
      AxisIsGap(a, b, n - 1);
    }
  }

  lemma DistanceSymmetric(a: NDBox, b: NDBox)
    ensures DistanceSquared(a, b) == DistanceSquared(b, a)
  {
    SumSymmetric(a, b, MaxDim(a, b));
  }

  lemma ProductMonotone(a: real, b: real, k: real)
    requires a <= b && k >= 0.0
    ensures Product(a, k) <= Product(b, k)
    ensures Product(a, k) == Product(k, a)
  {
    assert b * k == a * k + (b - a) * k;
    assert Product(b - a, k) >= 0.0 by {
      if k == 0.0 {
        assert (b - a) * k == 0.0;
      }
    }
  }

  lemma SquareMonotone(a: real, b: real)
    requires 0.0 <= a <= b
    ensures 0.0 <= Square(a) <= Square(b)
  {
    hide Product;
    ProductMonotone(a, b, a);
    ProductMonotone(a, b, b);
    ProductMonotone(b, b, a);
  }

  lemma GapZero(a: NDBox, b: NDBox, i: nat)
    ensures Gap(a, b, i) >= 0.0
    ensures Gap(a, b, i) == 0.0 <==> Meets(a, b, i)
  {
    LoIsBelowHi(a, i);
    LoIsBelowHi(b, i);
  }

  lemma {:induction false} SumZero(a: NDBox, b: NDBox, n: nat)
    ensures SumOfGaps(a, b, n) >= 0.0
    ensures SumOfGaps(a, b, n) == 0.0 <==> forall i: nat | i < n :: Meets(a, b, i)
  {
    hide Gap, Meets, Square;
    if n > 0 {
      SumZero(a, b, n - 1);
      GapZero(a, b, n - 1);
      assert (forall i: nat | i < n :: Meets(a, b, i)) <==>
             Meets(a, b, n - 1) && forall i: nat | i < n - 1 :: Meets(a, b, i);
    }
  }

  // Zero exactly for overlapping boxes.
  lemma ZeroIsOverlap(a: NDBox, b: NDBox)
    ensures DistanceSquared(a, b) >= 0.0
    ensures DistanceSquared(a, b) == 0.0 <==> Overlap(a, b)
  {
    SumZero(a, b, MaxDim(a, b));
    OverlapByAxis(a, b);
    if DistanceSquared(a, b) == 0.0 {
      forall i: nat
        ensures Meets(a, b, i)
      {
      }
    }
  }

  lemma {:induction false} NoGapBeyond(a: NDBox, b: NDBox, n: nat, m: nat)
    requires MaxDim(a, b) <= n <= m
    ensures SumOfGaps(a, b, n) == SumOfGaps(a, b, m)
    decreases m - n
  {
    if n < m {
      NoGapBeyond(a, b, n, m - 1);
      assert Gap(a, b, m - 1) == 0.0;
    }
  }

  lemma GapShrinks(u: NDBox, x: NDBox, q: NDBox, i: nat)
    requires Lo(u, i) <= Lo(x, i) && Hi(x, i) <= Hi(u, i)
    ensures 0.0 <= Gap(u, q, i) <= Gap(x, q, i)
  {
  }

  lemma {:induction false} SumShrinks(u: NDBox, x: NDBox, q: NDBox, n: nat)
    requires Encloses(u, x)
    ensures SumOfGaps(u, q, n) <= SumOfGaps(x, q, n)
  {
    hide Gap, Lo, Hi, Square;
    if n > 0 {
      SumShrinks(u, x, q, n - 1);
      assert Lo(u, n - 1) <= Lo(x, n - 1) && Hi(x, n - 1) <= Hi(u, n - 1);
      GapShrinks(u, x, q, n - 1);
      SquareMonotone(Gap(u, q, n - 1), Gap(x, q, n - 1));
    }
  }

  // A box that encloses another is no further from anything, whatever the dimension counts.
  lemma EnclosingIsNoFurther(u: NDBox, x: NDBox, q: NDBox)
    requires Encloses(u, x)
    ensures DistanceSquared(u, q) <= DistanceSquared(x, q)
  {
    var n := MaxDim(u, x) + q.dim;
    NoGapBeyond(u, q, MaxDim(u, q), n);
    NoGapBeyond(x, q, MaxDim(x, q), n);
    SumShrinks(u, x, q, n);
  }

  /* The distance between point sets */

  // The sum of squared coordinate differences on the first n axes.
  function Apart(p: Point, q: Point, n: nat): real {
    if n == 0 then 0.0 else Apart(p, q, n - 1) + (p(n - 1) - q(n - 1)) * (p(n - 1) - q(n - 1))
  }

  lemma SquareIsProduct(d: real)
    ensures Square(d) == d * d && Square(-d) == d * d
  {
    assert (-d) * (-d) == d * d;
  }

  lemma AxisAtLeastGap(a: NDBox, b: NDBox, i: nat, s: real, t: real)
    requires Lo(a, i) <= s <= Hi(a, i) && Lo(b, i) <= t <= Hi(b, i)
    ensures Square(Gap(a, b, i)) <= (s - t) * (s - t)
  {
    var d := if s >= t then s - t else t - s;
    assert 0.0 <= Gap(a, b, i) <= d;
    hide Square, Gap;
    SquareMonotone(Gap(a, b, i), d);
    SquareIsProduct(d);
    assert d == s - t || d == -(s - t);
    SquareIsProduct(s - t);
  }

  lemma InOnAxis(p: Point, b: NDBox, i: nat)
    requires In(p, b)
    ensures Lo(b, i) <= p(i) <= Hi(b, i)
  {
  }

  lemma {:induction false} PointsAreFurther(a: NDBox, b: NDBox, p: Point, q: Point, n: nat)
    requires In(p, a) && In(q, b)
    ensures SumOfGaps(a, b, n) <= Apart(p, q, n)
  {
    hide Gap, Square, Lo, Hi;
    if n > 0 {
      PointsAreFurther(a, b, p, q, n - 1);
      InOnAxis(p, a, n - 1);
      InOnAxis(q, b, n - 1);
      AxisAtLeastGap(a, b, n - 1, p(n - 1), q(n - 1));
    }
  }

  // On one axis the coordinate of a that is nearest to b.
  function Nearest(a: NDBox, b: NDBox, i: nat): real {
    if Hi(a, i) < Lo(b, i) then Hi(a, i) else if Hi(b, i) < Lo(a, i) then Lo(a, i) else Max(Lo(a, i), Lo(b, i))
  }

  lemma NearestIsGap(a: NDBox, b: NDBox, i: nat)
    ensures Lo(a, i) <= Nearest(a, b, i) <= Hi(a, i)
    ensures var d := Nearest(a, b, i) - Nearest(b, a, i); Square(Gap(a, b, i)) == d * d
  {
    LoIsBelowHi(a, i);
    LoIsBelowHi(b, i);
    var d := Nearest(a, b, i) - Nearest(b, a, i);
    assert Gap(a, b, i) == d || Gap(a, b, i) == -d;
    hide Square;
    SquareIsProduct(d);
  }

  lemma {:induction false} NearestPointsAttain(a: NDBox, b: NDBox, p: Point, q: Point, n: nat)
    requires forall i: nat :: p(i) == Nearest(a, b, i) && q(i) == Nearest(b, a, i)
    ensures SumOfGaps(a, b, n) == Apart(p, q, n)
  {
    hide Gap, Square, Nearest;
    if n > 0 {
      NearestPointsAttain(a, b, p, q, n - 1);
      NearestIsGap(a, b, n - 1);
    }
  }

  // Points of two boxes do not differ beyond the dimensions of both.
  lemma {:induction false} ApartBeyond(a: NDBox, b: NDBox, p: Point, q: Point, n: nat)
    requires In(p, a) && In(q, b) && n >= MaxDim(a, b)
    ensures Apart(p, q, n) == Apart(p, q, MaxDim(a, b))
  {
    if n > MaxDim(a, b) {
      ApartBeyond(a, b, p, q, n - 1);
      InOnAxis(p, a, n - 1);
      InOnAxis(q, b, n - 1);
      assert p(n - 1) == 0.0 && q(n - 1) == 0.0;
    }
  }

  // The squared distance is the least sum of squared coordinate differences between a point of the one box and a
  // point of the other: no two points are closer and some two are as close, on however many axes they are compared.
  lemma DistanceIsLeast(a: NDBox, b: NDBox, n: nat)
    requires n >= MaxDim(a, b)
    ensures forall p: Point, q: Point | In(p, a) && In(q, b) :: DistanceSquared(a, b) <= Apart(p, q, n)
    ensures exists p: Point, q: Point :: In(p, a) && In(q, b) && Apart(p, q, n) == DistanceSquared(a, b)
  {
    hide Apart, SumOfGaps, Nearest;
    forall p: Point, q: Point | In(p, a) && In(q, b)
      ensures DistanceSquared(a, b) <= Apart(p, q, n)
    {
      PointsAreFurther(a, b, p, q, MaxDim(a, b));
      ApartBeyond(a, b, p, q, n);
    }
    var p: Point, q: Point := (i: nat) => Nearest(a, b, i), (i: nat) => Nearest(b, a, i);
    forall i: nat
      ensures Lo(a, i) <= p(i) <= Hi(a, i) && Lo(b, i) <= q(i) <= Hi(b, i)
    {
      NearestIsGap(a, b, i);
      NearestIsGap(b, a, i);
    }
    NearestPointsAttain(a, b, p, q, MaxDim(a, b));
    ApartBeyond(a, b, p, q, n);
  }
}
