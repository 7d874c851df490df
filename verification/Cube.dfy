/**
  N-dimensional boxes. A box keeps two corners in either order; a dimension it
  does not have counts as zero.
 */
module Cube {

  datatype Box = Box(dim: nat, x: seq<real>)

  type NDBox = b: Box | |b.x| == 2 * b.dim witness Box(0, [])

  function Min(a: real, b: real): real {
    if a < b then a else b
  }

  function Max(a: real, b: real): real {
    if a > b then a else b
  }

  function Lo(b: NDBox, i: nat): real {
    if i < b.dim then Min(b.x[i], b.x[b.dim + i]) else 0.0
  }

  function Hi(b: NDBox, i: nat): real {
    if i < b.dim then Max(b.x[i], b.x[b.dim + i]) else 0.0
  }

  function MaxDim(a: NDBox, b: NDBox): nat {
    if a.dim < b.dim then b.dim else a.dim
  }

  /* Union and intersection */

  function UnionLo(a: NDBox, b: NDBox, i: nat): real {
    Min(Lo(a, i), Lo(b, i))
  }

  function UnionHi(a: NDBox, b: NDBox, i: nat): real {
    Max(Hi(a, i), Hi(b, i))
  }

  function InterLo(a: NDBox, b: NDBox, i: nat): real {
    Max(Lo(a, i), Lo(b, i))
  }

  function InterHi(a: NDBox, b: NDBox, i: nat): real {
    Min(Hi(a, i), Hi(b, i))
  }

  // The smallest box around both, corners in order.
  function UnionOf(a: NDBox, b: NDBox): NDBox {
    var d := MaxDim(a, b);
    Box(d, seq(d, i requires 0 <= i < d => UnionLo(a, b, i)) + seq(d, i requires 0 <= i < d => UnionHi(a, b, i)))
  }

  // The overlap, axis by axis; corners are out of order on an axis without overlap.
  function InterOf(a: NDBox, b: NDBox): NDBox {
    var d := MaxDim(a, b);
    Box(d, seq(d, i requires 0 <= i < d => InterLo(a, b, i)) + seq(d, i requires 0 <= i < d => InterHi(a, b, i)))
  }

  lemma UnionEnds(a: NDBox, b: NDBox, i: nat)
    ensures Lo(UnionOf(a, b), i) == UnionLo(a, b, i) && Hi(UnionOf(a, b), i) == UnionHi(a, b, i)
  {
    LoIsBelowHi(a, i);
    LoIsBelowHi(b, i);
  }

  // Both operations first copy the box with fewer dimensions, padded with zeroes.
  method Pad(b: NDBox, result: array<real>, dim: nat)
    requires b.dim <= dim && result.Length == 2 * dim
    modifies result
    ensures forall i | 0 <= i < dim :: result[i] == Lo(b, i) && result[dim + i] == Hi(b, i)
  {
    var i := 0;
    while i < b.dim
      invariant 0 <= i <= b.dim
      invariant forall j | 0 <= j < i :: result[j] == Lo(b, j) && result[dim + j] == Hi(b, j)
    {
      result[i] := Min(b.x[i], b.x[i + b.dim]);
      result[i + dim] := Max(b.x[i], b.x[i + b.dim]);
      i := i + 1;
    }
    while i < dim
      invariant b.dim <= i <= dim
      invariant forall j | 0 <= j < i :: result[j] == Lo(b, j) && result[dim + j] == Hi(b, j)
    {
      result[i] := 0.0;
      result[i + dim] := 0.0;
      i := i + 1;
    }
  }

  // A buffer whose halves hold the two given corners.
  lemma BufferIs(x: seq<real>, d: nat, lo: seq<real>, hi: seq<real>)
    requires |x| == 2 * d && |lo| == |hi| == d
    requires forall i | 0 <= i < d :: x[i] == lo[i] && x[d + i] == hi[i]
    ensures x == lo + hi
  {
    forall k | 0 <= k < |x|
      ensures x[k] == (lo + hi)[k]
    {
      if k >= d {
        assert x[d + (k - d)] == hi[k - d];
      }
    }
  }

  lemma UnionIs(a: NDBox, b: NDBox, x: seq<real>)
    requires |x| == 2 * MaxDim(a, b)
    requires forall i | 0 <= i < MaxDim(a, b) :: x[i] == UnionLo(a, b, i) && x[MaxDim(a, b) + i] == UnionHi(a, b, i)
    ensures Box(MaxDim(a, b), x) == UnionOf(a, b)
  {
    hide UnionLo, UnionHi;
    var d := MaxDim(a, b);
    BufferIs(x, d, seq(d, i requires 0 <= i < d => UnionLo(a, b, i)), seq(d, i requires 0 <= i < d => UnionHi(a, b, i)));
  }

  lemma InterIs(a: NDBox, b: NDBox, x: seq<real>)
    requires |x| == 2 * MaxDim(a, b)
    requires forall i | 0 <= i < MaxDim(a, b) :: x[i] == InterLo(a, b, i) && x[MaxDim(a, b) + i] == InterHi(a, b, i)
    ensures Box(MaxDim(a, b), x) == InterOf(a, b)
  {
    hide InterLo, InterHi;
    var d := MaxDim(a, b);
    BufferIs(x, d, seq(d, i requires 0 <= i < d => InterLo(a, b, i)), seq(d, i requires 0 <= i < d => InterHi(a, b, i)));
  }

  lemma UnionCell(a: NDBox, b: NDBox, i: nat)
    requires i < a.dim
    ensures UnionLo(a, b, i) == Min(Min(a.x[i], a.x[i + a.dim]), Lo(b, i))
    ensures UnionHi(a, b, i) == Max(Max(a.x[i], a.x[i + a.dim]), Hi(b, i))
  {
  }

  lemma InterCell(a: NDBox, b: NDBox, i: nat)
    requires i < a.dim
    ensures InterLo(a, b, i) == Max(Min(a.x[i], a.x[i + a.dim]), Lo(b, i))
    ensures InterHi(a, b, i) == Min(Max(a.x[i], a.x[i + a.dim]), Hi(b, i))
  {
  }

  // a has at least as many dimensions as b.
  method UnionLonger(a: NDBox, b: NDBox) returns (r: NDBox)
    requires a.dim >= b.dim
    ensures r == UnionOf(a, b)
  {
    hide Min, Max, UnionOf, InterOf, Lo, Hi, UnionLo, UnionHi, InterLo, InterHi;
    var d := a.dim;
    var result := new real[2 * d];
    Pad(b, result, d);
    var i := 0;
    while i < d
      invariant 0 <= i <= d
      invariant forall j | 0 <= j < i :: result[j] == UnionLo(a, b, j) && result[d + j] == UnionHi(a, b, j)
      invariant forall j | i <= j < d :: result[j] == Lo(b, j) && result[d + j] == Hi(b, j)
    {
      UnionCell(a, b, i);
      result[i] := Min(Min(a.x[i], a.x[i + d]), result[i]);
      result[i + d] := Max(Max(a.x[i], a.x[i + d]), result[i + d]);
      i := i + 1;
    }
    UnionIs(a, b, result[..]);
    r := Box(d, result[..]);
  }

  method InterLonger(a: NDBox, b: NDBox) returns (r: NDBox)
    requires a.dim >= b.dim
    ensures r == InterOf(a, b)
  {
    hide Min, Max, UnionOf, InterOf, Lo, Hi, UnionLo, UnionHi, InterLo, InterHi;
    var d := a.dim;
    var result := new real[2 * d];
    Pad(b, result, d);
    var i := 0;
    while i < d
      invariant 0 <= i <= d
      invariant forall j | 0 <= j < i :: result[j] == InterLo(a, b, j) && result[d + j] == InterHi(a, b, j)
      invariant forall j | i <= j < d :: result[j] == Lo(b, j) && result[d + j] == Hi(b, j)
    {
      InterCell(a, b, i);
      result[i] := Max(Min(a.x[i], a.x[i + d]), result[i]);
      result[i + d] := Min(Max(a.x[i], a.x[i + d]), result[i + d]);
      i := i + 1;
    }
    InterIs(a, b, result[..]);
    r := Box(d, result[..]);
  }

  lemma Commutes(a: NDBox, b: NDBox)
    ensures UnionOf(a, b) == UnionOf(b, a) && InterOf(a, b) == InterOf(b, a)
  {
    assert UnionOf(a, b).x == UnionOf(b, a).x;
    assert InterOf(a, b).x == InterOf(b, a).x;
  }

  method CubeUnion(a: NDBox, b: NDBox) returns (r: NDBox)
    ensures r == UnionOf(a, b)
  {
    if a.dim < b.dim {
      Commutes(a, b);
      r := UnionLonger(b, a);
    } else {
      r := UnionLonger(a, b);
    }
  }

  method CubeInter(a: NDBox, b: NDBox) returns (r: NDBox)
    ensures r == InterOf(a, b)
  {
    if a.dim < b.dim {
      Commutes(a, b);
      r := InterLonger(b, a);
    } else {
      r := InterLonger(a, b);
    }
  }

  /* Tests */

  // Both coordinates on axis i are zero.
  predicate IsZero(b: NDBox, i: nat)
    requires i < b.dim
  {
    b.x[i] == 0.0 && b.x[i + b.dim] == 0.0
  }

  predicate Contains(a: NDBox, b: NDBox) {
    && (forall i | a.dim <= i < b.dim :: IsZero(b, i))
    && (forall i | 0 <= i < a.dim && i < b.dim :: Lo(a, i) <= Lo(b, i) && Hi(b, i) <= Hi(a, i))
  }

  predicate Overlap(a: NDBox, b: NDBox) {
    if a.dim < b.dim then OverlapLonger(b, a) else OverlapLonger(a, b)
  }

  predicate OverlapLonger(a: NDBox, b: NDBox)
    requires a.dim >= b.dim
  {
    && (forall i | 0 <= i < b.dim :: Lo(a, i) <= Hi(b, i) && Hi(a, i) >= Lo(b, i))
    && (forall i | b.dim <= i < a.dim :: Lo(a, i) <= 0.0 && Hi(a, i) >= 0.0)
  }

  // A point has a coordinate on every axis.
  type Point = nat -> real

  ghost predicate In(p: Point, b: NDBox) {
    forall i: nat :: Lo(b, i) <= p(i) <= Hi(b, i)
  }

  // On every axis, u's interval contains x's.
  ghost predicate Encloses(u: NDBox, x: NDBox) {
    forall i: nat :: Lo(u, i) <= Lo(x, i) && Hi(x, i) <= Hi(u, i)
  }

  // On axis i the intervals meet.
  predicate Meets(a: NDBox, b: NDBox, i: nat) {
    Lo(a, i) <= Hi(b, i) && Lo(b, i) <= Hi(a, i)
  }

  lemma LoIsBelowHi(b: NDBox, i: nat)
    ensures Lo(b, i) <= Hi(b, i)
  {
  }

  lemma OverlapByAxis(a: NDBox, b: NDBox)
    ensures Overlap(a, b) <==> forall i: nat :: Meets(a, b, i)
  {
    if Overlap(a, b) {
      forall i: nat
        ensures Meets(a, b, i)
      {
      }
    } else {
      var l, s := if a.dim < b.dim then b else a, if a.dim < b.dim then a else b;
      var i: nat :| i < l.dim && (Lo(l, i) > Hi(s, i) || Hi(l, i) < Lo(s, i));
      assert !Meets(a, b, i);
    }
  }

  // Two boxes overlap exactly if they share a point.
  lemma OverlapIsSharedPoint(a: NDBox, b: NDBox)
    ensures Overlap(a, b) <==> exists p: Point :: In(p, a) && In(p, b)
  {
    OverlapByAxis(a, b);
    if Overlap(a, b) {
      var p: Point := (i: nat) => Max(Lo(a, i), Lo(b, i));
      forall i: nat
        ensures Lo(a, i) <= p(i) <= Hi(a, i) && Lo(b, i) <= p(i) <= Hi(b, i)
      {
        assert Meets(a, b, i);
        LoIsBelowHi(a, i);
        LoIsBelowHi(b, i);
      }
      assert In(p, a) && In(p, b);
    } else {
      var i: nat :| !Meets(a, b, i);
      forall p: Point | In(p, a)
        ensures !In(p, b)
      {
        assert Lo(a, i) <= p(i) <= Hi(a, i);
        assert In(p, b) ==> Lo(b, i) <= p(i) <= Hi(b, i);
      }
    }
  }

  // The containment test ignores the axes that only its first argument has.
  lemma ContainsByAxis(a: NDBox, b: NDBox)
    ensures Contains(a, b) <==> forall i: nat | i < b.dim :: Lo(a, i) <= Lo(b, i) && Hi(b, i) <= Hi(a, i)
  {
    if Contains(a, b) {
      forall i: nat | i < b.dim
        ensures Lo(a, i) <= Lo(b, i) && Hi(b, i) <= Hi(a, i)
      {
        assert a.dim <= i ==> IsZero(b, i);
      }
    }
    if forall i: nat | i < b.dim :: Lo(a, i) <= Lo(b, i) && Hi(b, i) <= Hi(a, i) {
      forall i: nat | a.dim <= i < b.dim
        ensures IsZero(b, i)
      {
        assert Lo(a, i) <= Lo(b, i) && Hi(b, i) <= Hi(a, i);
      }
    }
  }

  // So it is true containment exactly if zero lies within a on those axes.
  lemma ContainsIsSubset(a: NDBox, b: NDBox)
    ensures Encloses(a, b) <==>
      Contains(a, b) && forall i: nat | b.dim <= i < a.dim :: Lo(a, i) <= 0.0 <= Hi(a, i)
  {
    ContainsByAxis(a, b);
    if Encloses(a, b) {
      forall i: nat | b.dim <= i < a.dim
        ensures Lo(a, i) <= 0.0 <= Hi(a, i)
      {
        assert Lo(a, i) <= Lo(b, i) && Hi(b, i) <= Hi(a, i);
      }
    }
  }

  lemma EnclosesIsSubset(a: NDBox, b: NDBox)
    ensures Encloses(a, b) <==> forall p: Point | In(p, b) :: In(p, a)
  {
    var low: Point, high: Point := (i: nat) => Lo(b, i), (i: nat) => Hi(b, i);
    forall i: nat
      ensures Lo(b, i) <= Hi(b, i)
    {
      LoIsBelowHi(b, i);
    }
    assert In(low, b) && In(high, b);
    if forall p: Point | In(p, b) :: In(p, a) {
      assert In(low, a) && In(high, a);
      forall i: nat
        ensures Lo(a, i) <= Lo(b, i) && Hi(b, i) <= Hi(a, i)
      {
        assert Lo(a, i) <= low(i) && high(i) <= Hi(a, i);
      }
    }
  }

  // The union encloses both boxes, and whatever encloses both encloses it.
  lemma UnionEncloses(a: NDBox, b: NDBox, c: NDBox)
    ensures Encloses(UnionOf(a, b), a) && Encloses(UnionOf(a, b), b)
    ensures Encloses(c, a) && Encloses(c, b) ==> Encloses(c, UnionOf(a, b))
  {
    forall i: nat
      ensures Lo(UnionOf(a, b), i) == UnionLo(a, b, i) && Hi(UnionOf(a, b), i) == UnionHi(a, b, i)
    {
      UnionEnds(a, b, i);
    }
  }

  lemma EnclosesTransitive(a: NDBox, b: NDBox, c: NDBox)
    requires Encloses(a, b) && Encloses(b, c)
    ensures Encloses(a, c)
  {
  }

  /* Comparison */

  // First axis in [i, n) on which the lower (upper) ends differ.
  function CmpLo(a: NDBox, b: NDBox, i: nat, n: nat): int
    decreases n - i
  {
    if i >= n then 0
    else if Lo(a, i) > Lo(b, i) then 1
    else if Lo(a, i) < Lo(b, i) then -1
    else CmpLo(a, b, i + 1, n)
  }

  function CmpHi(a: NDBox, b: NDBox, i: nat, n: nat): int
    decreases n - i
  {
    if i >= n then 0
    else if Hi(a, i) > Hi(b, i) then 1
    else if Hi(a, i) < Hi(b, i) then -1
    else CmpHi(a, b, i + 1, n)
  }

  // Common axes first, then the rest against zero, then the number of dimensions.
  function Cmp(a: NDBox, b: NDBox): int {
    var d := if a.dim < b.dim then a.dim else b.dim;
    var n := MaxDim(a, b);
    if CmpLo(a, b, 0, d) != 0 then CmpLo(a, b, 0, d)
    else if CmpHi(a, b, 0, d) != 0 then CmpHi(a, b, 0, d)
    else if CmpLo(a, b, d, n) != 0 then CmpLo(a, b, d, n)
    else if CmpHi(a, b, d, n) != 0 then CmpHi(a, b, d, n)
    else if a.dim > b.dim then 1
    else if a.dim < b.dim then -1
    else 0
  }

  lemma {:induction false} CmpEndsZero(a: NDBox, b: NDBox, i: nat, n: nat)
    ensures CmpLo(a, b, i, n) == 0 <==> forall j | i <= j < n :: Lo(a, j) == Lo(b, j)
    ensures CmpHi(a, b, i, n) == 0 <==> forall j | i <= j < n :: Hi(a, j) == Hi(b, j)
    decreases n - i
  {
    if i < n {
      CmpEndsZero(a, b, i + 1, n);
    }
  }

  // Equality is the same extent on every axis and the same number of dimensions.
  lemma CmpZero(a: NDBox, b: NDBox)
    ensures Cmp(a, b) == 0 <==> a.dim == b.dim && forall i | 0 <= i < a.dim :: Lo(a, i) == Lo(b, i) && Hi(a, i) == Hi(b, i)
  {
    if a.dim == b.dim {
      CmpEndsZero(a, b, 0, a.dim);
      CmpEndsZero(a, b, a.dim, a.dim);
    }
  }
}
