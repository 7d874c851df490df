/**
  When cube_cmp_v0 is a total order: on boxes of one dimension count, with or
  without the box of no dimensions, and on no wider class.
 */
module CubeOrder {
  import opened Cube

  lemma {:induction false} EndsAntisymmetric(a: NDBox, b: NDBox, i: nat, n: nat)
    ensures CmpLo(a, b, i, n) == -CmpLo(b, a, i, n) && CmpHi(a, b, i, n) == -CmpHi(b, a, i, n)
    decreases n - i
  {
    if i < n {
      EndsAntisymmetric(a, b, i + 1, n);
    }
  }

  // Holds for all boxes.
  lemma CmpAntisymmetric(a: NDBox, b: NDBox)
    ensures Cmp(a, b) == -Cmp(b, a)
  {
    var d := if a.dim < b.dim then a.dim else b.dim;
    EndsAntisymmetric(a, b, 0, d);
    EndsAntisymmetric(a, b, d, MaxDim(a, b));
  }

  lemma {:induction false} LoTransitive(a: NDBox, b: NDBox, c: NDBox, i: nat, n: nat)
    requires CmpLo(a, b, i, n) <= 0 && CmpLo(b, c, i, n) <= 0
    ensures CmpLo(a, c, i, n) <= 0
    ensures CmpLo(a, c, i, n) == 0 <==> CmpLo(a, b, i, n) == 0 && CmpLo(b, c, i, n) == 0
    decreases n - i
  {
    if i < n && Lo(a, i) == Lo(b, i) == Lo(c, i) {
      LoTransitive(a, b, c, i + 1, n);
    }
  }

  lemma {:induction false} HiTransitive(a: NDBox, b: NDBox, c: NDBox, i: nat, n: nat)
    requires CmpHi(a, b, i, n) <= 0 && CmpHi(b, c, i, n) <= 0
    ensures CmpHi(a, c, i, n) <= 0
    ensures CmpHi(a, c, i, n) == 0 <==> CmpHi(a, b, i, n) == 0 && CmpHi(b, c, i, n) == 0
    decreases n - i
  {
    if i < n && Hi(a, i) == Hi(b, i) == Hi(c, i) {
      HiTransitive(a, b, c, i + 1, n);
    }
  }

  ghost predicate OneOf(a: NDBox, d: nat, e: nat) {
    a.dim == d || a.dim == e
  }

  ghost predicate TransitiveOn(d: nat, e: nat) {
    forall a: NDBox, b: NDBox, c: NDBox ::
      OneOf(a, d, e) && OneOf(b, d, e) && OneOf(c, d, e) && Cmp(a, b) <= 0 && Cmp(b, c) <= 0 ==> Cmp(a, c) <= 0
  }

  // On boxes of d dimensions or none, Cmp goes by lower ends, upper ends, dimensions.
  lemma {:induction false} CmpInOneDimension(a: NDBox, b: NDBox, d: nat)
    requires OneOf(a, d, 0) && OneOf(b, d, 0)
    ensures Cmp(a, b) ==
      if CmpLo(a, b, 0, d) != 0 then CmpLo(a, b, 0, d)
      else if CmpHi(a, b, 0, d) != 0 then CmpHi(a, b, 0, d)
      else if a.dim > b.dim then 1 else if a.dim < b.dim then -1 else 0
  {
    if a.dim == b.dim == 0 {
      CmpEndsZero(a, b, 0, d);
    }
  }

  lemma TransitiveWithOneDimension(a: NDBox, b: NDBox, c: NDBox, d: nat)
    requires OneOf(a, d, 0) && OneOf(b, d, 0) && OneOf(c, d, 0) && Cmp(a, b) <= 0 && Cmp(b, c) <= 0
    ensures Cmp(a, c) <= 0
  {
    hide Cmp;
    CmpInOneDimension(a, b, d);
    CmpInOneDimension(b, c, d);
    CmpInOneDimension(a, c, d);
    LoTransitive(a, b, c, 0, d);
    if CmpLo(a, c, 0, d) == 0 {
      HiTransitive(a, b, c, 0, d);
    }
  }

  // [0, top] on axis 0, the point `at` on axis `axis` > 0, zero elsewhere.
  function Witness(dim: nat, top: real, axis: nat, at: real): (b: NDBox)
    requires dim > 0 && axis > 0 && top > 0.0
    ensures b.dim == dim && Lo(b, 0) == 0.0 && Hi(b, 0) == top
    ensures forall i: nat | 0 < i < dim :: Lo(b, i) == Hi(b, i) == if i == axis then at else 0.0
  {
    var low := seq(dim, i => if i == axis then at else 0.0);
    Box(dim, low + low[0 := top])
  }

  lemma {:induction false} FirstDifference(a: NDBox, b: NDBox, i: nat, at: nat, n: nat)
    requires i <= at < n
    ensures (forall j | i <= j < at :: Lo(a, j) == Lo(b, j)) && Lo(a, at) < Lo(b, at) ==> CmpLo(a, b, i, n) == -1
    ensures (forall j | i <= j < at :: Hi(a, j) == Hi(b, j)) && Hi(a, at) < Hi(b, at) ==> CmpHi(a, b, i, n) == -1
    decreases at - i
  {
    if i < at {
      FirstDifference(a, b, i + 1, at, n);
    }
  }

  // Any two positive dimension counts admit a cycle.
  lemma MixedDimensionsCycle(d: nat, e: nat) returns (a: NDBox, b: NDBox, c: NDBox)
    requires 0 < d < e
    ensures a.dim == d && b.dim == c.dim == e
    ensures Cmp(a, b) < 0 && Cmp(b, c) < 0 && Cmp(c, a) < 0
  {
    a, b, c := Witness(d, 2.0, d, 0.0), Witness(e, 3.0, d, 0.0), Witness(e, 1.0, d, 1.0);
    CmpEndsZero(a, b, 0, d);
    FirstDifference(a, b, 0, 0, d);
    FirstDifference(b, c, 0, d, e);
    CmpEndsZero(c, a, 0, d);
    FirstDifference(c, a, 0, 0, d);
  }

  // The exact scope of transitivity, for any two dimension counts.
  lemma TransitiveExactlyWhen(d: nat, e: nat)
    ensures TransitiveOn(d, e) <==> d == e || d == 0 || e == 0
  {
    if d == e || d == 0 || e == 0 {
      forall a: NDBox, b: NDBox, c: NDBox |
        OneOf(a, d, e) && OneOf(b, d, e) && OneOf(c, d, e) && Cmp(a, b) <= 0 && Cmp(b, c) <= 0
        ensures Cmp(a, c) <= 0
      {
        TransitiveWithOneDimension(a, b, c, if d == 0 then e else d);
      }
    } else {
      var a, b, c := MixedDimensionsCycle(if d < e then d else e, if d < e then e else d);
      CmpAntisymmetric(a, c);
      assert OneOf(a, d, e) && OneOf(b, d, e) && OneOf(c, d, e);
    }
  }

  /* The order itself */

  // What is compared, in this order: lower ends on the common axes, upper ends there, the same on the other axes, and
  // the number of dimensions.
  function Rank(b: NDBox, d: nat, n: nat): (r: seq<real>)
    requires d <= n
    ensures |r| == 2 * n + 1
  {
    Lows(b, 0, d) + Highs(b, 0, d) + Lows(b, d, n) + Highs(b, d, n) + [b.dim as real]
  }

  function Lows(b: NDBox, i: nat, n: nat): (r: seq<real>)
    requires i <= n
    ensures |r| == n - i
  {
    seq(n - i, k requires 0 <= k < n - i => Lo(b, i + k))
  }

  function Highs(b: NDBox, i: nat, n: nat): (r: seq<real>)
    requires i <= n
    ensures |r| == n - i
  {
    seq(n - i, k requires 0 <= k < n - i => Hi(b, i + k))
  }

  // r comes before s: they first differ where r is smaller.
  ghost predicate Earlier(r: seq<real>, s: seq<real>)
    requires |r| == |s|
  {
    exists k | 0 <= k < |r| :: r[..k] == s[..k] && r[k] < s[k]
  }

  lemma EarlierInFront(r1: seq<real>, r2: seq<real>, s1: seq<real>, s2: seq<real>)
    requires |r1| == |s1| && |r2| == |s2| && Earlier(r1, s1)
    ensures Earlier(r1 + r2, s1 + s2)
  {
    var k :| 0 <= k < |r1| && r1[..k] == s1[..k] && r1[k] < s1[k];
    assert (r1 + r2)[..k] == r1[..k] && (s1 + s2)[..k] == s1[..k];
  }

  lemma EarlierBehind(r1: seq<real>, r2: seq<real>, s2: seq<real>)
    requires |r2| == |s2| && Earlier(r2, s2)
    ensures Earlier(r1 + r2, r1 + s2)
  {
    var k :| 0 <= k < |r2| && r2[..k] == s2[..k] && r2[k] < s2[k];
    assert (r1 + r2)[..|r1| + k] == r1 + r2[..k] && (r1 + s2)[..|r1| + k] == r1 + s2[..k];
  }

  lemma EarlierSomewhere(r1: seq<real>, r2: seq<real>, s1: seq<real>, s2: seq<real>)
    requires |r1| == |s1| && |r2| == |s2| && Earlier(r1 + r2, s1 + s2)
    ensures Earlier(r1, s1) || (r1 == s1 && Earlier(r2, s2))
  {
    var r, s := r1 + r2, s1 + s2;
    var k :| 0 <= k < |r| && r[..k] == s[..k] && r[k] < s[k];
    if k < |r1| {
      assert r1[..k] == r[..k] && s1[..k] == s[..k];
    } else {
      assert r1 == r[..k][..|r1|] && s1 == s[..k][..|r1|];
      assert r2[..k - |r1|] == r[..k][|r1|..] && s2[..k - |r1|] == s[..k][|r1|..];
    }
  }

  lemma EarlierConcat(r1: seq<real>, r2: seq<real>, s1: seq<real>, s2: seq<real>)
    requires |r1| == |s1| && |r2| == |s2|
    ensures Earlier(r1 + r2, s1 + s2) <==> Earlier(r1, s1) || (r1 == s1 && Earlier(r2, s2))
  {
    hide Earlier;
    if Earlier(r1, s1) {
      EarlierInFront(r1, r2, s1, s2);
    }
    if r1 == s1 && Earlier(r2, s2) {
      EarlierBehind(r1, r2, s2);
    }
    if Earlier(r1 + r2, s1 + s2) {
      EarlierSomewhere(r1, r2, s1, s2);
    }
  }

  lemma {:induction false} LowsDecide(a: NDBox, b: NDBox, i: nat, n: nat)
    requires i <= n
    ensures CmpLo(a, b, i, n) < 0 <==> Earlier(Lows(a, i, n), Lows(b, i, n))
    ensures CmpLo(a, b, i, n) == 0 <==> Lows(a, i, n) == Lows(b, i, n)
    decreases n - i
  {
    if i < n {
      LowsDecide(a, b, i + 1, n);
      assert Lows(a, i, n) == [Lo(a, i)] + Lows(a, i + 1, n) && Lows(b, i, n) == [Lo(b, i)] + Lows(b, i + 1, n);
      EarlierConcat([Lo(a, i)], Lows(a, i + 1, n), [Lo(b, i)], Lows(b, i + 1, n));
      EarlierOne(Lo(a, i), Lo(b, i));
      hide Earlier, Lows;
      HeadsDecide(Lo(a, i), Lows(a, i + 1, n), Lo(b, i), Lows(b, i + 1, n));
    }
  }

  lemma {:induction false} HighsDecide(a: NDBox, b: NDBox, i: nat, n: nat)
    requires i <= n
    ensures CmpHi(a, b, i, n) < 0 <==> Earlier(Highs(a, i, n), Highs(b, i, n))
    ensures CmpHi(a, b, i, n) == 0 <==> Highs(a, i, n) == Highs(b, i, n)
    decreases n - i
  {
    if i < n {
      HighsDecide(a, b, i + 1, n);
      assert Highs(a, i, n) == [Hi(a, i)] + Highs(a, i + 1, n) && Highs(b, i, n) == [Hi(b, i)] + Highs(b, i + 1, n);
      EarlierConcat([Hi(a, i)], Highs(a, i + 1, n), [Hi(b, i)], Highs(b, i + 1, n));
      EarlierOne(Hi(a, i), Hi(b, i));
      hide Earlier, Highs;
      HeadsDecide(Hi(a, i), Highs(a, i + 1, n), Hi(b, i), Highs(b, i + 1, n));
    }
  }

  lemma EarlierOne(x: real, y: real)
    ensures Earlier([x], [y]) <==> x < y
  {
    if x < y {
      assert [x][..0] == [y][..0] && [x][0] < [y][0];
    }
  }

  lemma HeadsDecide(x: real, r: seq<real>, y: real, s: seq<real>)
    ensures [x] + r == [y] + s <==> x == y && r == s
  {
    if [x] + r == [y] + s {
      assert ([x] + r)[0] == x && ([y] + s)[0] == y && ([x] + r)[1..] == r && ([y] + s)[1..] == s;
    }
  }

  // The comparison is lexicographic.
  lemma CmpIsLexicographic(a: NDBox, b: NDBox)
    ensures var d, n := if a.dim < b.dim then a.dim else b.dim, MaxDim(a, b);
            Cmp(a, b) < 0 <==> Earlier(Rank(a, d, n), Rank(b, d, n))
  {
    var d, n := if a.dim < b.dim then a.dim else b.dim, MaxDim(a, b);
    LowsDecide(a, b, 0, d);
    HighsDecide(a, b, 0, d);
    LowsDecide(a, b, d, n);
    HighsDecide(a, b, d, n);
    EarlierOne(a.dim as real, b.dim as real);
    hide Earlier, Lows, Highs, CmpLo, CmpHi;
    var a1, a2, a3, a4, a5 := Lows(a, 0, d), Highs(a, 0, d), Lows(a, d, n), Highs(a, d, n), [a.dim as real];
    var b1, b2, b3, b4, b5 := Lows(b, 0, d), Highs(b, 0, d), Lows(b, d, n), Highs(b, d, n), [b.dim as real];
    EarlierConcat(a1 + a2 + a3 + a4, a5, b1 + b2 + b3 + b4, b5);
    EarlierConcat(a1 + a2 + a3, a4, b1 + b2 + b3, b4);
    EarlierConcat(a1 + a2, a3, b1 + b2, b3);
    EarlierConcat(a1, a2, b1, b2);
    SameConcat(a1 + a2 + a3, a4, b1 + b2 + b3, b4);
    SameConcat(a1 + a2, a3, b1 + b2, b3);
    SameConcat(a1, a2, b1, b2);
  }

  lemma SameConcat(r1: seq<real>, r2: seq<real>, s1: seq<real>, s2: seq<real>)
    requires |r1| == |s1|
    ensures r1 + r2 == s1 + s2 <==> r1 == s1 && r2 == s2
  {
    if r1 + r2 == s1 + s2 {
      assert (r1 + r2)[..|r1|] == r1 && (s1 + s2)[..|r1|] == s1;
      assert (r1 + r2)[|r1|..] == r2 && (s1 + s2)[|r1|..] == s2;
    }
  }
}
