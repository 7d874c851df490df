/**
  The consistent test that a search applies to variable-length range keys: which
  items it can still reach below a key, and when it turns a key away.
 */
module VarReach {
  import opened Text
  import opened ByteOrder
  import opened RangeKey
  import opened VarKey

  /* The consistent test */

  predicate PrefixMatch(info: TypeInfo, k: ByteRange, q: Bytes) {
    info.trnc && (k.lower <= q || k.upper <= q)
  }

  predicate Consistent(info: TypeInfo, k: ByteRange, q: Bytes, s: Strategy, isLeaf: bool) {
    match s
    case LessEqual =>
      if isLeaf then info.cmp(q, k.lower) >= 0 else info.cmp(q, k.lower) >= 0 || PrefixMatch(info, k, q)
    case Less =>
      if isLeaf then info.cmp(q, k.lower) > 0 else info.cmp(q, k.lower) >= 0 || PrefixMatch(info, k, q)
    case Equal =>
      if isLeaf then info.cmp(q, k.lower) == 0
      else (info.cmp(k.lower, q) <= 0 && info.cmp(q, k.upper) <= 0) || PrefixMatch(info, k, q)
    case Greater =>
      if isLeaf then info.cmp(q, k.upper) < 0 else info.cmp(q, k.upper) <= 0 || PrefixMatch(info, k, q)
    case GreaterEqual =>
      if isLeaf then info.cmp(q, k.upper) <= 0 else info.cmp(q, k.upper) <= 0 || PrefixMatch(info, k, q)
    case NotEqual => !(info.cmp(q, k.lower) == 0 && info.cmp(q, k.upper) == 0)
    case Other => false
  }

  // No query that x satisfies is turned away at key k.
  ghost predicate NeverMisses(info: TypeInfo, k: ByteRange, x: Bytes) {
    forall s, q :: Satisfies(info.cmp, x, s, q) ==> Consistent(info, k, q, s, false)
  }

  // What NeverMisses amounts to for a type that cuts its keys.
  ghost predicate Reaches(k: ByteRange, x: Bytes) {
    && ((Le(k.lower, x) && Le(x, k.upper)) || k.lower <= x || k.upper <= x)
    && (k.lower == k.upper ==> x == k.lower)
  }

  lemma ReachesAccepts(info: TypeInfo, k: ByteRange, x: Bytes, s: Strategy, q: Bytes)
    requires info.Valid() && info.trnc && Le(k.lower, k.upper) && Reaches(k, x) && Satisfies(info.cmp, x, s, q)
    ensures Consistent(info, k, q, s, false)
  {
    CutTypesUseLe(info, x, q);
    CutTypesUseLe(info, q, x);
    CutTypesUseLe(info, q, k.lower);
    CutTypesUseLe(info, k.lower, q);
    CutTypesUseLe(info, q, k.upper);
    LeTotal(x, q);
    LeTotal(q, k.upper);
    if k.lower <= x {
      PrefixLe(k.lower, x);
    } else if k.upper <= x {
      PrefixLe(k.upper, x);
      LeTransitive(k.lower, k.upper, x);
    }
    assert Le(k.lower, x);
    if Le(x, q) {
      LeTransitive(k.lower, x, q);
    } else if Le(x, k.upper) {
      LeTransitive(q, x, k.upper);
    } else if !Le(q, k.upper) {
      LeTransitive(k.lower, k.upper, q);
      if k.lower <= x {
        BetweenExtensions(k.lower, q, x);
      } else {
        BetweenExtensions(k.upper, q, x);
      }
    }
  }

  lemma NeverMissesIsReaches(info: TypeInfo, k: ByteRange, x: Bytes)
    requires info.Valid() && info.trnc && Le(k.lower, k.upper)
    ensures NeverMisses(info, k, x) <==> Reaches(k, x)
  {
    if Reaches(k, x) {
      forall s, q | Satisfies(info.cmp, x, s, q)
        ensures Consistent(info, k, q, s, false)
      {
        ReachesAccepts(info, k, x, s, q);
      }
    }
    if NeverMisses(info, k, x) {
      CutTypesUseLe(info, x, x);
      CutTypesUseLe(info, k.lower, x);
      CutTypesUseLe(info, x, k.upper);
      assert Satisfies(info.cmp, x, Equal, x);
      CutTypesUseLe(info, x, k.lower);
      CutTypesUseLe(info, k.lower, k.lower);
      assert k.lower == k.upper && x != k.lower ==> Satisfies(info.cmp, x, NotEqual, k.lower);
    }
  }

  lemma CoveredIsReached(info: TypeInfo, k: ByteRange, x: Bytes)
    requires info.Valid() && info.trnc && Covers(info, k, x)
    ensures Reaches(k, x)
  {
    if k.lower == k.upper {
      CommonSelf(k.upper);
      LeAntisymmetric(x, k.lower);
    }
  }

  /* Which items a key may stand for in a search */

  // What a key keeps and a search needs.
  ghost predicate StandsFor(info: TypeInfo, k: ByteRange, x: Bytes) {
    Loose(info, k, x) && (info.trnc ==> Reaches(k, x))
  }

  lemma CoveredStands(info: TypeInfo, k: ByteRange, x: Bytes)
    requires info.Valid() && Covers(info, k, x)
    ensures StandsFor(info, k, x)
  {
    if info.trnc {
      CoveredIsLoose(info, k, x);
      CoveredIsReached(info, k, x);
    }
  }

  // The part of the upper end that a matching item has to extend when it exceeds that end.
  function Head(k: ByteRange): Bytes {
    if k.lower <= k.upper then Take(k.upper, CutLength(k)) else k.upper
  }

  lemma PrefixIsCommon(a: Bytes, b: Bytes)
    requires a <= b
    ensures Common(a, b) == |a|
  {
    CommonUnique(a, b, |a|);
  }

  // A lower end that x extends is a prefix of the upper end, if x agrees with that end up to the cut.
  lemma SharedLowerEnd(k: ByteRange, x: Bytes)
    requires CutLength(k) <= |k.upper| && CutLength(k) <= |x| && x[..CutLength(k)] == k.upper[..CutLength(k)]
    requires k.lower <= x
    ensures k.lower <= k.upper
  {
    var n := Common(k.lower, k.upper);
    CommonMeans(k.lower, k.upper);
    assert x[n] == x[..n + 2][n] == k.upper[..n + 2][n];
    if n < |k.lower| {
      assert false;
    }
    assert k.lower == k.lower[..n];
  }

  // Exactly which items a key stands for.
  lemma StandsByHead(info: TypeInfo, k: ByteRange, x: Bytes)
    requires info.Valid() && info.trnc && Ordered(info, k)
    ensures StandsFor(info, k, x) <==>
      Le(k.lower, x) && (Le(x, k.upper) || (|Head(k)| >= CutLength(k) && Head(k) <= x))
  {
    if Le(k.lower, x) && Le(x, k.upper) {
      CoveredStands(info, k, x);
    } else if StandsFor(info, k, x) {
      BeyondIsBehindHead(k, x);
    } else if Le(k.lower, x) && |Head(k)| >= CutLength(k) && Head(k) <= x {
      BehindHeadStands(info, k, x);
    }
  }

  lemma BeyondIsBehindHead(k: ByteRange, x: Bytes)
    requires CoversLoosely(k, x) && Reaches(k, x) && !Le(x, k.upper)
    ensures |Head(k)| >= CutLength(k) && Head(k) <= x
  {
    var c := CutLength(k);
    if |k.upper| <= c {
      CutOrAbove(x, k.upper, c);
    } else {
      AgreeToCut(x, k.upper, c);
      if k.lower <= x {
        SharedLowerEnd(k, x);
      }
    }
  }

  lemma BehindHeadStands(info: TypeInfo, k: ByteRange, x: Bytes)
    requires info.Valid() && info.trnc && Le(k.lower, x) && |Head(k)| >= CutLength(k) && Head(k) <= x
    ensures StandsFor(info, k, x)
  {
    var c := CutLength(k);
    if k.lower <= k.upper {
      PrefixIsCommon(k.lower, k.upper);
      assert Take(x, c) == Head(k);
      PrefixLe(Head(k), k.upper);
      assert k.lower == k.upper[..|k.lower|] == Head(k)[..|k.lower|];
    } else {
      CoveredStands(info, k, x);
    }
  }

  // No item that the key loosely covers can be missed: the upper end was cut at once, or the lower end is a
  // prefix of it, or it can be exceeded only by extending it.
  ghost predicate Safe(k: ByteRange) {
    || |k.upper| <= CutLength(k)
    || k.lower <= k.upper
    || (forall i | CutLength(k) <= i < |k.upper| :: k.upper[i] == 255)
  }

  lemma SafeExactlyWhen(info: TypeInfo, k: ByteRange)
    requires info.Valid() && info.trnc && Ordered(info, k)
    ensures Safe(k) <==> forall x | CoversLoosely(k, x) :: Reaches(k, x)
  {
    if Safe(k) {
      forall x | CoversLoosely(k, x)
        ensures Reaches(k, x)
      {
        SafeReaches(info, k, x);
      }
    } else {
      var x := UnsafeMisses(info, k);
    }
  }

  lemma SafeReaches(info: TypeInfo, k: ByteRange, x: Bytes)
    requires info.trnc && info.Valid() && Safe(k) && CoversLoosely(k, x)
    ensures Reaches(k, x)
  {
    var c := CutLength(k);
    if Le(x, k.upper) {
      CoveredIsReached(info, k, x);
    } else if |k.upper| <= c {
      LooseIsCovered(info, k, x);
      CoveredIsReached(info, k, x);
    } else {
      AgreeToCut(x, k.upper, c);
      if k.lower <= k.upper {
        PrefixIsCommon(k.lower, k.upper);
        assert k.lower == k.upper[..c][..|k.lower|] == x[..c][..|k.lower|];
      } else {
        ExceedsByExtending(k.upper, x, c);
      }
      if k.lower == k.upper {
        CommonSelf(k.upper);
        assert false;
      }
    }
  }

  lemma ExceedsByExtending(up: Bytes, x: Bytes, c: nat)
    requires c <= |up| && c <= |x| && x[..c] == up[..c] && !Le(x, up)
    requires forall i | c <= i < |up| :: up[i] == 255
    ensures up <= x
  {
    var p, tail, w := up[..c], up[c..], x[c..];
    assert up == p + tail && x == p + w;
    assert forall i | 0 <= i < |tail| :: tail[i] == up[c + i];
    AllOnesIsLast(tail, w);
    LeUnderPrefix(p, w, tail);
    LeUnderPrefix(p, tail, w);
  }

  // The upper end up to byte i, and then one more than it has there.
  function Above(up: Bytes, i: nat): (x: Bytes)
    requires i < |up| && up[i] < 255
    ensures up[..i] <= x && !(up <= x)
  {
    up[..i] + [up[i] + 1]
  }

  lemma AboveIsGreater(up: Bytes, i: nat)
    requires i < |up| && up[i] < 255
    ensures !Le(Above(up, i), up) && Le(up, Above(up, i))
  {
    assert up == up[..i] + up[i..];
    LeUnderPrefix(up[..i], [up[i] + 1], up[i..]);
    LeTotal(Above(up, i), up);
  }

  lemma UnsafeMisses(info: TypeInfo, k: ByteRange) returns (x: Bytes)
    requires info.Valid() && info.trnc && Ordered(info, k) && !Safe(k)
    ensures CoversLoosely(k, x) && !Reaches(k, x)
  {
    var c := CutLength(k);
    var i :| c <= i < |k.upper| && k.upper[i] != 255;
    x := Above(k.upper, i);
    AboveIsGreater(k.upper, i);
    CutTypesUseLe(info, k.lower, k.upper);
    LeTransitive(k.lower, k.upper, x);
    assert x[..c] == k.upper[..c] == Take(x, c);
    PrefixLe(Take(x, c), k.upper);
    if k.lower <= x {
      SharedLowerEnd(k, x);
      assert false;
    }
  }

  lemma InnerTestAcceptsCovered(info: TypeInfo, k: ByteRange, x: Bytes, s: Strategy, q: Bytes)
    requires info.Valid() && Ordered(info, k) && Covers(info, k, x) && Satisfies(info.cmp, x, s, q)
    ensures Consistent(info, k, q, s, false)
  {
    if info.trnc {
      CoveredIsReached(info, k, x);
      CutTypesUseLe(info, k.lower, k.upper);
      ReachesAccepts(info, k, x, s, q);
    } else {
      InnerTestAcceptsBetween(info, k, x, s, q);
    }
  }

  // Between the ends, or an extension of one of them.
  ghost predicate Near(k: ByteRange, x: Bytes) {
    (Le(k.lower, x) && Le(x, k.upper)) || k.lower <= x || k.upper <= x
  }

  ghost predicate CanMatch(info: TypeInfo, k: ByteRange, s: Strategy, q: Bytes) {
    exists x :: Near(k, x) && Satisfies(info.cmp, x, s, q)
  }

  // Whatever is near the key and satisfies the operator is not turned away, and for a cut key nothing else is let
  // in: only < also accepts a query that is the very lower end. A key with equal ends stands for one value.
  lemma InnerTestExactlyWhen(info: TypeInfo, k: ByteRange, s: Strategy, q: Bytes)
    requires info.Valid() && info.trnc && Le(k.lower, k.upper)
    ensures s != NotEqual ==>
      (Consistent(info, k, q, s, false) <==> CanMatch(info, k, s, q) || (s == Less && q == k.lower))
    ensures s == NotEqual ==>
      (Consistent(info, k, q, s, false) <==> q != k.lower || q != k.upper)
  {
    CutTypesUseLe(info, q, k.lower);
    CutTypesUseLe(info, k.lower, q);
    CutTypesUseLe(info, q, k.upper);
    if s != NotEqual && Consistent(info, k, q, s, false) && !(s == Less && q == k.lower) {
      var x := SomeMatch(info, k, s, q);
    }
    if s != NotEqual && CanMatch(info, k, s, q) {
      var x :| Near(k, x) && Satisfies(info.cmp, x, s, q);
      NearAccepts(info, k, s, q, x);
    }
  }

  lemma NearAccepts(info: TypeInfo, k: ByteRange, s: Strategy, q: Bytes, x: Bytes)
    requires info.Valid() && info.trnc && Le(k.lower, k.upper) && Near(k, x) && Satisfies(info.cmp, x, s, q) && s != NotEqual
    ensures Consistent(info, k, q, s, false)
  {
    if k.lower != k.upper || x == k.lower {
      ReachesAccepts(info, k, x, s, q);
    } else {
      ExtensionAccepts(info, k, s, q, x);
    }
  }

  // Equal ends, and x extends them.
  lemma ExtensionAccepts(info: TypeInfo, k: ByteRange, s: Strategy, q: Bytes, x: Bytes)
    requires info.Valid() && info.trnc && k.lower == k.upper && Near(k, x) && x != k.lower
    requires Satisfies(info.cmp, x, s, q) && s != NotEqual
    ensures Consistent(info, k, q, s, false)
  {
    if !(k.lower <= x) {
      LeAntisymmetric(k.lower, x);
      assert false;
    }
    PrefixLe(k.lower, x);
    CutTypesUseLe(info, x, q);
    CutTypesUseLe(info, q, k.lower);
    CutTypesUseLe(info, k.lower, q);
    LeTotal(x, q);
    LeTotal(q, k.lower);
    if Le(x, q) {
      LeTransitive(k.lower, x, q);
    }
    if Le(q, x) && Le(k.lower, q) {
      BetweenExtensions(k.lower, q, x);
    }
  }

  // A value near the key that satisfies the operator: the lower end, the query itself, or something beyond it.
  lemma SomeMatch(info: TypeInfo, k: ByteRange, s: Strategy, q: Bytes) returns (x: Bytes)
    requires info.Valid() && info.trnc && Le(k.lower, k.upper) && s != NotEqual
    requires Consistent(info, k, q, s, false) && !(s == Less && q == k.lower)
    ensures Near(k, x) && Satisfies(info.cmp, x, s, q)
  {
    LeReflexive(k.lower);
    LeReflexive(k.upper);
    CutTypesUseLe(info, q, k.lower);
    CutTypesUseLe(info, k.lower, q);
    CutTypesUseLe(info, q, k.upper);
    CutTypesUseLe(info, k.upper, q);
    CutTypesUseLe(info, q, q);
    LowerEndOfPrefix(k, q);
    match s
    case Less => x := k.lower;
    case LessEqual => x := k.lower;
    case Equal => x := q;
    case GreaterEqual =>
      x := if PrefixMatch(info, k, q) then q else k.upper;
    case Greater =>
      if PrefixMatch(info, k, q) || q == k.upper {
        x := q + [0];
        OneByteMore(info, q);
        assert q <= x;
      } else {
        x := k.upper;
      }
  }

  lemma LowerEndOfPrefix(k: ByteRange, q: Bytes)
    requires Le(k.lower, k.upper)
    ensures k.lower <= q || k.upper <= q ==> Le(k.lower, q)
  {
    if k.lower <= q {
      PrefixLe(k.lower, q);
    } else if k.upper <= q {
      PrefixLe(k.upper, q);
      LeTransitive(k.lower, k.upper, q);
    }
  }

  lemma OneByteMore(info: TypeInfo, q: Bytes)
    requires info.Valid() && info.trnc
    ensures info.cmp(q + [0], q) > 0
  {
    PrefixLe(q, q + [0]);
    CutTypesUseLe(info, q + [0], q);
  }

  // Without cutting: exactly if no value between the ends can satisfy the operator, apart from the ends of < and >.
  lemma WholeKeyTestExactlyWhen(info: TypeInfo, k: ByteRange, s: Strategy, q: Bytes)
    requires info.Valid() && !info.trnc && Ordered(info, k)
    ensures Consistent(info, k, q, s, false) <==>
      || (exists x :: Covers(info, k, x) && Satisfies(info.cmp, x, s, q))
      || (s == Less && info.cmp(q, k.lower) == 0)
      || (s == Greater && info.cmp(q, k.upper) == 0)
  {
    assert info.Leq(k.lower, k.lower) && info.Leq(k.upper, k.upper) && info.Leq(q, q);
    assert Covers(info, k, k.lower) && Covers(info, k, k.upper);
    assert info.cmp(k.lower, q) < 0 <==> info.cmp(q, k.lower) > 0;
    assert info.cmp(q, k.lower) < 0 <==> info.cmp(k.lower, q) > 0;
    assert info.cmp(k.upper, q) < 0 <==> info.cmp(q, k.upper) > 0;
    assert info.cmp(q, k.upper) < 0 <==> info.cmp(k.upper, q) > 0;
    assert info.cmp(q, q) == 0;
    if s == Equal && Consistent(info, k, q, s, false) {
      assert Covers(info, k, q);
    }
    forall x | Covers(info, k, x) && Satisfies(info.cmp, x, s, q)
      ensures Consistent(info, k, q, s, false)
    {
      InnerTestAcceptsBetween(info, k, x, s, q);
    }
  }

  // Any total preorder, no cutting.
  lemma InnerTestAcceptsBetween(info: TypeInfo, k: ByteRange, x: Bytes, s: Strategy, q: Bytes)
    requires info.Valid() && info.Leq(k.lower, x) && info.Leq(x, k.upper) && Satisfies(info.cmp, x, s, q)
    ensures Consistent(info, k, q, s, false)
  {
    assert info.Leq(x, q) ==> info.Leq(k.lower, q);
    assert info.Leq(q, x) ==> info.Leq(q, k.upper);
    assert info.Leq(q, k.lower) ==> info.Leq(q, x);
    assert info.Leq(k.upper, q) ==> info.Leq(x, q);
  }

  lemma LeafTestIsOperator(info: TypeInfo, x: Bytes, s: Strategy, q: Bytes)
    requires info.Valid()
    ensures Consistent(info, LeafKey(x), q, s, true) <==> Satisfies(info.cmp, x, s, q)
  {
    assert info.cmp(x, q) < 0 <==> info.cmp(q, x) > 0;
    assert info.cmp(q, x) < 0 <==> info.cmp(x, q) > 0;
  }
}
