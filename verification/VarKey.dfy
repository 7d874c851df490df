/**
  Range keys over variable-length values: how inner keys are widened and, for
  bytea, cut to a short prefix; and which items a key still covers afterwards.
 */
module VarKey {
  import opened Text
  import opened ByteOrder
  import opened RangeKey

  type ByteRange = Range<Bytes>

  // f_cmp and trnc of a type.
  datatype TypeInfo = TypeInfo(cmp: (Bytes, Bytes) -> int, trnc: bool) {

    predicate Leq(a: Bytes, b: Bytes) {
      AtMost(cmp, a, b)
    }

    // A total preorder; and byteacmp if the type cuts its keys.
    ghost predicate Valid() {
      && TotalPreorder(cmp)
      && (trnc ==> forall a, b :: cmp(a, b) == ByteaCmp(a, b))
    }
  }

  lemma ByteaIsValid()
    ensures TypeInfo(ByteaCmp, true).Valid()
  {
    forall a, b
      ensures AtMost(ByteaCmp, a, a)
      ensures ByteaCmp(a, b) < 0 <==> ByteaCmp(b, a) > 0
    {
      LeReflexive(a);
      CmpIsLe(a, a);
      CmpIsLe(a, b);
      CmpIsLe(b, a);
    }
    forall a, b, c | AtMost(ByteaCmp, a, b) && AtMost(ByteaCmp, b, c)
      ensures AtMost(ByteaCmp, a, c)
    {
      CmpIsLe(a, b);
      CmpIsLe(b, c);
      CmpIsLe(a, c);
      LeTransitive(a, b, c);
    }
    assert TotalPreorder(ByteaCmp);
  }

  // For a type that cuts its keys, Leq is dictionary order.
  lemma CutTypesUseLe(info: TypeInfo, a: Bytes, b: Bytes)
    requires info.Valid() && info.trnc
    ensures info.Leq(a, b) <==> Le(a, b)
    ensures info.cmp(a, b) == 0 <==> a == b
    ensures info.cmp(a, b) >= 0 <==> Le(b, a)
  {
    CmpIsLe(a, b);
  }

  /* Widening, cutting, union */

  function Cut(r: ByteRange, n: nat): ByteRange {
    Range(Take(r.lower, n), Take(r.upper, n))
  }

  // Where a union is cut: two bytes past the prefix its ends share.
  function CutLength(r: ByteRange): nat {
    Common(r.lower, r.upper) + 2
  }

  // gbt_var_union reads its first entry, so it has no value on an empty vector.
  function Union(info: TypeInfo, es: seq<ByteRange>): ByteRange {
    if es == [] then Range([], [])
    else
      var u := Hull(info.cmp, es);
      if info.trnc then Cut(u, CutLength(u)) else u
  }

  /* Which items a key stands for */

  // Without cutting, the items between the ends. With cutting, x may also extend the upper end, if that
  // end reaches at least two bytes past the prefix that both ends share.
  ghost predicate Covers(info: TypeInfo, k: ByteRange, x: Bytes) {
    if info.trnc then Le(k.lower, x) && (Le(x, k.upper) || (k.upper <= x && |k.upper| >= CutLength(k)))
    else info.Leq(k.lower, x) && info.Leq(x, k.upper)
  }

  ghost predicate Ordered(info: TypeInfo, k: ByteRange) {
    info.Leq(k.lower, k.upper)
  }

  // x exceeds the upper end at most behind the first CutLength bytes. Unlike Covers, this survives widening.
  ghost predicate CoversLoosely(k: ByteRange, x: Bytes) {
    Le(k.lower, x) && Le(Take(x, CutLength(k)), k.upper)
  }

  lemma CoveredIsLoose(info: TypeInfo, k: ByteRange, x: Bytes)
    requires info.trnc && Covers(info, k, x)
    ensures CoversLoosely(k, x)
  {
    var c := CutLength(k);
    if Le(x, k.upper) {
      PrefixLe(Take(x, c), x);
      LeTransitive(Take(x, c), x, k.upper);
    } else {
      assert Take(x, c) == k.upper[..c];
      PrefixLe(Take(x, c), k.upper);
    }
  }

  // The two agree on keys that are no longer than a union makes them.
  lemma LooseIsCovered(info: TypeInfo, k: ByteRange, x: Bytes)
    requires info.trnc && |k.upper| <= CutLength(k) && CoversLoosely(k, x)
    ensures Covers(info, k, x)
  {
    if !Le(x, k.upper) {
      CutOrAbove(x, k.upper, CutLength(k));
    }
  }

  lemma WiderCovers(info: TypeInfo, k: ByteRange, w: ByteRange, x: Bytes)
    requires info.Valid() && info.trnc && Ordered(info, k) && CoversLoosely(k, x)
    requires info.Leq(w.lower, k.lower) && info.Leq(k.upper, w.upper)
    ensures CoversLoosely(w, x)
  {
    CutTypesUseLe(info, w.lower, k.lower);
    CutTypesUseLe(info, k.upper, w.upper);
    CutTypesUseLe(info, k.lower, k.upper);
    LeTransitive(w.lower, k.lower, x);
    CommonOfWider(w.lower, k.lower, k.upper, w.upper);
    var short, long := Take(x, CutLength(w)), Take(x, CutLength(k));
    PrefixLe(short, long);
    LeTransitive(short, long, k.upper);
    LeTransitive(short, k.upper, w.upper);
  }

  lemma HullBounds(info: TypeInfo, es: seq<ByteRange>, i: nat)
    requires info.Valid() && i < |es| && forall e | e in es :: Ordered(info, e)
    ensures info.Leq(Hull(info.cmp, es).lower, es[i].lower)
    ensures info.Leq(es[i].upper, Hull(info.cmp, es).upper)
    ensures Ordered(info, Hull(info.cmp, es))
  {
    HullBoundsEach(info.cmp, es, i);
    assert Ordered(info, es[i]);
    assert info.Leq(Hull(info.cmp, es).lower, es[i].upper);
  }

  lemma CutCovers(u: ByteRange, n: nat, x: Bytes)
    requires n >= CutLength(u) && CoversLoosely(u, x)
    ensures CoversLoosely(Cut(u, n), x)
  {
    var c := CutLength(u);
    PrefixLe(Take(u.lower, n), u.lower);
    LeTransitive(Take(u.lower, n), u.lower, x);
    CommonOfTaken(u.lower, u.upper, n);
    TakeMonotone(Take(x, c), u.upper, n);
    assert Take(Take(x, c), n) == Take(x, c);
  }

  lemma CutStaysOrdered(info: TypeInfo, u: ByteRange, n: nat)
    requires info.Valid() && info.trnc && Ordered(info, u)
    ensures Ordered(info, Cut(u, n))
  {
    CutTypesUseLe(info, u.lower, u.upper);
    TakeMonotone(u.lower, u.upper, n);
    CutTypesUseLe(info, Take(u.lower, n), Take(u.upper, n));
  }

  // Whatever an entry covers, the union covers, although the entry itself may have been cut before.
  lemma UnionCovers(info: TypeInfo, es: seq<ByteRange>, i: nat, x: Bytes)
    requires info.Valid() && i < |es| && (forall e | e in es :: Ordered(info, e))
    requires Covers(info, es[i], x)
    ensures Covers(info, Union(info, es), x)
  {
    if info.trnc {
      CoveredIsLoose(info, es[i], x);
    }
    UnionTightens(info, es, i, x);
  }

  // What every key of a tree keeps, whatever happens to it.
  ghost predicate Loose(info: TypeInfo, k: ByteRange, x: Bytes) {
    if info.trnc then CoversLoosely(k, x) else Covers(info, k, x)
  }

  // A union makes loose coverage strict again.
  lemma UnionTightens(info: TypeInfo, es: seq<ByteRange>, i: nat, x: Bytes)
    requires info.Valid() && i < |es| && (forall e | e in es :: Ordered(info, e))
    requires Loose(info, es[i], x)
    ensures Covers(info, Union(info, es), x)
  {
    HullBounds(info, es, i);
    var u := Hull(info.cmp, es);
    if info.trnc {
      WiderCovers(info, es[i], u, x);
      CutCovers(u, CutLength(u), x);
      CommonOfTaken(u.lower, u.upper, CutLength(u));
      LooseIsCovered(info, Union(info, es), x);
    }
  }

  lemma UnionIsOrdered(info: TypeInfo, es: seq<ByteRange>)
    requires info.Valid() && es != [] && (forall e | e in es :: Ordered(info, e))
    ensures Ordered(info, Union(info, es))
    ensures info.trnc ==> |Union(info, es).upper| <= CutLength(Union(info, es))
  {
    HullBounds(info, es, 0);
    var u := Hull(info.cmp, es);
    if info.trnc {
      CutStaysOrdered(info, u, CutLength(u));
      CommonOfTaken(u.lower, u.upper, CutLength(u));
    }
  }

  // The ends of a union: those of the hull, or if the type cuts its keys their beginnings, as long as they reach and at
  // most two bytes past what both ends share.
  lemma UnionKeepsBeginnings(info: TypeInfo, es: seq<ByteRange>)
    requires es != []
    ensures var h, u := Hull(info.cmp, es), Union(info, es);
            && u.lower <= h.lower && u.upper <= h.upper
            && (!info.trnc ==> u == h)
            && (info.trnc ==> IsBeginning(u.lower, h.lower, Common(h.lower, h.upper) + 2)
                              && IsBeginning(u.upper, h.upper, Common(h.lower, h.upper) + 2))
  {
  }

  // p is a prefix of a, of n bytes or all of a.
  predicate IsBeginning(p: Bytes, a: Bytes, n: nat) {
    p <= a && (|p| == n || (|p| == |a| && |a| <= n))
  }

  lemma LeafKeyCovers(info: TypeInfo, x: Bytes)
    requires info.Valid()
    ensures Ordered(info, LeafKey(x)) && Covers(info, LeafKey(x), x)
  {
    LeReflexive(x);
    assert info.Leq(x, x);
  }
}
