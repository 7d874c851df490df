/**
  What range keys have in common, whatever their values: two ends, the hull of
  several keys, the order in which a split sorts them, and the six operators.
 */
module RangeKey {
  import opened Halving

  datatype Range<V> = Range(lower: V, upper: V)

  predicate AtMost<V>(cmp: (V, V) -> int, a: V, b: V) {
    cmp(a, b) <= 0
  }

  // The comparison of a type. Its operators f_lt .. f_gt are taken to agree with it.
  ghost predicate TotalPreorder<V(!new)>(cmp: (V, V) -> int) {
    && (forall a :: AtMost(cmp, a, a))
    && (forall a, b :: cmp(a, b) < 0 <==> cmp(b, a) > 0)
    && (forall a, b, c :: AtMost(cmp, a, b) && AtMost(cmp, b, c) ==> AtMost(cmp, a, c))
  }

  function LeafKey<V>(x: V): Range<V> {
    Range(x, x)
  }

  function Widen<V>(cmp: (V, V) -> int, u: Range<V>, e: Range<V>): Range<V> {
    Range(if cmp(u.lower, e.lower) > 0 then e.lower else u.lower,
          if cmp(u.upper, e.upper) < 0 then e.upper else u.upper)
  }

  function Hull<V>(cmp: (V, V) -> int, es: seq<Range<V>>): Range<V>
    requires es != []
  {
    if |es| == 1 then es[0] else Widen(cmp, Hull(cmp, es[..|es| - 1]), es[|es| - 1])
  }

  lemma WidenBounds<V(!new)>(cmp: (V, V) -> int, u: Range<V>, e: Range<V>)
    requires TotalPreorder(cmp)
    ensures var w := Widen(cmp, u, e);
            && AtMost(cmp, w.lower, u.lower) && AtMost(cmp, w.lower, e.lower)
            && AtMost(cmp, u.upper, w.upper) && AtMost(cmp, e.upper, w.upper)
  {
    assert cmp(e.lower, u.lower) < 0 <==> cmp(u.lower, e.lower) > 0;
    assert cmp(u.upper, e.upper) < 0 <==> cmp(e.upper, u.upper) > 0;
    assert AtMost(cmp, u.lower, u.lower) && AtMost(cmp, e.lower, e.lower);
    assert AtMost(cmp, u.upper, u.upper) && AtMost(cmp, e.upper, e.upper);
  }

  lemma {:induction false} HullBoundsEach<V(!new)>(cmp: (V, V) -> int, es: seq<Range<V>>, i: nat)
    requires TotalPreorder(cmp) && i < |es|
    ensures AtMost(cmp, Hull(cmp, es).lower, es[i].lower) && AtMost(cmp, es[i].upper, Hull(cmp, es).upper)
    decreases |es|
  {
    var last := |es| - 1;
    if last > 0 {
      WidenBounds(cmp, Hull(cmp, es[..last]), es[last]);
      if i < last {
        HullBoundsEach(cmp, es[..last], i);
      }
    }
  }

  lemma {:induction false} HullEndsAreTheirs<V>(cmp: (V, V) -> int, es: seq<Range<V>>) returns (i: nat, j: nat)
    requires es != []
    ensures i < |es| && es[i].lower == Hull(cmp, es).lower
    ensures j < |es| && es[j].upper == Hull(cmp, es).upper
    decreases |es|
  {
    i, j := 0, 0;
    var last := |es| - 1;
    if last > 0 {
      var g := Hull(cmp, es[..last]);
      i, j := HullEndsAreTheirs(cmp, es[..last]);
      i := if cmp(g.lower, es[last].lower) > 0 then last else i;
      j := if cmp(g.upper, es[last].upper) < 0 then last else j;
    }
  }

  // The tightest range around the entries: it holds each of them and both its ends are theirs.
  lemma HullIsTightest<V(!new)>(cmp: (V, V) -> int, es: seq<Range<V>>)
    requires TotalPreorder(cmp) && es != []
    ensures var h := Hull(cmp, es);
            && (forall i | 0 <= i < |es| :: AtMost(cmp, h.lower, es[i].lower) && AtMost(cmp, es[i].upper, h.upper))
            && (exists i | 0 <= i < |es| :: es[i].lower == h.lower)
            && (exists i | 0 <= i < |es| :: es[i].upper == h.upper)
  {
    hide Hull, TotalPreorder;
    var i, j := HullEndsAreTheirs(cmp, es);
    forall k | 0 <= k < |es|
      ensures AtMost(cmp, Hull(cmp, es).lower, es[k].lower) && AtMost(cmp, es[k].upper, Hull(cmp, es).upper)
    {
      HullBoundsEach(cmp, es, k);
    }
  }

  /* Operators */

  datatype Strategy = Less | LessEqual | Equal | GreaterEqual | Greater | NotEqual | Other

  // x <operator> q
  predicate Satisfies<V>(cmp: (V, V) -> int, x: V, s: Strategy, q: V) {
    match s
    case Less => cmp(x, q) < 0
    case LessEqual => cmp(x, q) <= 0
    case Equal => cmp(x, q) == 0
    case GreaterEqual => cmp(x, q) >= 0
    case Greater => cmp(x, q) > 0
    case NotEqual => cmp(x, q) != 0
    case Other => false
  }

  /* Splits */

  // By lower end, then by upper end.
  function SortCmp<V>(cmp: (V, V) -> int): (Range<V>, Range<V>) -> int {
    (a: Range<V>, b: Range<V>) =>
      var c := cmp(a.lower, b.lower);
      if c == 0 then cmp(a.upper, b.upper) else c
  }

  // So entries that go left have no larger lower end than entries that go right, and with equal ones no larger upper end.
  lemma HalvesOrderedByEnds<V(!new)>(cmp: (V, V) -> int, vector: seq<Range<V>>, order: seq<nat>, i: nat, j: nat)
    requires |vector| >= 3 && TotalPreorder(cmp) && SortedOffsets(vector, order, SortCmp(cmp))
    requires i < |order| / 2 <= j < |order|
    ensures var l, r := vector[order[i]], vector[order[j]];
            AtMost(cmp, l.lower, r.lower) && (AtMost(cmp, r.lower, l.lower) ==> AtMost(cmp, l.upper, r.upper))
  {
    var l, r := vector[order[i]], vector[order[j]];
    assert SortCmp(cmp)(l, r) <= 0;
    assert cmp(l.lower, r.lower) < 0 <==> cmp(r.lower, l.lower) > 0;
  }

  // Hull of the entries at the given offsets; `none` before the first entry.
  ghost function HullAt<V>(cmp: (V, V) -> int, none: Range<V>, vector: seq<Range<V>>, offsets: seq<nat>): Range<V> {
    if offsets == [] || !Within(offsets, |vector|) then none else Hull(cmp, KeysAt(vector, offsets))
  }

  lemma HullGrows<V>(cmp: (V, V) -> int, none: Range<V>, vector: seq<Range<V>>, offsets: seq<nat>, o: nat)
    requires Within(offsets, |vector|) && o < |vector|
    ensures Within(offsets + [o], |vector|)
    ensures HullAt(cmp, none, vector, offsets + [o])
         == if offsets == [] then vector[o] else Widen(cmp, HullAt(cmp, none, vector, offsets), vector[o])
  {
    var es := KeysAt(vector, offsets + [o]);
    assert es[..|es| - 1] == KeysAt(vector, offsets);
  }
}
