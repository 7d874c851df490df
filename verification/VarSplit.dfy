/**
  gbt_var_picksplit: sort the entries, give one half to each side, and cut both
  side keys at the larger of their common prefixes.
 */
module VarSplit {
  import opened Text
  import opened Wrappers
  import opened ByteOrder
  import opened VarKey
  import opened VarReach
  import opened VarCodec
  import opened RangeKey
  import opened Halving

  datatype Split = Split(left: seq<nat>, right: seq<nat>, leftKey: Bytes, rightKey: Bytes)

  // Where both side keys are cut.
  function SplitCut(u: ByteRange, v: ByteRange): nat {
    if CutLength(u) < CutLength(v) then CutLength(v) else CutLength(u)
  }

  function SideKey(info: TypeInfo, side: seq<ByteRange>, other: seq<ByteRange>): ByteRange
    requires side != [] && other != []
  {
    var u, v := Hull(info.cmp, side), Hull(info.cmp, other);
    if info.trnc then Cut(u, SplitCut(u, v)) else u
  }

  // The ends of a side key: beginnings of the ends of its hull, up to two bytes past the longer of what the ends
  // of its own hull share and what those of the other one do.
  lemma SideKeyKeepsBeginnings(info: TypeInfo, side: seq<ByteRange>, other: seq<ByteRange>)
    requires side != [] && other != [] && info.trnc
    ensures var u, v, k := Hull(info.cmp, side), Hull(info.cmp, other), SideKey(info, side, other);
            var own, others := Common(u.lower, u.upper), Common(v.lower, v.upper);
            var n := (if own < others then others else own) + 2;
            IsBeginning(k.lower, u.lower, n) && IsBeginning(k.upper, u.upper, n)
  {
  }

  /* Buffers */

  // Entries are numbered from one; cell 0 of the vector is not used.
  ghost predicate EntriesUsable(vector: seq<Bytes>) {
    forall i | 1 <= i < |vector| :: Usable(vector[i])
  }

  ghost function Ranges(vector: seq<Bytes>): (rs: seq<ByteRange>)
    ensures |rs| == |vector| && forall i | 0 <= i < |rs| && Usable(vector[i]) :: rs[i] == RangeOf(vector[i])
  {
    seq(|vector|, i requires 0 <= i < |vector| => if Usable(vector[i]) then RangeOf(vector[i]) else Range([], []))
  }

  // The datum is empty, or it is the hull of the entries given to its side.
  ghost predicate IsHull(info: TypeInfo, rs: seq<ByteRange>, datum: Option<Bytes>, side: seq<nat>) {
    match datum
    case None => side == []
    case Some(d) => side != [] && Within(side, |rs|) && Usable(d) && RangeOf(d) == Hull(info.cmp, KeysAt(rs, side))
  }

  method WidenBy(info: TypeInfo, vector: seq<Bytes>, datum: Option<Bytes>, ghost side: seq<nat>, o: nat) returns (d: Bytes)
    requires EntriesUsable(vector) && 1 <= o < |vector| && IsHull(info, Ranges(vector), datum, side)
    ensures IsHull(info, Ranges(vector), Some(d), side + [o])
  {
    ghost var rs := Ranges(vector);
    d := BinUnion(info, datum, vector[o]);
    hide Usable, Widen;
    HullGrows(info.cmp, rs[o], rs, side, o);
  }

  // The offsets are placed, and each datum is the hull of its side, after i - 1 entries.
  ghost predicate Progress(info: TypeInfo, vector: seq<Bytes>, order: seq<nat>, i: nat, nleft: nat, nright: nat,
                           ldatum: Option<Bytes>, rdatum: Option<Bytes>, llist: seq<nat>, rlist: seq<nat>)
  {
    && Placed(order, i, nleft, nright, llist, rlist)
    && IsHull(info, Ranges(vector), ldatum, order[..nleft])
    && IsHull(info, Ranges(vector), rdatum, order[nleft..i - 1])
  }

  method AddLeft(info: TypeInfo, vector: seq<Bytes>, order: seq<nat>, i: nat, nleft: nat, ghost nright: nat,
                 ldatum: Option<Bytes>, ghost rdatum: Option<Bytes>, llist: array<nat>, ghost rlist: array<nat>)
    returns (d: Bytes)
    requires EntriesUsable(vector) && 1 <= i <= |order| / 2 && 1 <= order[i - 1] < |vector|
    requires llist != rlist && |order| < llist.Length
    requires Progress(info, vector, order, i, nleft, nright, ldatum, rdatum, llist[..], rlist[..])
    modifies llist
    ensures Progress(info, vector, order, i + 1, nleft + 1, nright, Some(d), rdatum, llist[..], rlist[..])
  {
    hide IsHull, Ranges, EntriesUsable;
    d := WidenBy(info, vector, ldatum, order[..nleft], order[i - 1]);
    PlaceLeft(order, i, nleft, nright, llist, rlist);
  }

  method AddRight(info: TypeInfo, vector: seq<Bytes>, order: seq<nat>, i: nat, ghost nleft: nat, nright: nat,
                  ghost ldatum: Option<Bytes>, rdatum: Option<Bytes>, ghost llist: array<nat>, rlist: array<nat>)
    returns (d: Bytes)
    requires EntriesUsable(vector) && |order| / 2 < i <= |order| && 1 <= order[i - 1] < |vector|
    requires llist != rlist && |order| < rlist.Length
    requires Progress(info, vector, order, i, nleft, nright, ldatum, rdatum, llist[..], rlist[..])
    modifies rlist
    ensures Progress(info, vector, order, i + 1, nleft, nright + 1, ldatum, Some(d), llist[..], rlist[..])
  {
    hide IsHull, Ranges, EntriesUsable;
    d := WidenBy(info, vector, rdatum, order[nleft..i - 1], order[i - 1]);
    PlaceRight(order, i, nleft, nright, llist, rlist);
  }

  // The loop over the sorted entries: the first half left, the rest right.
  method Distribute(info: TypeInfo, vector: seq<Bytes>, order: seq<nat>)
    returns (left: seq<nat>, right: seq<nat>, ldatum: Option<Bytes>, rdatum: Option<Bytes>)
    requires |vector| >= 3 && |order| == |vector| - 1 && EntriesUsable(vector)
    requires forall i | 0 <= i < |order| :: 1 <= order[i] < |vector|
    ensures left == order[..|order| / 2] && right == order[|order| / 2..]
    ensures IsHull(info, Ranges(vector), ldatum, left) && IsHull(info, Ranges(vector), rdatum, right)
  {
    hide IsHull, Ranges, EntriesUsable, Placed, Progress;
    var maxoff := |vector| - 1;
    var splLeft, splRight := new nat[maxoff + 2], new nat[maxoff + 2];
    var nleft, nright := 0, 0;
    ldatum, rdatum := None, None;
    NothingYet(info, vector, order, splLeft[..], splRight[..]);
    var i := 1;
    while i <= maxoff
      invariant 1 <= i <= maxoff + 1
      invariant Progress(info, vector, order, i, nleft, nright, ldatum, rdatum, splLeft[..], splRight[..])
    {
      if i <= maxoff / 2 {
        var d := AddLeft(info, vector, order, i, nleft, nright, ldatum, rdatum, splLeft, splRight);
        ldatum, nleft := Some(d), nleft + 1;
      } else {
        var d := AddRight(info, vector, order, i, nleft, nright, ldatum, rdatum, splLeft, splRight);
        rdatum, nright := Some(d), nright + 1;
      }
      i := i + 1;
    }
    Finished(info, vector, order, nleft, nright, ldatum, rdatum, splLeft[..], splRight[..]);
    left, right := splLeft[..][..nleft], splRight[..][..nright];
  }

  lemma NothingYet(info: TypeInfo, vector: seq<Bytes>, order: seq<nat>, llist: seq<nat>, rlist: seq<nat>)
    ensures Progress(info, vector, order, 1, 0, 0, None, None, llist, rlist)
  {
    NothingPlaced(order, llist, rlist);
  }

  lemma Finished(info: TypeInfo, vector: seq<Bytes>, order: seq<nat>, nleft: nat, nright: nat,
                 ldatum: Option<Bytes>, rdatum: Option<Bytes>, llist: seq<nat>, rlist: seq<nat>)
    requires Progress(info, vector, order, |order| + 1, nleft, nright, ldatum, rdatum, llist, rlist)
    ensures nleft <= |llist| && llist[..nleft] == order[..|order| / 2]
    ensures nright <= |rlist| && rlist[..nright] == order[|order| / 2..]
    ensures IsHull(info, Ranges(vector), ldatum, order[..|order| / 2]) && IsHull(info, Ranges(vector), rdatum, order[|order| / 2..])
  {
    AllPlaced(order, nleft, nright, llist, rlist);
    assert order[nleft..|order|] == order[nleft..];
  }

  method PickSplit(info: TypeInfo, vector: seq<Bytes>, order: seq<nat>) returns (v: Split)
    requires |vector| >= 3 && EntriesUsable(vector) && SortedOffsets(Ranges(vector), order, SortCmp(info.cmp))
    ensures v.left == order[..|order| / 2] && v.right == order[|order| / 2..]
    ensures v.left != [] && v.right != [] && Within(v.left, |vector|) && Within(v.right, |vector|)
    ensures Usable(v.leftKey) && Usable(v.rightKey)
    ensures var l, r := KeysAt(Ranges(vector), v.left), KeysAt(Ranges(vector), v.right);
            RangeOf(v.leftKey) == SideKey(info, l, r) && RangeOf(v.rightKey) == SideKey(info, r, l)
  {
    hide Hull, Common, KeyReadable, WellFormed;
    var left, right, ldatum, rdatum := Distribute(info, vector, order);
    var dl, dr := ldatum.value, rdatum.value;
    if info.trnc {
      var ll := NodeCpLen(dl);
      var lr := NodeCpLen(dr);
      ll := if ll < lr then lr else ll;
      ll := ll + 1;
      dl := NodeTruncate(dl, ll);
      dr := NodeTruncate(dr, ll);
    }
    v := Split(left, right, dl, dr);
  }

  /* What a side key still covers */

  // The entry was cut before, the hull u of its side goes on past that cut, within the n bytes that are kept,
  // with a byte that can be exceeded, and the lower end of the hull does not help.
  ghost predicate Outruns(e: ByteRange, u: ByteRange, n: nat) {
    var h := Head(e);
    && |h| >= CutLength(e)
    && h <= u.upper
    && !(u.lower <= h)
    && exists i | |h| <= i < |u.upper| :: i < n && u.upper[i] < 255
  }

  // An entry that is an exact leaf key was never cut.
  lemma LeafEntriesAreNeverOutrun(x: Bytes, u: ByteRange, n: nat)
    ensures !Outruns(LeafKey(x), u, n)
  {
    CommonSelf(x);
  }

  // A side key reaches everything between the ends it was cut from.
  lemma BetweenIsReached(u: ByteRange, n: nat, x: Bytes)
    requires n >= CutLength(u) && Le(u.lower, x) && Le(x, u.upper)
    ensures Reaches(Cut(u, n), x)
  {
    var k := Cut(u, n);
    PrefixLe(k.lower, u.lower);
    PrefixLe(k.upper, u.upper);
    LeTransitive(k.lower, u.lower, x);
    if !Le(x, k.upper) {
      LeTotal(x, k.upper);
      BetweenExtensions(k.upper, x, u.upper);
    }
    if k.lower == k.upper {
      CutEndsDiffer(u, n);
      LeAntisymmetric(x, u.lower);
    }
  }

  lemma CutEndsDiffer(u: ByteRange, n: nat)
    requires n >= CutLength(u) && Take(u.lower, n) == Take(u.upper, n)
    ensures u.lower == u.upper && Take(u.lower, n) == u.lower
  {
    CommonOfTaken(u.lower, u.upper, n);
    CommonSelf(Take(u.lower, n));
  }

  // e is one of the entries from which the side key was made: its range lies within u.
  ghost predicate Inside(e: ByteRange, u: ByteRange) {
    Le(u.lower, e.lower) && Le(e.lower, e.upper) && Le(e.upper, u.upper)
  }

  lemma HeadInside(e: ByteRange, u: ByteRange)
    requires Inside(e, u) && |Head(e)| >= CutLength(e)
    ensures Le(e.lower, Head(e)) && Le(Head(e), u.upper) && Le(u.lower, Head(e))
  {
    var h := Head(e);
    if e.lower <= e.upper {
      PrefixIsCommon(e.lower, e.upper);
      assert e.lower == e.upper[..|e.lower|] == h[..|e.lower|];
      PrefixLe(e.lower, h);
    }
    assert h <= e.upper;
    PrefixLe(h, e.upper);
    LeTransitive(h, e.upper, u.upper);
    LeTransitive(u.lower, e.lower, h);
  }

  lemma ExtensionIsReached(e: ByteRange, u: ByteRange, n: nat, x: Bytes)
    requires n >= CutLength(u) && Inside(e, u)
    requires |Head(e)| >= CutLength(e) && Head(e) <= x && !Outruns(e, u, n)
    ensures Reaches(Cut(u, n), x)
  {
    var k, h := Cut(u, n), Head(e);
    HeadInside(e, u);
    PrefixLe(k.lower, u.lower);
    PrefixLe(k.upper, u.upper);
    PrefixLe(h, x);
    LeTransitive(k.lower, u.lower, h);
    LeTransitive(k.lower, h, x);
    if !(k.upper <= h) {
      LeTotal(h, k.upper);
      if !Le(h, k.upper) {
        BetweenExtensions(k.upper, h, u.upper);
      }
      if !(h <= k.upper) {
        ExtensionsStayBelow(h, k.upper, x);
      } else if !(k.lower <= h) && !Le(x, k.upper) {
        assert h == h[..|h|] == x[..|h|] == k.upper[..|h|];
        assert forall i | |h| <= i < |k.upper| :: k.upper[i] == u.upper[i];
        ExceedsByExtending(k.upper, x, |h|);
      }
    }
    if k.lower == k.upper {
      CutEndsDiffer(u, n);
      EqualEndsAreUncut(e, u);
      assert false;
    }
  }

  lemma EqualEndsAreUncut(e: ByteRange, u: ByteRange)
    requires Inside(e, u) && u.lower == u.upper
    ensures |Head(e)| < CutLength(e)
  {
    LeTransitive(e.lower, e.upper, u.upper);
    LeTransitive(u.lower, e.lower, e.upper);
    LeAntisymmetric(e.lower, u.lower);
    LeAntisymmetric(e.upper, u.lower);
    CommonSelf(e.upper);
  }

  // An item the cut entry stands for and the side key turns away.
  lemma OutrunEntryLosesItem(info: TypeInfo, e: ByteRange, u: ByteRange, n: nat) returns (x: Bytes)
    requires info.Valid() && info.trnc && Inside(e, u) && Outruns(e, u, n)
    ensures StandsFor(info, e, x) && !Reaches(Cut(u, n), x)
  {
    var k, h := Cut(u, n), Head(e);
    var i :| |h| <= i < |u.upper| && i < n && u.upper[i] < 255;
    assert i < |k.upper| && k.upper[i] == u.upper[i];
    x := Above(k.upper, i);
    AboveIsGreater(k.upper, i);
    assert h <= k.upper[..i] <= x;
    HeadInside(e, u);
    PrefixLe(h, x);
    LeTransitive(e.lower, h, x);
    BehindHeadStands(info, e, x);
    if k.lower <= x {
      LowerEndDoesNotHelp(u, n, h, x);
      assert false;
    }
  }

  lemma LowerEndDoesNotHelp(u: ByteRange, n: nat, h: Bytes, x: Bytes)
    requires h <= x && Le(u.lower, h) && !(u.lower <= h) && |h| < n
    ensures !(Take(u.lower, n) <= x)
  {
    var lo := Take(u.lower, n);
    if lo <= x && |h| < |lo| {
      assert h == lo[..|h|];
      PrefixLe(h, lo);
      PrefixLe(lo, u.lower);
      LeTransitive(lo, u.lower, h);
      LeAntisymmetric(h, lo);
    }
  }

  // Exactly when a side key of the split keeps everything that one of its entries may stand for.
  lemma SplitKeepsEntry(info: TypeInfo, side: seq<ByteRange>, other: seq<ByteRange>, i: nat)
    requires info.Valid() && info.trnc && i < |side| && other != [] && forall e | e in side :: Ordered(info, e)
    ensures var u, v := Hull(info.cmp, side), Hull(info.cmp, other);
            (forall x | StandsFor(info, side[i], x) :: NeverMisses(info, SideKey(info, side, other), x))
            <==> !Outruns(side[i], u, SplitCut(u, v))
  {
    var e, u := side[i], Hull(info.cmp, side);
    var n := SplitCut(u, Hull(info.cmp, other));
    var k := SideKey(info, side, other);
    HullBounds(info, side, i);
    assert Ordered(info, e);
    EntryInside(info, e, u);
    CutStaysOrdered(info, u, n);
    CutTypesUseLe(info, k.lower, k.upper);
    hide Hull, Reaches, StandsFor, NeverMisses, Outruns;
    if Outruns(e, u, n) {
      var x := OutrunEntryLosesItem(info, e, u, n);
      NeverMissesIsReaches(info, k, x);
    } else {
      forall x | StandsFor(info, e, x)
        ensures NeverMisses(info, k, x)
      {
        SideKeyReaches(info, e, u, n, x);
        NeverMissesIsReaches(info, k, x);
      }
    }
  }

  lemma EntryInside(info: TypeInfo, e: ByteRange, u: ByteRange)
    requires info.Valid() && info.trnc && Ordered(info, e) && info.Leq(u.lower, e.lower) && info.Leq(e.upper, u.upper)
    ensures Inside(e, u)
  {
    CutTypesUseLe(info, u.lower, e.lower);
    CutTypesUseLe(info, e.upper, u.upper);
    CutTypesUseLe(info, e.lower, e.upper);
  }

  lemma SideKeyReaches(info: TypeInfo, e: ByteRange, u: ByteRange, n: nat, x: Bytes)
    requires info.Valid() && info.trnc && n >= CutLength(u) && Inside(e, u) && Ordered(info, e)
    requires StandsFor(info, e, x) && !Outruns(e, u, n)
    ensures Reaches(Cut(u, n), x)
  {
    StandsByHead(info, e, x);
    hide Reaches, Outruns, StandsFor;
    if Le(x, e.upper) {
      LeTransitive(u.lower, e.lower, x);
      LeTransitive(x, e.upper, u.upper);
      BetweenIsReached(u, n, x);
    } else {
      ExtensionIsReached(e, u, n, x);
    }
  }

  // A page of leaf entries may always be split.
  lemma LeafSplitKeepsItems(info: TypeInfo, side: seq<ByteRange>, other: seq<ByteRange>, i: nat)
    requires info.Valid() && i < |side| && other != [] && forall e | e in side :: e == LeafKey(e.lower)
    ensures NeverMisses(info, SideKey(info, side, other), side[i].lower)
  {
    var x := side[i].lower;
    forall e | e in side
      ensures Ordered(info, e)
    {
      LeafKeyCovers(info, e.lower);
    }
    assert side[i] == LeafKey(x);
    LeafKeyCovers(info, x);
    if info.trnc {
      var u := Hull(info.cmp, side);
      LeafEntriesAreNeverOutrun(x, u, SplitCut(u, Hull(info.cmp, other)));
      CoveredStands(info, LeafKey(x), x);
      SplitKeepsEntry(info, side, other, i);
    } else {
      HullBounds(info, side, i);
      forall s, q | Satisfies(info.cmp, x, s, q)
        ensures Consistent(info, SideKey(info, side, other), q, s, false)
      {
        InnerTestAcceptsBetween(info, SideKey(info, side, other), x, s, q);
      }
    }
  }
}
