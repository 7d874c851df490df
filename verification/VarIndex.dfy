/**
  A GiST index over variable-length keys: what its keys keep and what a search
  finds after any run of insertions, deletions and page splits.
 */
module VarIndex {
  import opened Text
  import opened ByteOrder
  import opened RangeKey
  import opened Halving
  import opened VarKey
  import opened VarReach
  import opened VarSplit
  import opened SplitOffsets
  import GistTree

  type Index = GistTree.Tree<ByteRange, Bytes>
  type Action = GistTree.Action<ByteRange, Bytes>

  function SearchIndex(info: TypeInfo, t: Index, s: Strategy, q: Bytes): seq<Bytes> {
    GistTree.Search(t, x => Consistent(info, LeafKey(x), q, s, true), k => Consistent(info, k, q, s, false))
  }

  ghost predicate SearchIsExact(info: TypeInfo, t: Index, s: Strategy, q: Bytes) {
    SearchIndex(info, t, s, q) == GistTree.Filter(GistTree.Items(t), x => Satisfies(info.cmp, x, s, q))
  }

  ghost predicate BuiltByUnion(info: TypeInfo, t: Index) {
    GistTree.Built(t, LeafKey, es => Union(info, es))
  }

  /* Splits */

  // k is the key that picksplit makes for the entries ks, in some order, when js go to the other side.
  ghost predicate SplitKey(info: TypeInfo, k: ByteRange, ks: seq<ByteRange>, js: seq<ByteRange>) {
    exists a, b :: SideOf(info, k, ks, js, a, b)
  }

  ghost predicate SideOf(info: TypeInfo, k: ByteRange, ks: seq<ByteRange>, js: seq<ByteRange>,
                         a: seq<ByteRange>, b: seq<ByteRange>)
  {
    SameMembers(a, ks) && SameMembers(b, js) && a != [] && b != [] && k == SideKey(info, a, b)
  }

  // The same, and no entry is outrun by its side; for types without cutting that is no condition.
  ghost predicate KeepingSplitKey(info: TypeInfo, k: ByteRange, ks: seq<ByteRange>, js: seq<ByteRange>) {
    exists a, b :: SideOf(info, k, ks, js, a, b) && KeepsAll(info, a, b)
  }

  ghost predicate KeepsAll(info: TypeInfo, a: seq<ByteRange>, b: seq<ByteRange>)
    requires a != [] && b != []
  {
    var u, v := Hull(info.cmp, a), Hull(info.cmp, b);
    info.trnc ==> forall e | e in a :: !Outruns(e, u, SplitCut(u, v))
  }

  ghost function AnySplit(info: TypeInfo): GistTree.SplitRule<ByteRange> {
    GistTree.SplitRule((k, ks, js) => SplitKey(info, k, ks, js), true)
  }

  ghost function KeepingSplit(info: TypeInfo): GistTree.SplitRule<ByteRange> {
    GistTree.SplitRule((k, ks, js) => KeepingSplitKey(info, k, ks, js), true)
  }

  // A run with every split that picksplit may make.
  ghost function Reached(info: TypeInfo, t: Index, actions: seq<Action>): Index {
    GistTree.Run(t, actions, LeafKey, es => Union(info, es), AnySplit(info))
  }

  // A run in which no split outruns an entry.
  ghost function ReachedKeeping(info: TypeInfo, t: Index, actions: seq<Action>): Index {
    GistTree.Run(t, actions, LeafKey, es => Union(info, es), KeepingSplit(info))
  }

  /* What every run keeps */

  lemma UnionKeepsCovers(info: TypeInfo)
    requires info.Valid()
    ensures GistTree.UnionKeeps((k, x) => Covers(info, k, x), k => Ordered(info, k), LeafKey, es => Union(info, es))
    ensures GistTree.UnionKeeps((k, x) => StandsFor(info, k, x), k => Ordered(info, k), LeafKey, es => Union(info, es))
    ensures GistTree.UnionKeeps((k, x) => Loose(info, k, x), k => Ordered(info, k), LeafKey, es => Union(info, es))
  {
    forall x
      ensures Ordered(info, LeafKey(x)) && Covers(info, LeafKey(x), x) && StandsFor(info, LeafKey(x), x)
    {
      LeafKeyCovers(info, x);
      CoveredStands(info, LeafKey(x), x);
    }
    forall es: seq<ByteRange> | es != [] && (forall e | e in es :: Ordered(info, e))
      ensures Ordered(info, Union(info, es))
    {
      UnionIsOrdered(info, es);
    }
    forall es: seq<ByteRange>, e, x {:trigger Loose(info, e, x), Union(info, es)} |
      e in es && (forall e' | e' in es :: Ordered(info, e')) && Loose(info, e, x)
      ensures Covers(info, Union(info, es), x) && StandsFor(info, Union(info, es), x)
    {
      var i :| 0 <= i < |es| && es[i] == e;
      UnionTightens(info, es, i, x);
      CoveredStands(info, Union(info, es), x);
    }
    forall k, x | Covers(info, k, x)
      ensures Loose(info, k, x)
    {
      CoveredStands(info, k, x);
    }
  }

  // A side key keeps its ends in order and loosely covers what its entries loosely cover.
  lemma SideKeyStaysLoose(info: TypeInfo, side: seq<ByteRange>, other: seq<ByteRange>, i: nat, x: Bytes)
    requires info.Valid() && i < |side| && other != [] && (forall e | e in side :: Ordered(info, e))
    ensures Ordered(info, SideKey(info, side, other))
    ensures Loose(info, side[i], x) ==> Loose(info, SideKey(info, side, other), x)
  {
    HullBounds(info, side, i);
    var u := Hull(info.cmp, side);
    var n := SplitCut(u, Hull(info.cmp, other));
    if info.trnc {
      CutStaysOrdered(info, u, n);
      if Loose(info, side[i], x) {
        WiderCovers(info, side[i], u, x);
        CutCovers(u, n, x);
      }
    }
  }

  // Every split keeps all keys loosely covering.
  lemma AnySplitKeepsLoose(info: TypeInfo)
    requires info.Valid()
    ensures GistTree.SplitKeeps((k, x) => Loose(info, k, x), k => Ordered(info, k), LeafKey, AnySplit(info))
  {
    forall k, xs: seq<Bytes>, ys: seq<Bytes> |
      xs != [] && ys != [] && AnySplit(info).key(k, GistTree.Keys(xs, LeafKey), GistTree.Keys(ys, LeafKey))
      ensures Ordered(info, k) && forall x | x in xs :: Loose(info, k, x)
    {
      LeafKeysAreOrdered(info, xs);
      SplitStaysLoose(info, k, GistTree.Keys(xs, LeafKey), GistTree.Keys(ys, LeafKey));
      LooseOnPage(info, k, xs);
    }
    forall k, ks, js | ks != [] && js != [] && AnySplit(info).key(k, ks, js) && (forall e | e in ks + js :: Ordered(info, e))
      ensures Ordered(info, k) && forall e, x | e in ks && Loose(info, e, x) :: Loose(info, k, x)
    {
      SplitStaysLoose(info, k, ks, js);
    }
  }

  lemma LeafKeysAreOrdered(info: TypeInfo, xs: seq<Bytes>)
    requires info.Valid()
    ensures forall e | e in GistTree.Keys(xs, LeafKey) :: Ordered(info, e) && e == LeafKey(e.lower)
  {
    forall e | e in GistTree.Keys(xs, LeafKey)
      ensures Ordered(info, e) && e == LeafKey(e.lower)
    {
      LeafKeyCovers(info, e.lower);
    }
  }

  lemma LooseOnPage(info: TypeInfo, k: ByteRange, xs: seq<Bytes>)
    requires info.Valid() && forall e, x | e in GistTree.Keys(xs, LeafKey) && Loose(info, e, x) :: Loose(info, k, x)
    ensures forall x | x in xs :: Loose(info, k, x)
  {
    forall x | x in xs
      ensures Loose(info, k, x)
    {
      var i :| 0 <= i < |xs| && xs[i] == x;
      assert GistTree.Keys(xs, LeafKey)[i] == LeafKey(x);
      LeafKeyCovers(info, x);
      CoveredStands(info, LeafKey(x), x);
    }
  }

  lemma SplitStaysLoose(info: TypeInfo, k: ByteRange, ks: seq<ByteRange>, js: seq<ByteRange>)
    requires info.Valid() && SplitKey(info, k, ks, js) && forall e | e in ks :: Ordered(info, e)
    ensures Ordered(info, k) && forall e, x | e in ks && Loose(info, e, x) :: Loose(info, k, x)
  {
    var a, b :| SideOf(info, k, ks, js, a, b);
    forall e | e in a
      ensures Ordered(info, e)
    {
      assert e in ks;
    }
    SideKeyStaysLoose(info, a, b, 0, []);
    hide SideKey, Loose, Ordered;
    forall e, x | e in ks && Loose(info, e, x)
      ensures Loose(info, k, x)
    {
      assert e in a;
      var i :| 0 <= i < |a| && a[i] == e;
      SideKeyStaysLoose(info, a, b, i, x);
    }
  }

  // For every tree built by unions and every run of insertions, deletions and splits, whatever they cut:
  // all keys keep their ends in order and loosely cover every item below them.
  lemma RunStaysLoose(info: TypeInfo, t: Index, actions: seq<Action>)
    requires info.Valid() && BuiltByUnion(info, t)
    ensures GistTree.Sound(Reached(info, t, actions), (k, x) => Loose(info, k, x), k => Ordered(info, k))
  {
    UnionKeepsCovers(info);
    AnySplitKeepsLoose(info);
    hide *;
    GistTree.BuiltIsSound(t, (k, x) => Loose(info, k, x), k => Ordered(info, k), LeafKey, es => Union(info, es));
    GistTree.RunKeepsSound(t, actions, (k, x) => Loose(info, k, x), k => Ordered(info, k), LeafKey,
                           es => Union(info, es), AnySplit(info));
  }

  /* When a search is exact */

  // Below every inner key there are only items that the key reaches.
  ghost predicate AllReached(t: Index) {
    t.Inner? ==> forall kid | kid in t.kids :: (forall x | x in GistTree.Items(kid) :: Reaches(kid.key, x)) && AllReached(kid)
  }

  ghost predicate AllOrdered(info: TypeInfo, t: Index) {
    Ordered(info, t.key) && (t.Inner? ==> forall kid | kid in t.kids :: AllOrdered(info, kid))
  }

  lemma {:induction false} SoundIsOrdered(info: TypeInfo, t: Index, covers: (ByteRange, Bytes) -> bool)
    requires GistTree.Sound(t, covers, k => Ordered(info, k))
    ensures AllOrdered(info, t)
  {
    if t.Inner? {
      forall kid | kid in t.kids
        ensures AllOrdered(info, kid)
      {
        SoundIsOrdered(info, kid, covers);
      }
    }
  }

  // A single search is exact exactly if no subtree with a match is pruned.
  lemma ExactIsUnpruned(info: TypeInfo, t: Index, s: Strategy, q: Bytes)
    requires info.Valid()
    ensures SearchIsExact(info, t, s, q) <==>
      GistTree.NothingPruned(t, x => Satisfies(info.cmp, x, s, q), k => Consistent(info, k, q, s, false))
  {
    var leaf := x => Consistent(info, LeafKey(x), q, s, true);
    var match_ := x => Satisfies(info.cmp, x, s, q);
    var node := k => Consistent(info, k, q, s, false);
    forall x
      ensures leaf(x) == match_(x)
    {
      LeafTestIsOperator(info, x, s, q);
    }
    SameSearch(t, leaf, match_, node);
    GistTree.SearchIsFilterExactlyWhen(t, match_, node);
  }

  lemma {:induction false} SameSearch(t: Index, a: Bytes -> bool, b: Bytes -> bool, node: ByteRange -> bool)
    requires forall x :: a(x) == b(x)
    ensures GistTree.Search(t, a, node) == GistTree.Search(t, b, node)
    decreases t, 1
  {
    match t
    case Page(_, items) => GistTree.FilterSame(items, a, b);
    case Inner(_, kids) => SameSearchBelow(kids, a, b, node);
  }

  lemma {:induction false} SameSearchBelow(ts: seq<Index>, a: Bytes -> bool, b: Bytes -> bool, node: ByteRange -> bool)
    requires forall x :: a(x) == b(x)
    ensures GistTree.SearchBelow(ts, a, node) == GistTree.SearchBelow(ts, b, node)
    decreases ts, 0
  {
    if ts != [] {
      SameSearch(ts[0], a, b, node);
      SameSearchBelow(ts[1..], a, b, node);
    }
  }

  lemma {:induction false} ReachedIsUnpruned(info: TypeInfo, t: Index, s: Strategy, q: Bytes)
    requires info.Valid() && info.trnc && AllOrdered(info, t) && AllReached(t)
    ensures GistTree.NothingPruned(t, x => Satisfies(info.cmp, x, s, q), k => Consistent(info, k, q, s, false))
  {
    if t.Inner? {
      var leaf := x => Satisfies(info.cmp, x, s, q);
      var node := k => Consistent(info, k, q, s, false);
      forall kid | kid in t.kids
        ensures GistTree.PassedOver(kid, leaf, node) && GistTree.NothingPruned(kid, leaf, node)
      {
        ReachedIsUnpruned(info, kid, s, q);
        var found := GistTree.Filter(GistTree.Items(kid), leaf);
        if found != [] {
          assert found[0] in found;
          CutTypesUseLe(info, kid.key.lower, kid.key.upper);
          ReachesAccepts(info, kid.key, found[0], s, q);
        }
      }
    }
  }

  lemma {:induction false} UnprunedIsReached(info: TypeInfo, t: Index)
    requires info.Valid() && info.trnc && AllOrdered(info, t)
    requires forall s, q :: Unpruned(info, t, s, q)
    ensures AllReached(t)
  {
    if t.Inner? {
      forall kid | kid in t.kids
        ensures (forall x | x in GistTree.Items(kid) :: Reaches(kid.key, x)) && AllReached(kid)
      {
        forall s, q
          ensures Unpruned(info, kid, s, q)
        {
          assert Unpruned(info, t, s, q);
        }
        UnprunedIsReached(info, kid);
        forall x | x in GistTree.Items(kid)
          ensures Reaches(kid.key, x)
        {
          CutTypesUseLe(info, kid.key.lower, kid.key.upper);
          KidNeverMisses(info, t, kid, x);
          NeverMissesIsReaches(info, kid.key, x);
        }
      }
    }
  }

  ghost predicate Unpruned(info: TypeInfo, t: Index, s: Strategy, q: Bytes) {
    GistTree.NothingPruned(t, x => Satisfies(info.cmp, x, s, q), k => Consistent(info, k, q, s, false))
  }

  lemma KidNeverMisses(info: TypeInfo, t: Index, kid: Index, x: Bytes)
    requires t.Inner? && kid in t.kids && x in GistTree.Items(kid) && forall s, q :: Unpruned(info, t, s, q)
    ensures NeverMisses(info, kid.key, x)
  {
    forall s, q | Satisfies(info.cmp, x, s, q)
      ensures Consistent(info, kid.key, q, s, false)
    {
      assert Unpruned(info, t, s, q);
      var leaf := x => Satisfies(info.cmp, x, s, q);
      assert x in GistTree.Filter(GistTree.Items(kid), leaf);
    }
  }

  // For a type that cuts its keys, after any run: every search is exact exactly if below every inner key there
  // are only items that lie between its ends or extend one of them.
  lemma SearchesAreExactExactlyWhen(info: TypeInfo, t: Index, actions: seq<Action>)
    requires info.Valid() && info.trnc && BuiltByUnion(info, t)
    ensures var u := Reached(info, t, actions);
            (forall s, q :: SearchIsExact(info, u, s, q)) <==> AllReached(u)
  {
    var u := Reached(info, t, actions);
    RunStaysLoose(info, t, actions);
    SoundIsOrdered(info, u, (k, x) => Loose(info, k, x));
    hide *;
    if AllReached(u) {
      forall s, q
        ensures SearchIsExact(info, u, s, q)
      {
        ReachedIsUnpruned(info, u, s, q);
        ExactIsUnpruned(info, u, s, q);
      }
    }
    if forall s, q :: SearchIsExact(info, u, s, q) {
      forall s, q
        ensures Unpruned(info, u, s, q)
      {
        assert SearchIsExact(info, u, s, q);
        ExactMeansUnpruned(info, u, s, q);
      }
      UnprunedIsReached(info, u);
    }
  }

  lemma ExactMeansUnpruned(info: TypeInfo, t: Index, s: Strategy, q: Bytes)
    requires info.Valid() && SearchIsExact(info, t, s, q)
    ensures Unpruned(info, t, s, q)
  {
    ExactIsUnpruned(info, t, s, q);
  }

  // All inner keys are safe.
  ghost predicate AllSafe(t: Index) {
    t.Inner? ==> forall kid | kid in t.kids :: Safe(kid.key) && AllSafe(kid)
  }

  lemma {:induction false} SafeIsReached(info: TypeInfo, t: Index)
    requires info.Valid() && info.trnc && AllSafe(t)
    requires GistTree.Sound(t, (k, x) => Loose(info, k, x), k => Ordered(info, k))
    ensures AllReached(t)
  {
    if t.Inner? {
      forall kid | kid in t.kids
        ensures (forall x | x in GistTree.Items(kid) :: Reaches(kid.key, x)) && AllReached(kid)
      {
        SafeIsReached(info, kid);
        forall x | x in GistTree.Items(kid)
          ensures Reaches(kid.key, x)
        {
          SafeReaches(info, kid.key, x);
        }
      }
    }
  }

  // After any run, whatever its splits cut, every search is exact if every inner key is safe: a condition on
  // the bytes of the keys alone.
  lemma SafeKeysFindExactly(info: TypeInfo, t: Index, actions: seq<Action>, s: Strategy, q: Bytes)
    requires info.Valid() && info.trnc && BuiltByUnion(info, t) && AllSafe(Reached(info, t, actions))
    ensures SearchIsExact(info, Reached(info, t, actions), s, q)
  {
    RunStaysLoose(info, t, actions);
    SafeIsReached(info, Reached(info, t, actions));
    SearchesAreExactExactlyWhen(info, t, actions);
  }

  /* Runs whose splits lose nothing */

  lemma KeepingSplitKeeps(info: TypeInfo)
    requires info.Valid()
    ensures GistTree.SplitKeeps((k, x) => StandsFor(info, k, x), k => Ordered(info, k), LeafKey, KeepingSplit(info))
  {
    forall k, xs: seq<Bytes>, ys: seq<Bytes> |
      xs != [] && ys != [] && KeepingSplit(info).key(k, GistTree.Keys(xs, LeafKey), GistTree.Keys(ys, LeafKey))
      ensures Ordered(info, k) && forall x | x in xs :: StandsFor(info, k, x)
    {
      LeafKeysAreOrdered(info, xs);
      SplitStillStands(info, k, GistTree.Keys(xs, LeafKey), GistTree.Keys(ys, LeafKey));
      StandsOnPage(info, k, xs);
    }
    forall k, ks, js |
      ks != [] && js != [] && KeepingSplit(info).key(k, ks, js) && (forall e | e in ks + js :: Ordered(info, e))
      ensures Ordered(info, k) && forall e, x | e in ks && StandsFor(info, e, x) :: StandsFor(info, k, x)
    {
      SplitStillStands(info, k, ks, js);
    }
  }

  lemma StandsOnPage(info: TypeInfo, k: ByteRange, xs: seq<Bytes>)
    requires info.Valid() && forall e, x | e in GistTree.Keys(xs, LeafKey) && StandsFor(info, e, x) :: StandsFor(info, k, x)
    ensures forall x | x in xs :: StandsFor(info, k, x)
  {
    forall x | x in xs
      ensures StandsFor(info, k, x)
    {
      var i :| 0 <= i < |xs| && xs[i] == x;
      assert GistTree.Keys(xs, LeafKey)[i] == LeafKey(x);
      LeafKeyCovers(info, x);
      CoveredStands(info, LeafKey(x), x);
    }
  }

  lemma SplitStillStands(info: TypeInfo, k: ByteRange, ks: seq<ByteRange>, js: seq<ByteRange>)
    requires info.Valid() && KeepingSplitKey(info, k, ks, js) && forall e | e in ks :: Ordered(info, e)
    ensures Ordered(info, k) && forall e, x | e in ks && StandsFor(info, e, x) :: StandsFor(info, k, x)
  {
    var a, b :| SideOf(info, k, ks, js, a, b) && KeepsAll(info, a, b);
    forall e | e in a
      ensures Ordered(info, e)
    {
      assert e in ks;
    }
    SideKeyStaysLoose(info, a, b, 0, []);
    hide SideKey, Loose, Ordered, StandsFor, KeepsAll;
    forall e, x | e in ks && StandsFor(info, e, x)
      ensures StandsFor(info, k, x)
    {
      assert e in a;
      var i :| 0 <= i < |a| && a[i] == e;
      SideKeyStands(info, a, b, i, x);
    }
  }

  lemma SideKeyStands(info: TypeInfo, a: seq<ByteRange>, b: seq<ByteRange>, i: nat, x: Bytes)
    requires info.Valid() && i < |a| && b != [] && (forall e | e in a :: Ordered(info, e)) && KeepsAll(info, a, b)
    requires StandsFor(info, a[i], x)
    ensures StandsFor(info, SideKey(info, a, b), x)
  {
    SideKeyStaysLoose(info, a, b, i, x);
    if info.trnc {
      var u, e := Hull(info.cmp, a), a[i];
      HullBounds(info, a, i);
      assert e in a;
      EntryInside(info, e, u);
      SideKeyReaches(info, e, u, SplitCut(u, Hull(info.cmp, b)), x);
    }
  }

  // For every tree whose keys come from unions, of any depth, and after any run of insertions, deletions and
  // splits in which no entry is outrun: the pruned search finds exactly the items that satisfy the operator,
  // in scan order. Splits of leaf pages never outrun an entry, and types without cutting never do.
  lemma SearchFindsExactly(info: TypeInfo, t: Index, actions: seq<Action>, s: Strategy, q: Bytes)
    requires info.Valid() && BuiltByUnion(info, t)
    ensures SearchIsExact(info, ReachedKeeping(info, t, actions), s, q)
  {
    var covers := (k, x) => StandsFor(info, k, x);
    var ok := k => Ordered(info, k);
    var leaf := x => Satisfies(info.cmp, x, s, q);
    var node := k => Consistent(info, k, q, s, false);
    assert GistTree.NoFalsePruning(covers, ok, leaf, node) by {
      forall k, x | ok(k) && covers(k, x) && leaf(x)
        ensures node(k)
      {
        InnerTestAcceptsStanding(info, k, x, s, q);
      }
    }
    UnionKeepsCovers(info);
    KeepingSplitKeeps(info);
    GistTree.BuiltIsSound(t, covers, ok, LeafKey, es => Union(info, es));
    GistTree.RunKeepsSound(t, actions, covers, ok, LeafKey, es => Union(info, es), KeepingSplit(info));
    var u := ReachedKeeping(info, t, actions);
    GistTree.SearchIsFilter(u, covers, ok, leaf, node);
    GistTree.SearchIsFilterExactlyWhen(u, leaf, node);
    ExactIsUnpruned(info, u, s, q);
  }

  lemma InnerTestAcceptsStanding(info: TypeInfo, k: ByteRange, x: Bytes, s: Strategy, q: Bytes)
    requires info.Valid() && Ordered(info, k) && StandsFor(info, k, x) && Satisfies(info.cmp, x, s, q)
    ensures Consistent(info, k, q, s, false)
  {
    if info.trnc {
      CutTypesUseLe(info, k.lower, k.upper);
      ReachesAccepts(info, k, x, s, q);
    } else {
      InnerTestAcceptsBetween(info, k, x, s, q);
    }
  }

  // Splitting a leaf page is always such a split.
  lemma LeafPagesSplitFreely(info: TypeInfo, xs: seq<Bytes>, ys: seq<Bytes>)
    requires xs != [] && ys != []
    ensures KeepsAll(info, GistTree.Keys(xs, LeafKey), GistTree.Keys(ys, LeafKey))
  {
    var a, b := GistTree.Keys(xs, LeafKey), GistTree.Keys(ys, LeafKey);
    var u, v := Hull(info.cmp, a), Hull(info.cmp, b);
    forall e | e in a
      ensures !Outruns(e, u, SplitCut(u, v))
    {
      LeafEntriesAreNeverOutrun(e.lower, u, SplitCut(u, v));
    }
  }

  /* picksplit makes such splits */

  // The result of picksplit on the entries of a node is a split of that node.
  lemma PickSplitFits(info: TypeInfo, t: Index, vector: seq<ByteRange>, order: seq<nat>)
    requires |vector| >= 3 && SortedOffsets(vector, order, SortCmp(info.cmp))
    requires GistTree.EntryKeys(t, LeafKey) == vector[1..]
    ensures var left, right := order[..|order| / 2], order[|order| / 2..];
            && left != [] && right != [] && Within(left, |vector|) && Within(right, |vector|)
            && var l, r := KeysAt(vector, left), KeysAt(vector, right);
               GistTree.CanSplit(t, [], MarksOf(left, |vector| - 1), SideKey(info, l, r), SideKey(info, r, l), LeafKey, AnySplit(info))
  {
    var left, right := order[..|order| / 2], order[|order| / 2..];
    HalvesPartition(vector, order, SortCmp(info.cmp), left, right);
    HalvesAreSides(vector, order, SortCmp(info.cmp));
    var l, r := KeysAt(vector, left), KeysAt(vector, right);
    SideKeyIsSplitKey(info, l, r);
    SideKeyIsSplitKey(info, r, l);
    AnySplitLooksAtMembers(info);
    hide SideKey, SplitKey;
    OffsetsFit(t, vector, left, right, SideKey(info, l, r), SideKey(info, r, l), LeafKey, AnySplit(info));
  }

  lemma SideKeyIsSplitKey(info: TypeInfo, side: seq<ByteRange>, other: seq<ByteRange>)
    requires side != [] && other != []
    ensures SplitKey(info, SideKey(info, side, other), side, other)
  {
    assert SideOf(info, SideKey(info, side, other), side, other, side, other);
  }

  lemma AnySplitLooksAtMembers(info: TypeInfo)
    ensures LooksAtMembers(AnySplit(info))
  {
    forall k, a, b, c, d | SplitKey(info, k, a, b) && SameMembers(a, c) && SameMembers(b, d)
      ensures SplitKey(info, k, c, d)
    {
      var a', b' :| SideOf(info, k, a, b, a', b');
      assert SideOf(info, k, c, d, a', b');
    }
  }
}
