/**
  A bytea index of eight items from which the split of one inner page loses an item.
 */
module VarLoss {
  import opened Text
  import opened ByteOrder
  import opened RangeKey
  import opened Halving
  import opened VarKey
  import opened VarReach
  import opened VarSplit
  import opened VarIndex
  import opened SplitOffsets
  import GistTree

  const BYTEA := TypeInfo(ByteaCmp, true)

  // "aaa", "abcz" | "abca", "abcb" | "zzza", "zzzb" | "zzzb", "zzzc"
  const AAA: Bytes := [97, 97, 97]
  const ABCZ: Bytes := [97, 98, 99, 122]
  const ABCA: Bytes := [97, 98, 99, 97]
  const ABCB: Bytes := [97, 98, 99, 98]
  const ZZZA: Bytes := [122, 122, 122, 97]
  const ZZZB: Bytes := [122, 122, 122, 98]
  const ZZZC: Bytes := [122, 122, 122, 99]

  // The keys of the four pages; the first one is cut to "aaa".."abc".
  const L0: ByteRange := Range(AAA, [97, 98, 99])
  const L1: ByteRange := Range(ABCA, ABCB)
  const R0: ByteRange := Range(ZZZA, ZZZB)
  const R1: ByteRange := Range(ZZZB, ZZZC)

  const PAGES: seq<Index> := [
    GistTree.Page(L0, [AAA, ABCZ]), GistTree.Page(L1, [ABCA, ABCB]),
    GistTree.Page(R0, [ZZZA, ZZZB]), GistTree.Page(R1, [ZZZB, ZZZC])]

  const VECTOR: seq<ByteRange> := [Range([], []), L0, L1, R0, R1]
  const ORDER: seq<nat> := [1, 2, 3, 4]

  function Tree(): Index {
    GistTree.Inner(Union(BYTEA, [L0, L1, R0, R1]), PAGES)
  }

  ghost function TheSplit(): Action {
    GistTree.Splitting([], MarksOf([1, 2], 4), SideKey(BYTEA, [L0, L1], [R0, R1]), SideKey(BYTEA, [R0, R1], [L0, L1]))
  }

  ghost function SplitTree(): Index {
    Reached(BYTEA, Tree(), [TheSplit()])
  }

  lemma {:induction false} FirstDifference(a: Bytes, b: Bytes, i: nat)
    requires i < |a| && i < |b| && a[..i] == b[..i] && a[i] < b[i]
    ensures ByteaCmp(a, b) < 0 < ByteaCmp(b, a) && Le(a, b) && !Le(b, a)
    decreases i
  {
    CmpIsLe(a, b);
    CmpIsLe(b, a);
    if i > 0 {
      assert a[0] == a[..i][0] == b[0];
      assert a[1..][..i - 1] == a[..i][1..] && b[1..][..i - 1] == b[..i][1..];
      FirstDifference(a[1..], b[1..], i - 1);
    }
  }

  // The union of two values that first differ at byte i.
  lemma PairUnion(a: Bytes, b: Bytes, i: nat)
    requires i < |a| && i < |b| && a[..i] == b[..i] && a[i] < b[i]
    ensures Union(BYTEA, [LeafKey(a), LeafKey(b)]) == Range(Take(a, i + 2), Take(b, i + 2))
  {
    FirstDifference(a, b, i);
    CommonUnique(a, b, i);
    hide ByteaCmp, Common;
    var es := [LeafKey(a), LeafKey(b)];
    assert es[..1] == [LeafKey(a)];
    assert Hull(BYTEA.cmp, es) == Range(a, b);
  }

  lemma PageIsBuilt(k: ByteRange, a: Bytes, b: Bytes, i: nat)
    requires i < |a| && i < |b| && a[..i] == b[..i] && a[i] < b[i]
    requires k == Range(Take(a, i + 2), Take(b, i + 2))
    ensures BuiltByUnion(BYTEA, GistTree.Page(k, [a, b]))
  {
    PairUnion(a, b, i);
    var page := GistTree.Page(k, [a, b]);
    assert GistTree.EntryKeys(page, LeafKey) == [LeafKey(a), LeafKey(b)];
  }

  lemma PagesAreBuilt()
    ensures forall kid | kid in PAGES :: BuiltByUnion(BYTEA, kid)
  {
    assert ABCZ[..3] == [97, 98, 99];
    PageIsBuilt(L0, AAA, ABCZ, 1);
    PageIsBuilt(L1, ABCA, ABCB, 3);
    PageIsBuilt(R0, ZZZA, ZZZB, 3);
    PageIsBuilt(R1, ZZZB, ZZZC, 3);
  }

  lemma TreeIsBuilt()
    ensures BuiltByUnion(BYTEA, Tree()) && GistTree.EntryKeys(Tree(), LeafKey) == VECTOR[1..]
  {
    PagesAreBuilt();
    hide Union;
    assert GistTree.EntryKeys(Tree(), LeafKey) == [L0, L1, R0, R1] == VECTOR[1..];
  }

  // picksplit sorts the four entries in the order they are in.
  lemma OrderIsSorted()
    ensures SortedOffsets(VECTOR, ORDER, SortCmp(BYTEA.cmp))
  {
    FirstDifference(AAA, ABCA, 1);
    FirstDifference(AAA, ZZZA, 0);
    FirstDifference(AAA, ZZZB, 0);
    FirstDifference(ABCA, ZZZA, 0);
    FirstDifference(ABCA, ZZZB, 0);
    FirstDifference(ZZZA, ZZZB, 3);
    hide ByteaCmp;
    forall i, j | 0 <= i < j < |ORDER|
      ensures SortCmp(BYTEA.cmp)(VECTOR[ORDER[i]], VECTOR[ORDER[j]]) <= 0
    {
      assert (i == 0 || i == 1 || i == 2) && (j == 1 || j == 2 || j == 3);
    }
  }

  // Both sides keep five bytes: the right side shares three. The left key becomes "aaa".."abcb".
  lemma LeftKey()
    ensures SideKey(BYTEA, [L0, L1], [R0, R1]) == Range(AAA, ABCB)
  {
    FirstDifference(AAA, ABCA, 1);
    FirstDifference(ZZZA, ZZZB, 3);
    FirstDifference(ZZZB, ZZZC, 3);
    PrefixLe(L0.upper, ABCB);
    CmpIsLe(L0.upper, ABCB);
    CommonUnique(AAA, ABCB, 1);
    CommonUnique(ZZZA, ZZZC, 3);
    hide ByteaCmp, Common, Le;
    assert [L0, L1][..1] == [L0] && [R0, R1][..1] == [R0];
    assert Hull(BYTEA.cmp, [L0, L1]) == Range(AAA, ABCB);
    assert Hull(BYTEA.cmp, [R0, R1]) == Range(ZZZA, ZZZC);
  }

  lemma LeftKeyRejects()
    ensures !Consistent(BYTEA, Range(AAA, ABCB), ABCZ, Equal, false)
  {
    FirstDifference(ABCB, ABCZ, 3);
    assert !(AAA <= ABCZ) && !(ABCB <= ABCZ);
  }

  lemma SplitFits()
    ensures var s := TheSplit();
            GistTree.CanSplit(Tree(), [], s.marks, s.lkey, s.rkey, LeafKey, AnySplit(BYTEA))
  {
    TreeIsBuilt();
    OrderIsSorted();
    hide SideKey, SortCmp, ByteaCmp, Union;
    PickSplitFits(BYTEA, Tree(), VECTOR, ORDER);
    assert ORDER[..2] == [1, 2] && ORDER[2..] == [3, 4];
    assert KeysAt(VECTOR, [1, 2]) == [L0, L1] && KeysAt(VECTOR, [3, 4]) == [R0, R1];
  }

  lemma SplitTreeIs()
    ensures var s := TheSplit();
            && |s.marks| == GistTree.EntryCount(Tree())
            && SplitTree() == GistTree.Inner(Union(BYTEA, [s.lkey, s.rkey]),
                 [GistTree.Half(Tree(), s.marks, true, s.lkey), GistTree.Half(Tree(), s.marks, false, s.rkey)])
  {
    SplitFits();
    hide Union, SideKey, GistTree.CanSplit, GistTree.Half;
    var s := TheSplit();
    assert [s][1..] == [];
    assert GistTree.Act(Tree(), s, LeafKey, es => Union(BYTEA, es), AnySplit(BYTEA))
      == GistTree.Split(Tree(), [], s.marks, s.lkey, s.rkey, LeafKey, es => Union(BYTEA, es), AnySplit(BYTEA));
  }

  lemma {:induction false} FoundAreItems(t: Index, leaf: Bytes -> bool, node: ByteRange -> bool, x: Bytes)
    requires x in GistTree.Search(t, leaf, node)
    ensures x in GistTree.Items(t)
    decreases t, 1
  {
    if t.Inner? {
      FoundAreItemsBelow(t.kids, leaf, node, x);
    }
  }

  lemma {:induction false} FoundAreItemsBelow(ts: seq<Index>, leaf: Bytes -> bool, node: ByteRange -> bool, x: Bytes)
    requires x in GistTree.SearchBelow(ts, leaf, node)
    ensures x in GistTree.ItemsBelow(ts)
    decreases ts, 0
  {
    if node(ts[0].key) && x in GistTree.Search(ts[0], leaf, node) {
      FoundAreItems(ts[0], leaf, node, x);
    } else {
      FoundAreItemsBelow(ts[1..], leaf, node, x);
    }
  }

  // Which half holds "abcz".
  lemma ItemIsLeft(key: ByteRange)
    ensures ABCZ in GistTree.Items(GistTree.Half(Tree(), MarksOf([1, 2], 4), true, key))
  {
    var marks := MarksOf([1, 2], 4);
    PickHas(PAGES, marks, true, PAGES[0]);
    assert marks[0] && PAGES[0] in GistTree.Pick(PAGES, marks, true);
    assert ABCZ == GistTree.Items(PAGES[0])[1];
    GistTree.KidItems(GistTree.Pick(PAGES, marks, true), PAGES[0]);
  }

  lemma ItemIsNotRight(key: ByteRange)
    ensures ABCZ !in GistTree.Items(GistTree.Half(Tree(), MarksOf([1, 2], 4), false, key))
  {
    var marks := MarksOf([1, 2], 4);
    var right := GistTree.Pick(PAGES, marks, false);
    if ABCZ in GistTree.ItemsBelow(right) {
      var i := GistTree.WhichKid(right, ABCZ);
      assert right[i] in right;
      RightPages(right[i]);
    }
  }

  lemma RightPages(page: Index)
    ensures page in GistTree.Pick(PAGES, MarksOf([1, 2], 4), false) ==> ABCZ !in GistTree.Items(page)
  {
    var marks := MarksOf([1, 2], 4);
    PickHas(PAGES, marks, false, page);
    hide GistTree.Pick;
    assert marks[0] && marks[1];
    assert page in GistTree.Pick(PAGES, marks, false) ==> page == PAGES[2] || page == PAGES[3];
  }

  // The tree is built by unions, picksplit makes this very split, and afterwards the item is still in the tree
  // but a search for it does not find it.
  lemma InnerSplitLosesAnItem()
    ensures BuiltByUnion(BYTEA, Tree()) && SortedOffsets(VECTOR, ORDER, SortCmp(BYTEA.cmp))
    ensures ABCZ in SearchIndex(BYTEA, Tree(), Equal, ABCZ)
    ensures ABCZ in GistTree.Items(SplitTree())
    ensures ABCZ !in SearchIndex(BYTEA, SplitTree(), Equal, ABCZ)
  {
    TreeIsBuilt();
    OrderIsSorted();
    FoundBefore();
    LostAfter();
  }

  lemma FoundBefore()
    ensures ABCZ in SearchIndex(BYTEA, Tree(), Equal, ABCZ)
  {
    ByteaIsValid();
    TreeIsBuilt();
    SearchFindsExactly(BYTEA, Tree(), [], Equal, ABCZ);
    assert ReachedKeeping(BYTEA, Tree(), []) == Tree();
    LeReflexive(ABCZ);
    CmpIsLe(ABCZ, ABCZ);
    assert ABCZ == GistTree.Items(PAGES[0])[1];
    GistTree.KidItems(PAGES, PAGES[0]);
    hide GistTree.Search, ByteaCmp, GistTree.Items;
    assert ABCZ in GistTree.Filter(GistTree.Items(Tree()), x => Satisfies(BYTEA.cmp, x, Equal, ABCZ));
  }

  lemma LostAfter()
    ensures ABCZ in GistTree.Items(SplitTree())
    ensures ABCZ !in SearchIndex(BYTEA, SplitTree(), Equal, ABCZ)
  {
    SplitTreeIs();
    LeftKey();
    LeftKeyRejects();
    var s := TheSplit();
    ItemIsLeft(s.lkey);
    ItemIsNotRight(s.rkey);
    var l, r := GistTree.Half(Tree(), s.marks, true, s.lkey), GistTree.Half(Tree(), s.marks, false, s.rkey);
    assert l.key == s.lkey;
    hide GistTree.Half, GistTree.Items, GistTree.Search, SideKey, Union, Tree, MarksOf;
    var leaf := x => Consistent(BYTEA, LeafKey(x), ABCZ, Equal, true);
    var node := k => Consistent(BYTEA, k, ABCZ, Equal, false);
    PairBelow(l, r, leaf, node, ABCZ);
  }

  lemma PairBelow(l: Index, r: Index, leaf: Bytes -> bool, node: ByteRange -> bool, x: Bytes)
    requires x in GistTree.Items(l) && x !in GistTree.Items(r) && !node(l.key)
    ensures x in GistTree.ItemsBelow([l, r]) && x !in GistTree.SearchBelow([l, r], leaf, node)
  {
    GistTree.KidItems([l, r], l);
    assert [l, r][1..] == [r] && [r][1..] == [];
    if x in GistTree.Search(r, leaf, node) {
      FoundAreItems(r, leaf, node, x);
    }
    assert GistTree.SearchBelow([], leaf, node) == [];
    assert GistTree.SearchBelow([r], leaf, node) == (if node(r.key) then GistTree.Search(r, leaf, node) else []) + [];
  }
}
