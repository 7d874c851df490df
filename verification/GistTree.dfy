/**
  A GiST index as a search sees it: pages of items and inner pages of subtrees,
  each with the key its parent's entry stores for it, a descent that skips a
  subtree when its key fails the inner test, and the plain filter the descent
  has to agree with. Keys are made by a union method of the operator class.
 */
module GistTree {

  datatype Tree<K, I> = Page(key: K, items: seq<I>) | Inner(key: K, kids: seq<Tree<K, I>>)

  function Items<K, I>(t: Tree<K, I>): seq<I>
    decreases t, 1
  {
    match t
    case Page(_, items) => items
    case Inner(_, kids) => ItemsBelow(kids)
  }

  function ItemsBelow<K, I>(ts: seq<Tree<K, I>>): seq<I>
    decreases ts, 0
  {
    if ts == [] then [] else Items(ts[0]) + ItemsBelow(ts[1..])
  }

  function Filter<I>(xs: seq<I>, leaf: I -> bool): (r: seq<I>)
    ensures forall x | x in r :: x in xs && leaf(x)
    ensures forall x | x in xs :: leaf(x) ==> x in r
  {
    if xs == [] then []
    else if leaf(xs[0]) then [xs[0]] + Filter(xs[1..], leaf)
    else Filter(xs[1..], leaf)
  }

  function Search<K, I>(t: Tree<K, I>, leaf: I -> bool, node: K -> bool): seq<I>
    decreases t, 1
  {
    match t
    case Page(_, items) => Filter(items, leaf)
    case Inner(_, kids) => SearchBelow(kids, leaf, node)
  }

  function SearchBelow<K, I>(ts: seq<Tree<K, I>>, leaf: I -> bool, node: K -> bool): seq<I>
    decreases ts, 0
  {
    if ts == [] then []
    else (if node(ts[0].key) then Search(ts[0], leaf, node) else []) + SearchBelow(ts[1..], leaf, node)
  }

  // Every key satisfies `ok` and stands in relation `covers` to every item below it.
  ghost predicate Sound<K, I>(t: Tree<K, I>, covers: (K, I) -> bool, ok: K -> bool) {
    && ok(t.key)
    && (forall x | x in Items(t) :: covers(t.key, x))
    && (t.Inner? ==> forall kid | kid in t.kids :: Sound(kid, covers, ok))
  }

  // The inner test accepts every key that covers a matching item.
  ghost predicate NoFalsePruning<K(!new), I(!new)>(
    covers: (K, I) -> bool, ok: K -> bool, leaf: I -> bool, node: K -> bool)
  {
    forall k, x :: ok(k) && covers(k, x) && leaf(x) ==> node(k)
  }

  lemma {:induction false} FilterConcat<I>(xs: seq<I>, ys: seq<I>, leaf: I -> bool)
    ensures Filter(xs + ys, leaf) == Filter(xs, leaf) + Filter(ys, leaf)
    decreases |xs|
  {
    if xs == [] {
      assert xs + ys == ys;
    } else {
      assert (xs + ys)[1..] == xs[1..] + ys;
      FilterConcat(xs[1..], ys, leaf);
    }
  }

  lemma {:induction false} FilterSame<I>(xs: seq<I>, a: I -> bool, b: I -> bool)
    requires forall x | x in xs :: a(x) == b(x)
    ensures Filter(xs, a) == Filter(xs, b)
    decreases |xs|
  {
    if xs != [] {
      FilterSame(xs[1..], a, b);
    }
  }

  // On a sound tree the pruned descent returns what a scan of every item returns, in the same order.
  lemma {:induction false} SearchIsFilter<K(!new), I(!new)>(
    t: Tree<K, I>, covers: (K, I) -> bool, ok: K -> bool, leaf: I -> bool, node: K -> bool)
    requires Sound(t, covers, ok) && NoFalsePruning(covers, ok, leaf, node)
    ensures Search(t, leaf, node) == Filter(Items(t), leaf)
    decreases t, 1
  {
    if t.Inner? {
      SearchBelowIsFilter(t.kids, covers, ok, leaf, node);
    }
  }

  lemma {:induction false} SearchBelowIsFilter<K(!new), I(!new)>(
    ts: seq<Tree<K, I>>, covers: (K, I) -> bool, ok: K -> bool, leaf: I -> bool, node: K -> bool)
    requires (forall t | t in ts :: Sound(t, covers, ok)) && NoFalsePruning(covers, ok, leaf, node)
    ensures SearchBelow(ts, leaf, node) == Filter(ItemsBelow(ts), leaf)
    decreases ts, 0
  {
    if ts != [] {
      var here := Items(ts[0]);
      SearchIsFilter(ts[0], covers, ok, leaf, node);
      SearchBelowIsFilter(ts[1..], covers, ok, leaf, node);
      FilterConcat(here, ItemsBelow(ts[1..]), leaf);
      assert Filter(here, leaf) != [] ==> Filter(here, leaf)[0] in here;
    }
  }

  // No key of a subtree that holds a matching item fails the inner test.
  ghost predicate NothingPruned<K, I(!new)>(t: Tree<K, I>, leaf: I -> bool, node: K -> bool) {
    t.Inner? ==> forall kid | kid in t.kids :: PassedOver(kid, leaf, node) && NothingPruned(kid, leaf, node)
  }

  ghost predicate PassedOver<K, I(!new)>(kid: Tree<K, I>, leaf: I -> bool, node: K -> bool) {
    node(kid.key) || Filter(Items(kid), leaf) == []
  }

  ghost predicate NonePrunedBelow<K, I(!new)>(ts: seq<Tree<K, I>>, leaf: I -> bool, node: K -> bool) {
    forall t | t in ts :: PassedOver(t, leaf, node) && NothingPruned(t, leaf, node)
  }

  // The descent finds what the filter finds exactly if nothing it needs is pruned; otherwise it finds less.
  lemma {:induction false} SearchIsFilterExactlyWhen<K, I(!new)>(t: Tree<K, I>, leaf: I -> bool, node: K -> bool)
    ensures Search(t, leaf, node) == Filter(Items(t), leaf) <==> NothingPruned(t, leaf, node)
    ensures |Search(t, leaf, node)| <= |Filter(Items(t), leaf)|
    ensures !NothingPruned(t, leaf, node) ==> |Search(t, leaf, node)| < |Filter(Items(t), leaf)|
    decreases t, 1
  {
    if t.Inner? {
      BelowExactlyWhen(t.kids, leaf, node);
    }
  }

  lemma {:induction false} BelowExactlyWhen<K, I(!new)>(ts: seq<Tree<K, I>>, leaf: I -> bool, node: K -> bool)
    ensures NonePrunedBelow(ts, leaf, node) ==> SearchBelow(ts, leaf, node) == Filter(ItemsBelow(ts), leaf)
    ensures |SearchBelow(ts, leaf, node)| <= |Filter(ItemsBelow(ts), leaf)|
    ensures !NonePrunedBelow(ts, leaf, node) ==> |SearchBelow(ts, leaf, node)| < |Filter(ItemsBelow(ts), leaf)|
    decreases ts, 0
  {
    if ts != [] {
      SearchIsFilterExactlyWhen(ts[0], leaf, node);
      BelowExactlyWhen(ts[1..], leaf, node);
      FilterConcat(Items(ts[0]), ItemsBelow(ts[1..]), leaf);
      assert NonePrunedBelow(ts, leaf, node) <==>
        PassedOver(ts[0], leaf, node) && NothingPruned(ts[0], leaf, node) && NonePrunedBelow(ts[1..], leaf, node) by {
        assert ts == [ts[0]] + ts[1..];
      }
      assert SearchBelow(ts, leaf, node)
        == (if node(ts[0].key) then Search(ts[0], leaf, node) else []) + SearchBelow(ts[1..], leaf, node);
    }
  }

  // What holds of every item may be added to what keys cover.
  lemma {:induction false} SoundStrengthens<K(!new), I(!new)>(
    t: Tree<K, I>, covers: (K, I) -> bool, stronger: (K, I) -> bool, ok: K -> bool, holds: I -> bool)
    requires Sound(t, covers, ok) && forall x | x in Items(t) :: holds(x)
    requires forall k, x :: covers(k, x) && holds(x) ==> stronger(k, x)
    ensures Sound(t, stronger, ok)
  {
    if t.Inner? {
      forall kid | kid in t.kids
        ensures Sound(kid, stronger, ok)
      {
        KidItems(t.kids, kid);
        SoundStrengthens(kid, covers, stronger, ok, holds);
      }
    }
  }

  lemma {:induction false} KidItems<K, I>(ts: seq<Tree<K, I>>, kid: Tree<K, I>)
    requires kid in ts
    ensures forall x | x in Items(kid) :: x in ItemsBelow(ts)
  {
    if kid != ts[0] {
      KidItems(ts[1..], kid);
    }
  }

  /* Trees made by the union method, and how insertions and deletions change them */

  // The keys of the entries on a page.
  function EntryKeys<K, I>(t: Tree<K, I>, leafKey: I -> K): (ks: seq<K>)
    ensures |ks| == if t.Page? then |t.items| else |t.kids|
  {
    match t
    case Page(_, items) => seq(|items|, i requires 0 <= i < |items| => leafKey(items[i]))
    case Inner(_, kids) => seq(|kids|, i requires 0 <= i < |kids| => kids[i].key)
  }

  // Every page is non-empty and every key is what `union` makes of the keys on its page.
  ghost predicate Built<K, I>(t: Tree<K, I>, leafKey: I -> K, union: seq<K> -> K) {
    && EntryKeys(t, leafKey) != []
    && t.key == union(EntryKeys(t, leafKey))
    && (t.Inner? ==> forall kid | kid in t.kids :: Built(kid, leafKey, union))
  }

  // The key of an item covers it, and a union covers whatever one of its entries covers.
  ghost predicate UnionKeeps<K(!new), I(!new)>(
    covers: (K, I) -> bool, ok: K -> bool, leafKey: I -> K, union: seq<K> -> K)
  {
    && (forall x :: ok(leafKey(x)) && covers(leafKey(x), x))
    && (forall ks | ks != [] && (forall k | k in ks :: ok(k)) :: ok(union(ks)))
    && (forall ks, k, x {:trigger covers(k, x), union(ks)} |
          k in ks && (forall k' | k' in ks :: ok(k')) && covers(k, x) :: covers(union(ks), x))
  }

  lemma {:induction false} BuiltIsSound<K(!new), I(!new)>(
    t: Tree<K, I>, covers: (K, I) -> bool, ok: K -> bool, leafKey: I -> K, union: seq<K> -> K)
    requires Built(t, leafKey, union) && UnionKeeps(covers, ok, leafKey, union)
    ensures Sound(t, covers, ok)
  {
    var ks := EntryKeys(t, leafKey);
    if t.Inner? {
      forall kid | kid in t.kids
        ensures Sound(kid, covers, ok)
      {
        BuiltIsSound(kid, covers, ok, leafKey, union);
      }
    }
    forall k | k in ks
      ensures ok(k)
    {
      var i :| 0 <= i < |ks| && ks[i] == k;
      assert t.Inner? ==> t.kids[i] in t.kids;
    }
    forall x | x in Items(t)
      ensures covers(t.key, x)
    {
      var i: nat;
      if t.Page? {
        i :| 0 <= i < |t.items| && t.items[i] == x;
      } else {
        i := WhichKid(t.kids, x);
        assert t.kids[i] in t.kids;
      }
      assert covers(ks[i], x) && ks[i] in ks;
    }
  }

  lemma {:induction false} WhichKid<K, I>(ts: seq<Tree<K, I>>, x: I) returns (i: nat)
    requires x in ItemsBelow(ts)
    ensures i < |ts| && x in Items(ts[i])
  {
    if x in Items(ts[0]) {
      i := 0;
    } else {
      i := WhichKid(ts[1..], x);
      i := i + 1;
    }
  }

  // `path` names a kid on every level down to a page.
  predicate LeadsToPage<K, I>(t: Tree<K, I>, path: seq<nat>) {
    match t
    case Page(_, _) => path == []
    case Inner(_, kids) => path != [] && path[0] < |kids| && LeadsToPage(kids[path[0]], path[1..])
  }

  // Insertion without a split: on the way down every key is joined with the key of the new item.
  function Insert<K, I>(t: Tree<K, I>, path: seq<nat>, x: I, leafKey: I -> K, union: seq<K> -> K): Tree<K, I>
    requires LeadsToPage(t, path)
  {
    var key := union([t.key, leafKey(x)]);
    match t
    case Page(_, items) => Page(key, items + [x])
    case Inner(_, kids) =>
      Inner(key, kids[path[0] := Insert(kids[path[0]], path[1..], x, leafKey, union)])
  }

  // Deletion leaves every key as it was.
  function Delete<K, I>(t: Tree<K, I>, path: seq<nat>, i: nat): Tree<K, I>
    requires LeadsToPage(t, path)
  {
    match t
    case Page(key, items) => Page(key, if i < |items| then items[..i] + items[i + 1..] else items)
    case Inner(key, kids) => Inner(key, kids[path[0] := Delete(kids[path[0]], path[1..], i)])
  }

  lemma KidReplaced<K, I>(ts: seq<Tree<K, I>>, i: nat, t: Tree<K, I>)
    requires i < |ts|
    ensures multiset(ItemsBelow(ts[i := t])) == multiset(ItemsBelow(ts)) - multiset(Items(ts[i])) + multiset(Items(t))
    ensures multiset(Items(ts[i])) <= multiset(ItemsBelow(ts))
  {
    hide ItemsBelow, Items;
    BelowThree(ts[..i], [t], ts[i + 1..]);
    BelowThree(ts[..i], [ts[i]], ts[i + 1..]);
    BelowOne(ts[i]);
    BelowOne(t);
    assert ts[..i] + [ts[i]] + ts[i + 1..] == ts;
    assert ts[..i] + [t] + ts[i + 1..] == ts[i := t];
  }

  lemma {:induction false} InsertAddsItem<K, I>(t: Tree<K, I>, path: seq<nat>, x: I, leafKey: I -> K, union: seq<K> -> K)
    requires LeadsToPage(t, path)
    ensures multiset(Items(Insert(t, path, x, leafKey, union))) == multiset(Items(t)) + multiset{x}
  {
    if t.Inner? {
      InsertAddsItem(t.kids[path[0]], path[1..], x, leafKey, union);
      KidReplaced(t.kids, path[0], Insert(t.kids[path[0]], path[1..], x, leafKey, union));
    }
  }

  function PageAt<K, I>(t: Tree<K, I>, path: seq<nat>): seq<I>
    requires LeadsToPage(t, path)
  {
    match t
    case Page(_, items) => items
    case Inner(_, kids) => PageAt(kids[path[0]], path[1..])
  }

  lemma WithoutOne<I>(items: seq<I>, i: nat)
    requires i < |items|
    ensures multiset(items) == multiset(items[..i] + items[i + 1..]) + multiset{items[i]}
  {
    assert items == items[..i] + ([items[i]] + items[i + 1..]);
    assert multiset(items) == multiset(items[..i]) + multiset([items[i]] + items[i + 1..]);
  }

  // The item on the page that deletion number i takes out, if there is one.
  function Chosen<I>(page: seq<I>, i: nat): multiset<I> {
    if i < |page| then multiset{page[i]} else multiset{}
  }

  lemma {:induction false} DeleteRemovesItem<K, I>(t: Tree<K, I>, path: seq<nat>, i: nat)
    requires LeadsToPage(t, path)
    ensures multiset(Items(t)) == multiset(Items(Delete(t, path, i))) + Chosen(PageAt(t, path), i)
  {
    match t
    case Page(_, items) =>
      if i < |items| {
        WithoutOne(items, i);
      }
    case Inner(_, kids) =>
      var kid := Delete(kids[path[0]], path[1..], i);
      DeleteRemovesItem(kids[path[0]], path[1..], i);
      KidReplaced(kids, path[0], kid);
      hide Chosen, ItemsBelow;
      LessIsMore(multiset(ItemsBelow(kids)), multiset(Items(kids[path[0]])), multiset(Items(kid)), Chosen(PageAt(t, path), i));
  }

  lemma LessIsMore<I>(all: multiset<I>, old_: multiset<I>, new_: multiset<I>, out: multiset<I>)
    requires old_ <= all && old_ == new_ + out
    ensures all == (all - old_ + new_) + out
  {
    assert all == (all - old_) + old_;
  }

  lemma MultisetMembers<I>(xs: seq<I>, ys: seq<I>, x: I)
    requires multiset(xs) <= multiset(ys) + multiset{x}
    ensures forall y | y in xs :: y in ys || y == x
  {
    forall y | y in xs
      ensures y in ys || y == x
    {
      assert y in multiset(xs);
      assert y in multiset(ys) + multiset{x};
    }
  }

  lemma {:induction false} InsertKeepsSound<K(!new), I(!new)>(
    t: Tree<K, I>, path: seq<nat>, x: I, covers: (K, I) -> bool, ok: K -> bool, leafKey: I -> K, union: seq<K> -> K)
    requires LeadsToPage(t, path) && Sound(t, covers, ok) && UnionKeeps(covers, ok, leafKey, union)
    ensures Sound(Insert(t, path, x, leafKey, union), covers, ok)
  {
    var u := Insert(t, path, x, leafKey, union);
    if t.Inner? {
      InsertKeepsSound(t.kids[path[0]], path[1..], x, covers, ok, leafKey, union);
    }
    InsertAddsItem(t, path, x, leafKey, union);
    MultisetMembers(Items(u), Items(t), x);
    var ks := [t.key, leafKey(x)];
    assert t.key in ks && leafKey(x) in ks && u.key == union(ks);
    assert covers(leafKey(x), x);
  }

  lemma {:induction false} DeleteKeepsSound<K, I>(
    t: Tree<K, I>, path: seq<nat>, i: nat, covers: (K, I) -> bool, ok: K -> bool)
    requires LeadsToPage(t, path) && Sound(t, covers, ok)
    ensures Sound(Delete(t, path, i), covers, ok)
  {
    if t.Inner? {
      DeleteKeepsSound(t.kids[path[0]], path[1..], i, covers, ok);
    }
    DeleteRemovesItem(t, path, i);
    forall x | x in Items(Delete(t, path, i))
      ensures covers(t.key, x)
    {
      assert x in multiset(Items(t));
    }
  }

  /* Page splits */

  // The entries whose mark is `side`.
  function Pick<E>(es: seq<E>, marks: seq<bool>, side: bool): seq<E>
    requires |marks| == |es|
  {
    if es == [] then []
    else (if marks[0] == side then [es[0]] else []) + Pick(es[1..], marks[1..], side)
  }

  // The node with only the entries marked `side`, under a new key.
  function Half<K, I>(t: Tree<K, I>, marks: seq<bool>, side: bool, key: K): Tree<K, I>
    requires |marks| == EntryCount(t)
  {
    match t
    case Page(_, items) => Page(key, Pick(items, marks, side))
    case Inner(_, kids) => Inner(key, Pick(kids, marks, side))
  }

  function EntryCount<K, I>(t: Tree<K, I>): nat {
    if t.Page? then |t.items| else |t.kids|
  }

  // The node at the end of the path is split by marks that leave no side empty, and picksplit may have
  // returned these two keys for the keys of the entries on either side.
  ghost predicate CanSplit<K, I>(t: Tree<K, I>, path: seq<nat>, marks: seq<bool>, lkey: K, rkey: K,
                                 leafKey: I -> K, rule: SplitRule<K>)
  {
    if path != [] then t.Inner? && path[0] < |t.kids| && CanSplit(t.kids[path[0]], path[1..], marks, lkey, rkey, leafKey, rule)
    else
      && |marks| == EntryCount(t) && true in marks && false in marks
      && (t.Page? || rule.innerToo)
      && SplitKey(t, marks, true, lkey, leafKey, rule) && SplitKey(t, marks, false, rkey, leafKey, rule)
  }

  // Which keys picksplit may return for one side, and whether inner pages are split as well.
  datatype SplitRule<!K> = SplitRule(key: (K, seq<K>, seq<K>) -> bool, innerToo: bool)

  ghost predicate SplitKey<K, I>(t: Tree<K, I>, marks: seq<bool>, side: bool, key: K, leafKey: I -> K, rule: SplitRule<K>)
    requires |marks| == EntryCount(t)
  {
    rule.key(key, EntryKeys(Half(t, marks, side, key), leafKey), EntryKeys(Half(t, marks, !side, key), leafKey))
  }

  // Two nodes take the place of one; the root gets a new node above it.
  ghost function Split<K, I>(t: Tree<K, I>, path: seq<nat>, marks: seq<bool>, lkey: K, rkey: K,
                             leafKey: I -> K, union: seq<K> -> K, rule: SplitRule<K>): Tree<K, I>
    requires CanSplit(t, path, marks, lkey, rkey, leafKey, rule)
  {
    if path == [] then
      Inner(union([lkey, rkey]), [Half(t, marks, true, lkey), Half(t, marks, false, rkey)])
    else
      var i := path[0];
      var kid := t.kids[i];
      if |path| == 1 then
        assert path[1..] == [] && CanSplit(kid, path[1..], marks, lkey, rkey, leafKey, rule);
        Inner(t.key, t.kids[..i] + [Half(kid, marks, true, lkey), Half(kid, marks, false, rkey)] + t.kids[i + 1..])
      else
        Inner(t.key, t.kids[i := Split(kid, path[1..], marks, lkey, rkey, leafKey, union, rule)])
  }

  lemma PickStep<E>(es: seq<E>, marks: seq<bool>)
    requires |marks| == |es| && es != []
    ensures Pick(es, marks, marks[0]) == [es[0]] + Pick(es[1..], marks[1..], marks[0])
    ensures Pick(es, marks, !marks[0]) == Pick(es[1..], marks[1..], !marks[0])
  {
  }

  lemma OneMore<E>(e: E, es: seq<E>)
    ensures multiset([e] + es) == multiset{e} + multiset(es)
  {
  }

  lemma {:induction false} PickBoth<E>(es: seq<E>, marks: seq<bool>)
    requires |marks| == |es|
    ensures multiset(Pick(es, marks, true)) + multiset(Pick(es, marks, false)) == multiset(es)
  {
    if es != [] {
      PickBoth(es[1..], marks[1..]);
      PickStep(es, marks);
      hide Pick;
      assert es == [es[0]] + es[1..];
      OneMore(es[0], es[1..]);
      OneMore(es[0], Pick(es[1..], marks[1..], marks[0]));
    }
  }

  lemma PickMembers<E>(es: seq<E>, marks: seq<bool>, side: bool)
    requires |marks| == |es|
    ensures multiset(Pick(es, marks, side)) + multiset(Pick(es, marks, !side)) == multiset(es)
  {
    PickBoth(es, marks);
  }

  lemma {:induction false} PickSome<E>(es: seq<E>, marks: seq<bool>, side: bool)
    requires |marks| == |es| && side in marks
    ensures Pick(es, marks, side) != []
  {
    if side != marks[0] {
      PickSome(es[1..], marks[1..], side);
    }
  }

  lemma PickedIsEntry<E>(es: seq<E>, marks: seq<bool>, side: bool, e: E)
    requires |marks| == |es| && e in Pick(es, marks, side)
    ensures e in es
  {
    PickMembers(es, marks, side);
    assert e in multiset(Pick(es, marks, side)) + multiset(Pick(es, marks, !side));
  }

  lemma {:induction false} PickBelow<K, I>(ts: seq<Tree<K, I>>, marks: seq<bool>)
    requires |marks| == |ts|
    ensures multiset(ItemsBelow(Pick(ts, marks, true))) + multiset(ItemsBelow(Pick(ts, marks, false)))
            == multiset(ItemsBelow(ts))
  {
    if ts != [] {
      PickBelow(ts[1..], marks[1..]);
      PickStep(ts, marks);
      hide Pick, ItemsBelow, Items;
      BelowOneMore(ts[0], Pick(ts[1..], marks[1..], marks[0]));
      BelowOneMore(ts[0], ts[1..]);
      assert ts == [ts[0]] + ts[1..];
    }
  }

  lemma BelowOneMore<K, I>(t: Tree<K, I>, ts: seq<Tree<K, I>>)
    ensures multiset(ItemsBelow([t] + ts)) == multiset(Items(t)) + multiset(ItemsBelow(ts))
  {
    assert ([t] + ts)[1..] == ts;
  }

  lemma {:induction false} BelowJoin<K, I>(a: seq<Tree<K, I>>, b: seq<Tree<K, I>>)
    ensures ItemsBelow(a + b) == ItemsBelow(a) + ItemsBelow(b)
  {
    if a == [] {
      assert a + b == b;
    } else {
      assert (a + b)[1..] == a[1..] + b;
      BelowJoin(a[1..], b);
    }
  }

  lemma HalvesKeepItems<K, I>(t: Tree<K, I>, marks: seq<bool>, lkey: K, rkey: K)
    requires |marks| == EntryCount(t)
    ensures multiset(ItemsBelow([Half(t, marks, true, lkey), Half(t, marks, false, rkey)])) == multiset(Items(t))
  {
    var l, r := Half(t, marks, true, lkey), Half(t, marks, false, rkey);
    BelowOneMore(l, [r]);
    BelowOneMore(r, []);
    assert [r] + [] == [r] && [l] + [r] == [l, r];
    match t
    case Page(_, items) => PickMembers(items, marks, true);
    case Inner(_, kids) => PickBelow(kids, marks);
  }

  lemma BelowThree<K, I>(a: seq<Tree<K, I>>, b: seq<Tree<K, I>>, c: seq<Tree<K, I>>)
    ensures multiset(ItemsBelow(a + b + c)) == multiset(ItemsBelow(a)) + multiset(ItemsBelow(b)) + multiset(ItemsBelow(c))
  {
    hide ItemsBelow;
    BelowJoin(a + b, c);
    BelowJoin(a, b);
  }

  lemma BelowOne<K, I>(t: Tree<K, I>)
    ensures ItemsBelow([t]) == Items(t)
  {
    assert [t][1..] == [];
  }

  lemma KidSplit<K, I>(ts: seq<Tree<K, I>>, i: nat, halves: seq<Tree<K, I>>)
    requires i < |ts| && multiset(ItemsBelow(halves)) == multiset(Items(ts[i]))
    ensures multiset(ItemsBelow(ts[..i] + halves + ts[i + 1..])) == multiset(ItemsBelow(ts))
  {
    hide ItemsBelow, Items;
    BelowThree(ts[..i], halves, ts[i + 1..]);
    BelowThree(ts[..i], [ts[i]], ts[i + 1..]);
    BelowOne(ts[i]);
    assert ts[..i] + [ts[i]] + ts[i + 1..] == ts;
  }

  // A split loses and invents nothing.
  lemma {:induction false} SplitKeepsItems<K, I>(t: Tree<K, I>, path: seq<nat>, marks: seq<bool>, lkey: K, rkey: K,
                                                 leafKey: I -> K, union: seq<K> -> K, rule: SplitRule<K>)
    requires CanSplit(t, path, marks, lkey, rkey, leafKey, rule)
    ensures multiset(Items(Split(t, path, marks, lkey, rkey, leafKey, union, rule))) == multiset(Items(t))
    decreases |path|
  {
    if path == [] {
      HalvesKeepItems(t, marks, lkey, rkey);
    } else {
      var i, kid := path[0], t.kids[path[0]];
      if |path| == 1 {
        HalvesKeepItems(kid, marks, lkey, rkey);
        KidSplit(t.kids, i, [Half(kid, marks, true, lkey), Half(kid, marks, false, rkey)]);
      } else {
        SplitKeepsItems(kid, path[1..], marks, lkey, rkey, leafKey, union, rule);
        KidReplaced(t.kids, i, Split(kid, path[1..], marks, lkey, rkey, leafKey, union, rule));
      }
    }
  }

  // A side key covers what the entries on its side cover. For a page of items their exact keys are at hand.
  ghost predicate SplitKeeps<K(!new), I(!new)>(
    covers: (K, I) -> bool, ok: K -> bool, leafKey: I -> K, rule: SplitRule<K>)
  {
    && (forall k, xs: seq<I>, ys: seq<I> {:trigger rule.key(k, Keys(xs, leafKey), Keys(ys, leafKey))} |
          xs != [] && ys != [] && rule.key(k, Keys(xs, leafKey), Keys(ys, leafKey)) ::
            ok(k) && forall x | x in xs :: covers(k, x))
    && (rule.innerToo ==>
          forall k, ks, js | ks != [] && js != [] && rule.key(k, ks, js) && (forall e | e in ks + js :: ok(e)) ::
            ok(k) && forall e, x | e in ks && covers(e, x) :: covers(k, x))
  }

  function Keys<K, I>(xs: seq<I>, leafKey: I -> K): (ks: seq<K>)
    ensures |ks| == |xs|
  {
    seq(|xs|, i requires 0 <= i < |xs| => leafKey(xs[i]))
  }

  lemma HalfIsSound<K(!new), I(!new)>(
    t: Tree<K, I>, marks: seq<bool>, side: bool, key: K,
    covers: (K, I) -> bool, ok: K -> bool, leafKey: I -> K, rule: SplitRule<K>)
    requires |marks| == EntryCount(t) && true in marks && false in marks && (t.Page? || rule.innerToo)
    requires SplitKey(t, marks, side, key, leafKey, rule)
    requires Sound(t, covers, ok) && SplitKeeps(covers, ok, leafKey, rule)
    ensures Sound(Half(t, marks, side, key), covers, ok)
  {
    match t
    case Page(_, items) =>
      PickSome(items, marks, side);
      PickSome(items, marks, !side);
      assert rule.key(key, Keys(Pick(items, marks, side), leafKey), Keys(Pick(items, marks, !side), leafKey));
    case Inner(_, kids) => InnerHalfIsSound(t, marks, side, key, covers, ok, leafKey, rule);
  }

  lemma InnerHalfIsSound<K(!new), I(!new)>(
    t: Tree<K, I>, marks: seq<bool>, side: bool, key: K,
    covers: (K, I) -> bool, ok: K -> bool, leafKey: I -> K, rule: SplitRule<K>)
    requires t.Inner? && |marks| == |t.kids| && true in marks && false in marks && rule.innerToo
    requires SplitKey(t, marks, side, key, leafKey, rule)
    requires Sound(t, covers, ok) && SplitKeeps(covers, ok, leafKey, rule)
    ensures Sound(Half(t, marks, side, key), covers, ok)
  {
    var mine, others := Pick(t.kids, marks, side), Pick(t.kids, marks, !side);
    var ks, js := KidKeys(mine), KidKeys(others);
    PickSome(t.kids, marks, side);
    PickSome(t.kids, marks, !side);
    PickedAreSound(t, marks, side, covers, ok);
    PickedAreSound(t, marks, !side, covers, ok);
    assert EntryKeys(Half(t, marks, side, key), leafKey) == ks && EntryKeys(Half(t, marks, !side, key), leafKey) == js;
    assert rule.key(key, ks, js) && forall e | e in ks + js :: ok(e);
    forall x | x in ItemsBelow(mine)
      ensures covers(key, x)
    {
      var i := WhichKid(mine, x);
      assert mine[i] in mine && ks[i] == mine[i].key && ks[i] in ks;
    }
  }

  function KidKeys<K, I>(kids: seq<Tree<K, I>>): (ks: seq<K>)
    ensures |ks| == |kids|
  {
    seq(|kids|, i requires 0 <= i < |kids| => kids[i].key)
  }

  lemma PickedAreSound<K, I>(t: Tree<K, I>, marks: seq<bool>, side: bool, covers: (K, I) -> bool, ok: K -> bool)
    requires t.Inner? && |marks| == |t.kids| && Sound(t, covers, ok)
    ensures forall kid | kid in Pick(t.kids, marks, side) :: Sound(kid, covers, ok)
    ensures forall k | k in KidKeys(Pick(t.kids, marks, side)) :: ok(k)
  {
    var picked := Pick(t.kids, marks, side);
    forall kid | kid in picked
      ensures Sound(kid, covers, ok)
    {
      PickedIsEntry(t.kids, marks, side, kid);
    }
    forall k | k in KidKeys(picked)
      ensures ok(k)
    {
      var i :| 0 <= i < |picked| && KidKeys(picked)[i] == k;
      assert picked[i] in picked;
    }
  }

  lemma {:induction false} SplitKeepsSound<K(!new), I(!new)>(
    t: Tree<K, I>, path: seq<nat>, marks: seq<bool>, lkey: K, rkey: K,
    covers: (K, I) -> bool, ok: K -> bool, leafKey: I -> K, union: seq<K> -> K, rule: SplitRule<K>)
    requires CanSplit(t, path, marks, lkey, rkey, leafKey, rule) && Sound(t, covers, ok)
    requires UnionKeeps(covers, ok, leafKey, union) && SplitKeeps(covers, ok, leafKey, rule)
    ensures Sound(Split(t, path, marks, lkey, rkey, leafKey, union, rule), covers, ok)
    decreases |path|
  {
    if path == [] {
      RootSplitKeepsSound(t, marks, lkey, rkey, covers, ok, leafKey, union, rule);
    } else {
      var kid := t.kids[path[0]];
      var u := Split(t, path, marks, lkey, rkey, leafKey, union, rule);
      SplitKeepsItems(t, path, marks, lkey, rkey, leafKey, union, rule);
      if |path| == 1 {
        HalfIsSound(kid, marks, true, lkey, covers, ok, leafKey, rule);
        HalfIsSound(kid, marks, false, rkey, covers, ok, leafKey, rule);
      } else {
        SplitKeepsSound(kid, path[1..], marks, lkey, rkey, covers, ok, leafKey, union, rule);
      }
      hide UnionKeeps, SplitKeeps, CanSplit, Items, Half;
      SameItemsStaySound(t, u, covers, ok);
    }
  }

  // An inner node keeps its key when its kids change but its items do not.
  lemma SameItemsStaySound<K, I>(t: Tree<K, I>, u: Tree<K, I>, covers: (K, I) -> bool, ok: K -> bool)
    requires Sound(t, covers, ok) && u.Inner? && u.key == t.key && multiset(Items(u)) == multiset(Items(t))
    requires forall kid | kid in u.kids :: Sound(kid, covers, ok)
    ensures Sound(u, covers, ok)
  {
    forall x | x in Items(u)
      ensures covers(u.key, x)
    {
      assert x in multiset(Items(t));
    }
  }

  lemma RootSplitKeepsSound<K(!new), I(!new)>(
    t: Tree<K, I>, marks: seq<bool>, lkey: K, rkey: K,
    covers: (K, I) -> bool, ok: K -> bool, leafKey: I -> K, union: seq<K> -> K, rule: SplitRule<K>)
    requires CanSplit(t, [], marks, lkey, rkey, leafKey, rule) && Sound(t, covers, ok)
    requires UnionKeeps(covers, ok, leafKey, union) && SplitKeeps(covers, ok, leafKey, rule)
    ensures Sound(Split(t, [], marks, lkey, rkey, leafKey, union, rule), covers, ok)
  {
    HalfIsSound(t, marks, true, lkey, covers, ok, leafKey, rule);
    HalfIsSound(t, marks, false, rkey, covers, ok, leafKey, rule);
    var l, r := Half(t, marks, true, lkey), Half(t, marks, false, rkey);
    var ks := [lkey, rkey];
    assert lkey in ks && rkey in ks;
    forall x | x in ItemsBelow([l, r])
      ensures covers(union(ks), x)
    {
      var i := WhichKid([l, r], x);
      assert covers(ks[i], x);
    }
  }

  /* Runs */

  datatype Action<K, I> =
    | Inserting(path: seq<nat>, x: I)
    | Deleting(path: seq<nat>, i: nat)
    | Splitting(path: seq<nat>, marks: seq<bool>, lkey: K, rkey: K)

  // One action; one that does not fit the tree changes nothing.
  ghost function Act<K, I>(t: Tree<K, I>, a: Action<K, I>, leafKey: I -> K, union: seq<K> -> K, rule: SplitRule<K>): Tree<K, I> {
    match a
    case Inserting(path, x) => if LeadsToPage(t, path) then Insert(t, path, x, leafKey, union) else t
    case Deleting(path, i) => if LeadsToPage(t, path) then Delete(t, path, i) else t
    case Splitting(path, marks, lkey, rkey) =>
      if CanSplit(t, path, marks, lkey, rkey, leafKey, rule)
      then Split(t, path, marks, lkey, rkey, leafKey, union, rule) else t
  }

  ghost function Run<K, I>(
    t: Tree<K, I>, actions: seq<Action<K, I>>, leafKey: I -> K, union: seq<K> -> K, rule: SplitRule<K>): Tree<K, I>
    decreases |actions|
  {
    if actions == [] then t else Run(Act(t, actions[0], leafKey, union, rule), actions[1..], leafKey, union, rule)
  }

  lemma ActKeepsSound<K(!new), I(!new)>(
    t: Tree<K, I>, a: Action<K, I>, covers: (K, I) -> bool, ok: K -> bool, leafKey: I -> K, union: seq<K> -> K,
    rule: SplitRule<K>)
    requires Sound(t, covers, ok) && UnionKeeps(covers, ok, leafKey, union) && SplitKeeps(covers, ok, leafKey, rule)
    ensures Sound(Act(t, a, leafKey, union, rule), covers, ok)
  {
    hide Sound, UnionKeeps, SplitKeeps;
    match a
    case Inserting(path, x) =>
      if LeadsToPage(t, path) {
        InsertKeepsSound(t, path, x, covers, ok, leafKey, union);
      }
    case Deleting(path, i) =>
      if LeadsToPage(t, path) {
        DeleteKeepsSound(t, path, i, covers, ok);
      }
    case Splitting(path, marks, lkey, rkey) =>
      if CanSplit(t, path, marks, lkey, rkey, leafKey, rule) {
        SplitKeepsSound(t, path, marks, lkey, rkey, covers, ok, leafKey, union, rule);
      }
  }

  // Every run of insertions, deletions and splits keeps the tree sound.
  lemma {:induction false} RunKeepsSound<K(!new), I(!new)>(
    t: Tree<K, I>, actions: seq<Action<K, I>>, covers: (K, I) -> bool, ok: K -> bool, leafKey: I -> K, union: seq<K> -> K,
    rule: SplitRule<K>)
    requires Sound(t, covers, ok) && UnionKeeps(covers, ok, leafKey, union) && SplitKeeps(covers, ok, leafKey, rule)
    ensures Sound(Run(t, actions, leafKey, union, rule), covers, ok)
    decreases |actions|
  {
    hide Sound, UnionKeeps, SplitKeeps, Act;
    if actions != [] {
      ActKeepsSound(t, actions[0], covers, ok, leafKey, union, rule);
      RunKeepsSound(Act(t, actions[0], leafKey, union, rule), actions[1..], covers, ok, leafKey, union, rule);
    }
  }

  /* What a run leaves in the tree */

  // The item that one action puts in, and the one it takes out.
  function PutIn<K, I>(t: Tree<K, I>, a: Action<K, I>): multiset<I> {
    if a.Inserting? && LeadsToPage(t, a.path) then multiset{a.x} else multiset{}
  }

  function TakenOut<K, I>(t: Tree<K, I>, a: Action<K, I>): multiset<I> {
    if a.Deleting? && LeadsToPage(t, a.path) then Chosen(PageAt(t, a.path), a.i) else multiset{}
  }

  ghost function Inserted<K, I>(
    t: Tree<K, I>, actions: seq<Action<K, I>>, leafKey: I -> K, union: seq<K> -> K, rule: SplitRule<K>): multiset<I>
    decreases |actions|
  {
    if actions == [] then multiset{}
    else PutIn(t, actions[0]) + Inserted(Act(t, actions[0], leafKey, union, rule), actions[1..], leafKey, union, rule)
  }

  ghost function Deleted<K, I>(
    t: Tree<K, I>, actions: seq<Action<K, I>>, leafKey: I -> K, union: seq<K> -> K, rule: SplitRule<K>): multiset<I>
    decreases |actions|
  {
    if actions == [] then multiset{}
    else TakenOut(t, actions[0]) + Deleted(Act(t, actions[0], leafKey, union, rule), actions[1..], leafKey, union, rule)
  }

  lemma ActAccountsForItems<K, I>(
    t: Tree<K, I>, a: Action<K, I>, leafKey: I -> K, union: seq<K> -> K, rule: SplitRule<K>)
    ensures multiset(Items(Act(t, a, leafKey, union, rule))) + TakenOut(t, a) == multiset(Items(t)) + PutIn(t, a)
  {
    match a
    case Inserting(path, x) =>
      if LeadsToPage(t, path) {
        InsertAddsItem(t, path, x, leafKey, union);
      }
    case Deleting(path, i) =>
      if LeadsToPage(t, path) {
        DeleteRemovesItem(t, path, i);
      }
    case Splitting(path, marks, lkey, rkey) =>
      if CanSplit(t, path, marks, lkey, rkey, leafKey, rule) {
        SplitKeepsItems(t, path, marks, lkey, rkey, leafKey, union, rule);
      }
  }

  // After any run the tree holds what it held before and what was inserted, without what was deleted.
  lemma {:induction false} RunAccountsForItems<K, I>(
    t: Tree<K, I>, actions: seq<Action<K, I>>, leafKey: I -> K, union: seq<K> -> K, rule: SplitRule<K>)
    ensures multiset(Items(Run(t, actions, leafKey, union, rule))) + Deleted(t, actions, leafKey, union, rule)
            == multiset(Items(t)) + Inserted(t, actions, leafKey, union, rule)
    decreases |actions|
  {
    hide Items, Act, PutIn, TakenOut;
    if actions != [] {
      var u := Act(t, actions[0], leafKey, union, rule);
      ActAccountsForItems(t, actions[0], leafKey, union, rule);
      RunAccountsForItems(u, actions[1..], leafKey, union, rule);
      AddAccounts(multiset(Items(t)), multiset(Items(u)), multiset(Items(Run(u, actions[1..], leafKey, union, rule))),
                  PutIn(t, actions[0]), TakenOut(t, actions[0]),
                  Inserted(u, actions[1..], leafKey, union, rule), Deleted(u, actions[1..], leafKey, union, rule));
    }
  }

  lemma AddAccounts<I>(before: multiset<I>, between: multiset<I>, after: multiset<I>,
                       in1: multiset<I>, out1: multiset<I>, in2: multiset<I>, out2: multiset<I>)
    requires between + out1 == before + in1 && after + out2 == between + in2
    ensures after + (out1 + out2) == before + (in1 + in2)
  {
    assert after + (out1 + out2) == (after + out2) + out1;
    assert (between + in2) + out1 == (between + out1) + in2;
  }
}
