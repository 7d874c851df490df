/**
  Ordered GiST scans: pending subtrees and items are visited by increasing
  distance. Sound whenever a key's distance is a lower bound for its items.
 */
module Nearest {
  import opened GistTree

  datatype Pending<K, I> = Subtree(t: Tree<K, I>) | Single(x: I)

  datatype State<K, I> = State(queue: seq<Pending<K, I>>, out: seq<I>)

  function Below<K, I>(p: Pending<K, I>): seq<I> {
    match p
    case Subtree(t) => Items(t)
    case Single(x) => [x]
  }

  function AllBelow<K, I>(queue: seq<Pending<K, I>>): seq<I> {
    if queue == [] then [] else Below(queue[0]) + AllBelow(queue[1..])
  }

  function Distance<K, I>(p: Pending<K, I>, node: K -> real, leaf: I -> real): real {
    match p
    case Subtree(t) => node(t.key)
    case Single(x) => leaf(x)
  }

  function Entries<K, I>(t: Tree<K, I>): seq<Pending<K, I>> {
    match t
    case Page(_, items) => seq(|items|, i requires 0 <= i < |items| => Single(items[i]))
    case Inner(_, kids) => seq(|kids|, i requires 0 <= i < |kids| => Subtree(kids[i]))
  }

  // Entry i is as near as any other pending entry.
  ghost predicate Nearest<K, I>(s: State<K, I>, i: nat, node: K -> real, leaf: I -> real) {
    i < |s.queue| && forall p | p in s.queue :: Distance(s.queue[i], node, leaf) <= Distance(p, node, leaf)
  }

  // An item is reported, a page is opened.
  function Step<K, I>(s: State<K, I>, i: nat): State<K, I>
    requires i < |s.queue|
  {
    var rest := s.queue[..i] + s.queue[i + 1..];
    match s.queue[i]
    case Single(x) => State(rest, s.out + [x])
    case Subtree(t) => State(rest + Entries(t), s.out)
  }

  // A finite run: the entry chosen in each step.
  ghost predicate IsRun<K, I>(s: State<K, I>, choices: seq<nat>, node: K -> real, leaf: I -> real)
    decreases |choices|
  {
    choices == [] || (Nearest(s, choices[0], node, leaf) && IsRun(Step(s, choices[0]), choices[1..], node, leaf))
  }

  function After<K, I>(s: State<K, I>, choices: seq<nat>): State<K, I>
    decreases |choices|
  {
    if choices == [] || choices[0] >= |s.queue| then s else After(Step(s, choices[0]), choices[1..])
  }

  ghost predicate LowerBound<K(!new), I(!new)>(covers: (K, I) -> bool, ok: K -> bool, node: K -> real, leaf: I -> real) {
    forall k, x :: ok(k) && covers(k, x) ==> node(k) <= leaf(x)
  }

  ghost predicate Inv<K, I>(s: State<K, I>, all: multiset<I>, covers: (K, I) -> bool, ok: K -> bool, leaf: I -> real) {
    && multiset(s.out) + multiset(AllBelow(s.queue)) == all
    && (forall p | p in s.queue && p.Subtree? :: Sound(p.t, covers, ok))
    && (forall i, j | 0 <= i < j < |s.out| :: leaf(s.out[i]) <= leaf(s.out[j]))
    && (forall x, y | x in s.out && y in AllBelow(s.queue) :: leaf(x) <= leaf(y))
  }

  lemma {:induction false} BelowConcat<K, I>(a: seq<Pending<K, I>>, b: seq<Pending<K, I>>)
    ensures AllBelow(a + b) == AllBelow(a) + AllBelow(b)
    decreases |a|
  {
    if a == [] {
      assert a + b == b;
    } else {
      assert (a + b)[1..] == a[1..] + b;
      BelowConcat(a[1..], b);
    }
  }

  lemma {:induction false} BelowSingles<K, I>(items: seq<I>, es: seq<Pending<K, I>>)
    requires |es| == |items| && forall i | 0 <= i < |es| :: es[i] == Single(items[i])
    ensures AllBelow(es) == items
    decreases |items|
  {
    if items != [] {
      BelowSingles(items[1..], es[1..]);
      assert items == [items[0]] + items[1..];
    }
  }

  lemma {:induction false} BelowSubtrees<K, I>(kids: seq<Tree<K, I>>, es: seq<Pending<K, I>>)
    requires |es| == |kids| && forall i | 0 <= i < |es| :: es[i] == Subtree(kids[i])
    ensures AllBelow(es) == ItemsBelow(kids)
    decreases |kids|
  {
    if kids != [] {
      BelowSubtrees(kids[1..], es[1..]);
    }
  }

  lemma OpeningKeepsItems<K, I>(t: Tree<K, I>)
    ensures AllBelow(Entries(t)) == Items(t)
  {
    match t
    case Page(_, items) => BelowSingles(items, Entries(t));
    case Inner(_, kids) => BelowSubtrees(kids, Entries(t));
  }

  lemma {:induction false} BelowMember<K, I>(queue: seq<Pending<K, I>>, x: I) returns (p: Pending<K, I>)
    requires x in AllBelow(queue)
    ensures p in queue && x in Below(p)
  {
    if x in Below(queue[0]) {
      p := queue[0];
    } else {
      p := BelowMember(queue[1..], x);
    }
  }

  lemma BelowSingle<K, I>(p: Pending<K, I>)
    ensures AllBelow([p]) == Below(p)
  {
    assert [p][1..] == [];
  }

  lemma MiddleFirst<I>(a: seq<I>, p: seq<I>, b: seq<I>)
    ensures multiset(a + p + b) == multiset(p) + multiset(a + b)
  {
    assert multiset(a + p + b) == multiset(a) + multiset(p) + multiset(b);
  }

  lemma QueueParts<E>(queue: seq<E>, i: nat)
    requires i < |queue|
    ensures queue == queue[..i] + [queue[i]] + queue[i + 1..]
  {
  }

  lemma BelowParts<K, I>(a: seq<Pending<K, I>>, p: Pending<K, I>, b: seq<Pending<K, I>>)
    ensures AllBelow(a + [p] + b) == AllBelow(a) + Below(p) + AllBelow(b)
  {
    hide AllBelow, Below;
    BelowConcat(a + [p], b);
    BelowConcat(a, [p]);
    BelowSingle(p);
  }

  lemma SplitQueue<K, I>(queue: seq<Pending<K, I>>, i: nat)
    requires i < |queue|
    ensures multiset(AllBelow(queue)) == multiset(Below(queue[i])) + multiset(AllBelow(queue[..i] + queue[i + 1..]))
  {
    hide AllBelow, Below;
    QueueParts(queue, i);
    BelowParts(queue[..i], queue[i], queue[i + 1..]);
    BelowConcat(queue[..i], queue[i + 1..]);
    MiddleFirst(AllBelow(queue[..i]), Below(queue[i]), AllBelow(queue[i + 1..]));
  }

  lemma SameItems<I>(xs: seq<I>, ys: seq<I>)
    requires multiset(xs) <= multiset(ys)
    ensures forall x | x in xs :: x in ys
  {
    forall x | x in xs
      ensures x in ys
    {
      assert x in multiset(xs);
      assert x in multiset(ys);
    }
  }

  lemma NoneBelowIsNearer<K(!new), I(!new)>(
    s: State<K, I>, i: nat, covers: (K, I) -> bool, ok: K -> bool, node: K -> real, leaf: I -> real, y: I)
    requires LowerBound(covers, ok, node, leaf) && Nearest(s, i, node, leaf) && s.queue[i].Single?
    requires forall p | p in s.queue && p.Subtree? :: Sound(p.t, covers, ok)
    requires y in AllBelow(s.queue)
    ensures leaf(s.queue[i].x) <= leaf(y)
  {
    hide AllBelow, Items;
    var p := BelowMember(s.queue, y);
    assert Distance(p, node, leaf) <= leaf(y);
  }

  lemma ReportKeepsInv<K(!new), I(!new)>(
    s: State<K, I>, i: nat, all: multiset<I>, covers: (K, I) -> bool, ok: K -> bool, node: K -> real, leaf: I -> real)
    requires Inv(s, all, covers, ok, leaf) && LowerBound(covers, ok, node, leaf) && Nearest(s, i, node, leaf)
    requires s.queue[i].Single?
    ensures Inv(Step(s, i), all, covers, ok, leaf)
  {
    hide AllBelow, Items;
    var x, u := s.queue[i].x, Step(s, i);
    SplitQueue(s.queue, i);
    SameItems(AllBelow(u.queue), AllBelow(s.queue));
    SameItems([x], AllBelow(s.queue));
    assert x in [x];
    forall y | y in AllBelow(u.queue)
      ensures leaf(x) <= leaf(y)
    {
      NoneBelowIsNearer(s, i, covers, ok, node, leaf, y);
    }
  }

  lemma OpenKeepsInv<K(!new), I(!new)>(
    s: State<K, I>, i: nat, all: multiset<I>, covers: (K, I) -> bool, ok: K -> bool, leaf: I -> real)
    requires Inv(s, all, covers, ok, leaf) && i < |s.queue| && s.queue[i].Subtree?
    ensures Inv(Step(s, i), all, covers, ok, leaf)
  {
    hide AllBelow, Items;
    var rest, t, u := s.queue[..i] + s.queue[i + 1..], s.queue[i].t, Step(s, i);
    SplitQueue(s.queue, i);
    BelowConcat(rest, Entries(t));
    OpeningKeepsItems(t);
    SameItems(AllBelow(u.queue), AllBelow(s.queue));
  }

  lemma StepKeepsInv<K(!new), I(!new)>(
    s: State<K, I>, i: nat, all: multiset<I>, covers: (K, I) -> bool, ok: K -> bool, node: K -> real, leaf: I -> real)
    requires Inv(s, all, covers, ok, leaf) && LowerBound(covers, ok, node, leaf) && Nearest(s, i, node, leaf)
    ensures Inv(Step(s, i), all, covers, ok, leaf)
  {
    if s.queue[i].Single? {
      ReportKeepsInv(s, i, all, covers, ok, node, leaf);
    } else {
      OpenKeepsInv(s, i, all, covers, ok, leaf);
    }
  }

  lemma {:induction false} RunKeepsInv<K(!new), I(!new)>(
    s: State<K, I>, choices: seq<nat>, all: multiset<I>,
    covers: (K, I) -> bool, ok: K -> bool, node: K -> real, leaf: I -> real)
    requires Inv(s, all, covers, ok, leaf) && LowerBound(covers, ok, node, leaf) && IsRun(s, choices, node, leaf)
    ensures Inv(After(s, choices), all, covers, ok, leaf)
    decreases |choices|
  {
    if choices != [] {
      StepKeepsInv(s, choices[0], all, covers, ok, node, leaf);
      RunKeepsInv(Step(s, choices[0]), choices[1..], all, covers, ok, node, leaf);
    }
  }

  // Every run, whichever of the equally near entries it takes, reports items by increasing distance,
  // none twice, and all of them once nothing is pending.
  lemma ReportsInOrder<K(!new), I(!new)>(
    t: Tree<K, I>, choices: seq<nat>, covers: (K, I) -> bool, ok: K -> bool, node: K -> real, leaf: I -> real)
    requires Sound(t, covers, ok) && LowerBound(covers, ok, node, leaf)
    requires IsRun(State([Subtree(t)], []), choices, node, leaf)
    ensures var s := After(State([Subtree(t)], []), choices);
            && (forall i, j | 0 <= i < j < |s.out| :: leaf(s.out[i]) <= leaf(s.out[j]))
            && multiset(s.out) + multiset(AllBelow(s.queue)) == multiset(Items(t))
            && (s.queue == [] ==> multiset(s.out) == multiset(Items(t)))
  {
    var s0 := State([Subtree(t)], []);
    assert s0.queue[1..] == [];
    assert AllBelow(s0.queue) == Items(t) + AllBelow(s0.queue[1..]);
    RunKeepsInv(s0, choices, multiset(Items(t)), covers, ok, node, leaf);
  }

  /* Progress and termination */

  // Nodes and items of a subtree.
  function Weight<K, I>(t: Tree<K, I>): nat
    decreases t, 1
  {
    match t
    case Page(_, items) => 1 + |items|
    case Inner(_, kids) => 1 + WeightBelow(kids)
  }

  function WeightBelow<K, I>(ts: seq<Tree<K, I>>): nat
    decreases ts, 0
  {
    if ts == [] then 0 else Weight(ts[0]) + WeightBelow(ts[1..])
  }

  function PendingWeight<K, I>(p: Pending<K, I>): (w: nat)
    ensures w > 0
  {
    match p
    case Subtree(t) => Weight(t)
    case Single(_) => 1
  }

  function QueueWeight<K, I>(queue: seq<Pending<K, I>>): nat {
    if queue == [] then 0 else PendingWeight(queue[0]) + QueueWeight(queue[1..])
  }

  lemma {:induction false} WeightConcat<K, I>(a: seq<Pending<K, I>>, b: seq<Pending<K, I>>)
    ensures QueueWeight(a + b) == QueueWeight(a) + QueueWeight(b)
  {
    if a == [] {
      assert a + b == b;
    } else {
      assert (a + b)[1..] == a[1..] + b;
      WeightConcat(a[1..], b);
    }
  }

  lemma {:induction false} WeightOfItems<K, I>(es: seq<Pending<K, I>>)
    requires forall i | 0 <= i < |es| :: es[i].Single?
    ensures QueueWeight(es) == |es|
  {
    if es != [] {
      WeightOfItems(es[1..]);
    }
  }

  lemma {:induction false} WeightOfKids<K, I>(kids: seq<Tree<K, I>>, es: seq<Pending<K, I>>)
    requires |es| == |kids| && forall i | 0 <= i < |es| :: es[i] == Subtree(kids[i])
    ensures QueueWeight(es) == WeightBelow(kids)
  {
    if es != [] {
      WeightOfKids(kids[1..], es[1..]);
    }
  }

  lemma OpeningWeighsOne<K, I>(t: Tree<K, I>)
    ensures Weight(t) == 1 + QueueWeight(Entries(t))
  {
    match t
    case Page(_, _) => WeightOfItems(Entries(t));
    case Inner(_, kids) => WeightOfKids(kids, Entries(t));
  }

  // Every step takes exactly one node or item off.
  lemma StepWeighsOne<K, I>(s: State<K, I>, i: nat)
    requires i < |s.queue|
    ensures QueueWeight(s.queue) == 1 + QueueWeight(Step(s, i).queue)
  {
    var before, p, after := s.queue[..i], s.queue[i], s.queue[i + 1..];
    assert s.queue == before + ([p] + after);
    assert ([p] + after)[1..] == after;
    WeightConcat(before, [p] + after);
    WeightConcat(before, after);
    if p.Subtree? {
      OpeningWeighsOne(p.t);
      WeightConcat(before + after, Entries(p.t));
    }
  }

  lemma {:induction false} RunWeighsItsLength<K, I>(s: State<K, I>, choices: seq<nat>, node: K -> real, leaf: I -> real)
    requires IsRun(s, choices, node, leaf)
    ensures QueueWeight(s.queue) == |choices| + QueueWeight(After(s, choices).queue)
    decreases |choices|
  {
    if choices != [] {
      StepWeighsOne(s, choices[0]);
      RunWeighsItsLength(Step(s, choices[0]), choices[1..], node, leaf);
    }
  }

  // While something is pending there is a next step.
  lemma {:induction false} SomeEntryIsNearest<K, I>(queue: seq<Pending<K, I>>, node: K -> real, leaf: I -> real) returns (i: nat)
    requires queue != []
    ensures i < |queue| && forall p | p in queue :: Distance(queue[i], node, leaf) <= Distance(p, node, leaf)
  {
    i := 0;
    if |queue| > 1 {
      var j := SomeEntryIsNearest(queue[1..], node, leaf);
      assert queue == [queue[0]] + queue[1..];
      i := if Distance(queue[0], node, leaf) <= Distance(queue[j + 1], node, leaf) then 0 else j + 1;
    }
  }

  lemma {:induction false} RunExtends<K, I>(s: State<K, I>, choices: seq<nat>, i: nat, node: K -> real, leaf: I -> real)
    requires IsRun(s, choices, node, leaf) && Nearest(After(s, choices), i, node, leaf)
    ensures IsRun(s, choices + [i], node, leaf)
    decreases |choices|
  {
    if choices == [] {
      assert choices + [i] == [i] && [i][1..] == [];
    } else {
      assert (choices + [i])[1..] == choices[1..] + [i];
      RunExtends(Step(s, choices[0]), choices[1..], i, node, leaf);
    }
  }

  // A run that no step can prolong.
  ghost predicate IsMaximal<K, I>(s: State<K, I>, choices: seq<nat>, node: K -> real, leaf: I -> real) {
    IsRun(s, choices, node, leaf) && forall i: nat :: !IsRun(s, choices + [i], node, leaf)
  }

  // No run is longer than the number of nodes and items of the tree, and every run that cannot be prolonged has
  // exactly that length and has reported every item once, by increasing distance.
  lemma MaximalRunsReportAll<K(!new), I(!new)>(
    t: Tree<K, I>, choices: seq<nat>, covers: (K, I) -> bool, ok: K -> bool, node: K -> real, leaf: I -> real)
    requires Sound(t, covers, ok) && LowerBound(covers, ok, node, leaf)
    requires IsRun(State([Subtree(t)], []), choices, node, leaf)
    ensures |choices| <= Weight(t)
    ensures IsMaximal(State([Subtree(t)], []), choices, node, leaf) ==>
      var out := After(State([Subtree(t)], []), choices).out;
      && |choices| == Weight(t) && multiset(out) == multiset(Items(t))
      && (forall i, j | 0 <= i < j < |out| :: leaf(out[i]) <= leaf(out[j]))
  {
    var s: State<K, I> := State([Subtree(t)], []);
    var end := After(s, choices);
    RunWeighsItsLength(s, choices, node, leaf);
    assert s.queue[1..] == [];
    assert QueueWeight(s.queue) == Weight(t);
    ReportsInOrder(t, choices, covers, ok, node, leaf);
    if IsMaximal(s, choices, node, leaf) && end.queue != [] {
      var i := SomeEntryIsNearest(end.queue, node, leaf);
      RunExtends(s, choices, i, node, leaf);
      assert false;
    }
  }
}
