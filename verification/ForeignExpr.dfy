/**
  Which expressions are shipped, said without the walker: what every node may be,
  where its collations have to come from, and when an expression is unsafe.
 */
module ForeignExpr {
  import opened Expressions
  import opened Collation

  /* What every node may be */

  // Nothing is looked up remotely that the server does not know, and nothing is assigned to.
  ghost predicate MayBeSent(g: Context, e: Expr) {
    && g.shippable(Type, e.typ)
    && !e.Unsupported?
    && (e.FuncExpr? ==> g.shippable(Procedure, e.funcid))
    && (e.Aggref? ==> g.shippable(Procedure, e.aggfnoid))
    && (e.OpExpr? || e.DistinctExpr? || e.ScalarArrayOp? ==> g.shippable(Operator, e.opno))
    && (e.Aggref? ==> forall o | o in e.order && !o.standard :: g.shippable(Operator, o.opno))
    && (e.ArrayRef? ==> !e.assigns)
    && (e.Param? ==> e.external)
    && (e.Var? && e.varno in g.relids && e.levelsup == 0 && e.attno < 0 ==>
          e.attno == SELF_ITEM_POINTER_ATTR || e.attno == OBJECT_ID_ATTR)
  }

  ghost predicate AllMayBeSent(g: Context, e: Expr) {
    MayBeSent(g, e) && forall a | a in Children(e) :: AllMayBeSent(g, a)
  }

  /* Where collations come from */

  // The collation of a node's own result.
  function Own(e: Expr): Oid {
    match e
    case ScalarArrayOp(_, _, _, _, _) => INVALID_OID
    case BoolExpr(_, _, _) => INVALID_OID
    case NullTest(_, _, _, _) => INVALID_OID
    case Unsupported(_) => INVALID_OID
    case _ => e.collid
  }

  // A foreign Var brings its collation; any other node has it from its inputs, if they agree on it.
  ghost predicate Derived(g: Context, e: Expr)
    decreases e, 1
  {
    Own(e) != INVALID_OID && ((e.Var? && e.varno in g.relids && e.levelsup == 0) || Agree(g, e, Own(e)))
  }

  // Some input has the collation c, none is tainted, and none has a third one: the default gives way.
  ghost predicate Agree(g: Context, e: Expr, c: Oid)
    decreases e, 0
  {
    && (exists a | a in Children(e) :: Derived(g, a) && Own(a) == c)
    && (forall a | a in Children(e) ::
          if Derived(g, a) then Own(a) == c || Own(a) == DEFAULT_COLLATION
          else Own(a) == INVALID_OID || Own(a) == DEFAULT_COLLATION)
  }

  // The node brings in a collation of its own, other than the default.
  ghost predicate Tainted(g: Context, e: Expr) {
    !Derived(g, e) && Own(e) != INVALID_OID && Own(e) != DEFAULT_COLLATION
  }

  // Whatever depends on a collation finds its inputs agreed on it.
  ghost predicate InputsAgree(g: Context, e: Expr) {
    && (InputCollation(e) != INVALID_OID ==> Agree(g, e, InputCollation(e)))
    && (forall a | a in Children(e) :: InputsAgree(g, a))
  }

  /* The join of several states */

  function JoinAll(cs: seq<Coll>): Coll {
    if cs == [] then NoColl else Join(JoinAll(cs[..|cs| - 1]), cs[|cs| - 1])
  }

  predicate Harmless(x: Coll, c: Oid) {
    x == NoColl || x == Safe(c) || x == Safe(DEFAULT_COLLATION)
  }

  lemma Snoc<T(!new)>(xs: seq<T>)
    requires xs != []
    ensures xs[|xs| - 1] in xs
    ensures forall x :: x in xs <==> x in xs[..|xs| - 1] || x == xs[|xs| - 1]
  {
    assert xs == xs[..|xs| - 1] + [xs[|xs| - 1]];
  }

  lemma {:induction false} JoinAllIsNone(cs: seq<Coll>)
    ensures JoinAll(cs) == NoColl <==> forall x | x in cs :: x == NoColl
  {
    if cs != [] {
      var before, last := cs[..|cs| - 1], cs[|cs| - 1];
      JoinAllIsNone(before);
      Snoc(cs);
      JoinStep(JoinAll(before), last, INVALID_OID);
      assert JoinAll(cs) == Join(JoinAll(before), last);
      forall x | x in before
        ensures x in cs
      {
        assert x in before + [last];
      }
      forall x | x in cs
        ensures x in before || x == last
      {
      }
    }
  }

  // Safe with c exactly if c is among the states and nothing speaks against it.
  lemma {:induction false} JoinAllIsSafe(cs: seq<Coll>, c: Oid)
    ensures JoinAll(cs) == Safe(c) <==> Safe(c) in cs && forall x | x in cs :: Harmless(x, c)
    decreases |cs|
  {
    if cs != [] {
      var before, last := cs[..|cs| - 1], cs[|cs| - 1];
      Snoc(cs);
      JoinAllIsSafe(before, c);
      JoinAllIsSafe(before, DEFAULT_COLLATION);
      JoinAllIsNone(before);
      JoinStep(JoinAll(before), last, c);
      assert JoinAll(cs) == Join(JoinAll(before), last);
      if Safe(c) !in before && forall x | x in before :: Harmless(x, c) {
        assert forall x | x in before :: Harmless(x, DEFAULT_COLLATION);
        assert JoinAll(before) == NoColl || JoinAll(before) == Safe(DEFAULT_COLLATION);
      }
    }
  }

  lemma JoinStep(a: Coll, b: Coll, c: Oid)
    ensures Join(a, b) == Safe(c) <==>
      || (a == Safe(c) && Harmless(b, c))
      || (b == Safe(c) && Harmless(a, c))
    ensures Join(a, b) == NoColl <==> a == NoColl && b == NoColl
  {
  }

  function StateOf(v: Verdict): Coll {
    if v.Accepted? then v.coll else Unsafe
  }

  function States(g: Context, es: seq<Expr>): (cs: seq<Coll>)
    ensures |cs| == |es| && forall i | 0 <= i < |es| :: cs[i] == StateOf(Judge(g, es[i]))
  {
    seq(|es|, i requires 0 <= i < |es| => StateOf(Judge(g, es[i])))
  }

  lemma {:induction false} ListIsJoin(g: Context, es: seq<Expr>)
    ensures JudgeAll(g, es).Accepted? <==> forall a | a in es :: Judge(g, a).Accepted?
    ensures JudgeAll(g, es).Accepted? ==> JudgeAll(g, es).coll == JoinAll(States(g, es))
    decreases |es|
  {
    hide Judge, JudgeNode;
    if es != [] {
      var last := |es| - 1;
      ListIsJoin(g, es[..last]);
      Snoc(es);
      assert States(g, es)[..last] == States(g, es[..last]);
    }
  }

  lemma {:induction false} ConcatIsBoth(g: Context, a: seq<Expr>, b: seq<Expr>)
    ensures JudgeAll(g, a + b) == Both(JudgeAll(g, a), JudgeAll(g, b))
    decreases |b|
  {
    hide Judge, JudgeNode;
    if b == [] {
      assert a + b == a;
      NoneIsNeutral(JudgeAll(g, a));
      assert JudgeAll(g, []) == Accepted(NoColl);
    } else {
      var last := |b| - 1;
      ConcatIsBoth(g, a, b[..last]);
      assert (a + b)[..|a + b| - 1] == a + b[..last];
      BothAssociates(JudgeAll(g, a), JudgeAll(g, b[..last]), Judge(g, b[last]));
    }
  }

  lemma NoneIsNeutral(v: Verdict)
    ensures Both(v, Accepted(NoColl)) == v
  {
  }

  lemma BothAssociates(a: Verdict, b: Verdict, c: Verdict)
    ensures Both(Both(a, b), c) == Both(a, Both(b, c))
  {
    if a.Accepted? && b.Accepted? && c.Accepted? {
      JoinLaws(a.coll, b.coll, c.coll);
    }
  }

  // Whatever the node, what lies below it is judged as one list.
  lemma InnerIsList(g: Context, e: Expr)
    ensures Inner(g, e) == JudgeAll(g, Children(e))
  {
    hide Judge, JudgeNode, JudgeAll;
    if e.ArrayRef? {
      ConcatIsBoth(g, e.upper + e.lower, [e.base]);
      ConcatIsBoth(g, e.upper, e.lower);
      JudgeSingle(g, e.base);
    }
  }

  /* One node */

  predicate IsLeaf(e: Expr) {
    e.Var? || e.Const? || e.Param? || e.Unsupported?
  }

  // A node with inputs: may be sent, inputs accepted, input collation found, result collation derived or not.
  lemma NodeJudged(g: Context, e: Expr)
    requires !IsLeaf(e)
    ensures Judge(g, e).Accepted? <==>
      MayBeSent(g, e) && Inner(g, e).Accepted? && (InputCollation(e) != INVALID_OID ==> Inner(g, e).coll == Safe(InputCollation(e)))
    ensures Judge(g, e).Accepted? ==>
      && (Judge(g, e).coll == Safe(Own(e)) <==> Own(e) != INVALID_OID && Inner(g, e).coll == Safe(Own(e)))
      && (forall c :: Judge(g, e).coll == Safe(c) ==> c == Own(e))
      && (Judge(g, e).coll == Unsafe <==>
            Own(e) != INVALID_OID && Own(e) != DEFAULT_COLLATION && Inner(g, e).coll != Safe(Own(e)))
  {
    hide JudgeAll;
    if e.RelabelType? || e.NullTest? {
      JudgeSingle(g, e.arg);
    }
    if e.Aggref? {
      OrderIsMembers(g, e.order);
    }
  }

  lemma OrderIsMembers(g: Context, order: seq<SortOp>)
    ensures OrderShippable(g, order) <==> forall o | o in order && !o.standard :: g.shippable(Operator, o.opno)
  {
  }

  lemma LeafJudged(g: Context, e: Expr)
    requires IsLeaf(e)
    ensures Judge(g, e).Accepted? <==> MayBeSent(g, e)
    ensures Judge(g, e).Accepted? ==> Judge(g, e).coll == Meant(g, e)
    ensures AllMayBeSent(g, e) <==> MayBeSent(g, e)
    ensures InputsAgree(g, e)
  {
    LeafAgrees(g, e);
    assert !Agree(g, e, Own(e));
  }

  // The state of an expression, from its collations alone.
  ghost function Meant(g: Context, e: Expr): Coll {
    if Derived(g, e) then Safe(Own(e)) else if Tainted(g, e) then Unsafe else NoColl
  }

  // If the inputs are in the state they are meant to be in, together they are safe exactly if they agree.
  lemma AgreeIsSafe(g: Context, e: Expr, c: Oid)
    requires forall a | a in Children(e) :: Judge(g, a) == Accepted(Meant(g, a))
    ensures JudgeAll(g, Children(e)).Accepted?
    ensures JudgeAll(g, Children(e)).coll == Safe(c) <==> Agree(g, e, c)
  {
    var es := Children(e);
    var cs := States(g, es);
    ListIsJoin(g, es);
    JoinAllIsSafe(cs, c);
    StatesAreMeant(g, es, c);
    hide Judge, JudgeAll, JoinAll, Join, Derived, Children;
  }

  lemma StatesAreMeant(g: Context, es: seq<Expr>, c: Oid)
    requires forall a | a in es :: Judge(g, a) == Accepted(Meant(g, a))
    ensures Safe(c) in States(g, es) <==> exists a | a in es :: Derived(g, a) && Own(a) == c
    ensures (forall x | x in States(g, es) :: Harmless(x, c)) <==>
      forall a | a in es ::
        if Derived(g, a) then Own(a) == c || Own(a) == DEFAULT_COLLATION
        else Own(a) == INVALID_OID || Own(a) == DEFAULT_COLLATION
  {
    hide Judge, Derived, Own;
    var cs := States(g, es);
    forall i | 0 <= i < |es|
      ensures cs[i] == Meant(g, es[i]) && es[i] in es && cs[i] in cs
    {
      assert es[i] in es;
    }
    assert forall x | x in cs :: exists i | 0 <= i < |es| :: x == Meant(g, es[i]);
  }

  // The walker's verdict on every expression: accepted exactly if every node may be sent and finds the collation
  // it depends on; and then safe exactly if its collation is derived, unsafe exactly if it is tainted.
  lemma {:induction false} JudgedExactly(g: Context, e: Expr)
    ensures Judge(g, e).Accepted? <==> AllMayBeSent(g, e) && InputsAgree(g, e)
    ensures Judge(g, e).Accepted? ==> Judge(g, e).coll == Meant(g, e)
    decreases e
  {
    hide Judge, JudgeNode, JudgeAll, Inner, Agree, Derived, MayBeSent, Meant;
    forall a | a in Children(e)
      ensures Judge(g, a).Accepted? <==> AllMayBeSent(g, a) && InputsAgree(g, a)
      ensures Judge(g, a).Accepted? ==> Judge(g, a).coll == Meant(g, a)
    {
      JudgedExactly(g, a);
    }
    if IsLeaf(e) {
      LeafJudged(g, e);
    } else {
      InnerIsList(g, e);
      ListIsJoin(g, Children(e));
      NodeJudged(g, e);
      if forall a | a in Children(e) :: Judge(g, a).Accepted? {
        AgreeIsSafe(g, e, Own(e));
        AgreeIsSafe(g, e, InputCollation(e));
        if Judge(g, e).Accepted? {
          InnerState(g, e);
        }
      }
    }
  }

  lemma LeafAgrees(g: Context, e: Expr)
    requires IsLeaf(e)
    ensures Children(e) == [] && InputCollation(e) == INVALID_OID
    ensures forall c :: !Agree(g, e, c)
  {
  }

  lemma InnerState(g: Context, e: Expr)
    requires !IsLeaf(e) && Judge(g, e).Accepted? && Inner(g, e).Accepted?
    requires Inner(g, e).coll == Safe(Own(e)) <==> Agree(g, e, Own(e))
    ensures Judge(g, e).coll == Meant(g, e)
  {
    NodeJudged(g, e);
    hide Judge, Inner, Agree;
  }

  // An expression is shipped exactly if every node may be sent and finds the collation it depends on, it brings in
  // no collation of its own, and nothing in it is mutable.
  method IsForeignExpr(g: Context, e: Expr, containsMutable: bool) returns (ok: bool)
    ensures ok <==> AllMayBeSent(g, e) && InputsAgree(g, e) && !Tainted(g, e) && !containsMutable
  {
    hide Judge, Derived;
    var cxt := new LocCxt();
    ok := Walk(g, e, cxt);
    JudgedExactly(g, e);
    if ok {
      ok := cxt.state != UnsafeState && !containsMutable;
    }
  }
}
