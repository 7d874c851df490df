/**
  is_foreign_expr and its walker: which expressions may be evaluated remotely,
  judged by what is shippable and by where collations come from.
 */
module Collation {
  import opened Expressions

  datatype Kind = Procedure | Operator | Type

  // The foreign relation: its base relations and what may be shipped to its server.
  datatype Context = Context(relids: set<nat>, shippable: (Kind, Oid) -> bool)

  predicate IsForeignVar(g: Context, e: Expr) {
    e.Var? && e.varno in g.relids && e.levelsup == 0
  }

  /* Collation states as a lattice */

  // NONE, SAFE with its collation, UNSAFE.
  datatype Coll = NoColl | Safe(c: Oid) | Unsafe

  function Join(a: Coll, b: Coll): Coll {
    match (a, b)
    case (NoColl, _) => b
    case (_, NoColl) => a
    case (Unsafe, _) => Unsafe
    case (_, Unsafe) => Unsafe
    case (Safe(c), Safe(d)) =>
      if c == d || d == DEFAULT_COLLATION then a else if c == DEFAULT_COLLATION then b else Unsafe
  }

  lemma JoinLaws(a: Coll, b: Coll, c: Coll)
    ensures Join(a, b) == Join(b, a)
    ensures Join(a, a) == a && Join(NoColl, a) == a
    ensures Join(a, Join(b, c)) == Join(Join(a, b), c)
  {
  }

  // A result collation is safe if it is the one the inputs derive from a foreign Var.
  function Derive(inner: Coll, c: Oid): Coll {
    if c == INVALID_OID then NoColl
    else if inner == Safe(c) then Safe(c)
    else if c == DEFAULT_COLLATION then NoColl
    else Unsafe
  }

  // Consts, Params and foreign relations' outsiders: only the default collation is harmless.
  function Outside(c: Oid): Coll {
    if c == INVALID_OID || c == DEFAULT_COLLATION then NoColl else Unsafe
  }

  predicate InputOk(inner: Coll, inputcollid: Oid) {
    inputcollid == INVALID_OID || inner == Safe(inputcollid)
  }

  datatype Verdict = Rejected | Accepted(coll: Coll)

  /* What the walker decides, as a function */

  function Judge(g: Context, e: Expr): Verdict
    decreases e, 1
  {
    var own := JudgeNode(g, e);
    if own.Accepted? && !g.shippable(Type, e.typ) then Rejected else own
  }

  function JudgeNode(g: Context, e: Expr): Verdict
    decreases e, 0
  {
    match e
    case Var(_, _, attno, _, collid) =>
      if IsForeignVar(g, e) then
        if attno < 0 && attno != SELF_ITEM_POINTER_ATTR && attno != OBJECT_ID_ATTR then Rejected
        else Accepted(if collid == INVALID_OID then NoColl else Safe(collid))
      else Accepted(Outside(collid))
    case Const(_, _, collid) => Accepted(Outside(collid))
    case Param(_, external, _, collid) => if external then Accepted(Outside(collid)) else Rejected
    case ArrayRef(base, upper, lower, assigns, _, collid) =>
      var inner := Both(Both(JudgeAll(g, upper), JudgeAll(g, lower)), Judge(g, base));
      if assigns || inner.Rejected? then Rejected else Accepted(Derive(inner.coll, collid))
    case FuncExpr(funcid, _, _, args, _, inputcollid, collid) =>
      Applied(g.shippable(Procedure, funcid), JudgeAll(g, args), inputcollid, collid)
    case OpExpr(opno, args, _, inputcollid, collid) =>
      Applied(g.shippable(Operator, opno), JudgeAll(g, args), inputcollid, collid)
    case DistinctExpr(opno, args, _, inputcollid, collid) =>
      Applied(g.shippable(Operator, opno), JudgeAll(g, args), inputcollid, collid)
    case ScalarArrayOp(opno, _, args, _, inputcollid) =>
      Applied(g.shippable(Operator, opno), JudgeAll(g, args), inputcollid, INVALID_OID)
    case RelabelType(arg, _, _, collid) => Applied(true, Judge(g, arg), INVALID_OID, collid)
    case BoolExpr(_, args, _) => Applied(true, JudgeAll(g, args), INVALID_OID, INVALID_OID)
    case NullTest(arg, _, _, _) => Applied(true, Judge(g, arg), INVALID_OID, INVALID_OID)
    case ArrayExpr(elements, _, collid) => Applied(true, JudgeAll(g, elements), INVALID_OID, collid)
    case Aggref(aggfnoid, args, order, _, inputcollid, collid) =>
      Applied(g.shippable(Procedure, aggfnoid) && OrderShippable(g, order), JudgeAll(g, args), inputcollid, collid)
    case Unsupported(_) => Rejected
  }

  function Applied(allowed: bool, inner: Verdict, inputcollid: Oid, collid: Oid): Verdict {
    if !allowed || inner.Rejected? || !InputOk(inner.coll, inputcollid) then Rejected
    else Accepted(Derive(inner.coll, collid))
  }

  predicate OrderShippable(g: Context, order: seq<SortOp>) {
    forall i | 0 <= i < |order| :: order[i].standard || g.shippable(Operator, order[i].opno)
  }

  function Both(a: Verdict, b: Verdict): Verdict {
    if a.Rejected? || b.Rejected? then Rejected else Accepted(Join(a.coll, b.coll))
  }

  function JudgeAll(g: Context, es: seq<Expr>): Verdict
    decreases es, 0
  {
    if es == [] then Accepted(NoColl)
    else
      assert es[|es| - 1] in es;
      Both(JudgeAll(g, es[..|es| - 1]), Judge(g, es[|es| - 1]))
  }

  /* The walker itself */

  datatype CollateState = None | SafeState | UnsafeState

  function Rank(s: CollateState): int {
    match s
    case None => 0
    case SafeState => 1
    case UnsafeState => 2
  }

  class LocCxt {
    var collation: Oid
    var state: CollateState

    constructor ()
      ensures Value() == NoColl
    {
      collation, state := INVALID_OID, None;
    }

    function Value(): Coll
      reads this
    {
      match state
      case None => NoColl
      case SafeState => Safe(collation)
      case UnsafeState => Unsafe
    }

    // A child's collation joins its parent's state.
    method Merge(c: Oid, s: CollateState)
      modifies this
      ensures Value() == Join(old(Value()), match s case None => NoColl case SafeState => Safe(c) case UnsafeState => Unsafe)
    {
      if Rank(s) > Rank(state) {
        collation, state := c, s;
      } else if s == state {
        match s {
          case None =>
          case SafeState =>
            if c != collation {
              if collation == DEFAULT_COLLATION {
                collation := c;
              } else if c != DEFAULT_COLLATION {
                state := UnsafeState;
              }
            }
          case UnsafeState =>
        }
      }
    }

    // The rule for functions, operators, casts and constructors.
    method DeriveState(c: Oid) returns (s: CollateState)
      ensures Derive(Value(), c) == match s case None => NoColl case SafeState => Safe(c) case UnsafeState => Unsafe
    {
      if c == INVALID_OID {
        s := None;
      } else if state == SafeState && c == collation {
        s := SafeState;
      } else if c == DEFAULT_COLLATION {
        s := None;
      } else {
        s := UnsafeState;
      }
    }

    method AcceptsInput(inputcollid: Oid) returns (ok: bool)
      ensures ok <==> InputOk(Value(), inputcollid)
    {
      ok := inputcollid == INVALID_OID || !(state != SafeState || inputcollid != collation);
    }
  }

  // Every list is walked with a state of its own, which then joins the caller's.
  method WalkList(g: Context, es: seq<Expr>, outer: LocCxt) returns (ok: bool)
    modifies outer
    ensures ok <==> JudgeAll(g, es).Accepted?
    ensures ok ==> outer.Value() == Join(old(outer.Value()), JudgeAll(g, es).coll)
    decreases es, 1
  {
    var inner := new LocCxt();
    ok := WalkEach(g, es, inner);
    if ok {
      outer.Merge(inner.collation, inner.state);
    }
  }

  method WalkEach(g: Context, es: seq<Expr>, inner: LocCxt) returns (ok: bool)
    requires inner.Value() == NoColl
    modifies inner
    ensures ok <==> JudgeAll(g, es).Accepted?
    ensures ok ==> inner.Value() == JudgeAll(g, es).coll
    decreases es, 0
  {
    hide JudgeNode;
    var i := 0;
    while i < |es|
      invariant 0 <= i <= |es|
      invariant JudgeAll(g, es[..i]) == Accepted(inner.Value())
    {
      assert es[..i + 1][..i] == es[..i];
      var accepted := Walk(g, es[i], inner);
      if !accepted {
        RejectedStays(g, es, i + 1);
        return false;
      }
      i := i + 1;
    }
    assert es[..i] == es;
    ok := true;
  }

  lemma {:induction false} RejectedStays(g: Context, es: seq<Expr>, i: nat)
    requires i <= |es| && JudgeAll(g, es[..i]).Rejected?
    ensures JudgeAll(g, es).Rejected?
    decreases |es| - i
  {
    if i == |es| {
      assert es[..i] == es;
    } else {
      assert es[..i + 1][..i] == es[..i];
      RejectedStays(g, es, i + 1);
    }
  }

  // The common ending of every node with arguments: input collation, result collation.
  method Conclude(inner: LocCxt, inputcollid: Oid, collid: Oid, outer: LocCxt) returns (ok: bool)
    requires inner != outer
    modifies outer
    ensures ok <==> InputOk(inner.Value(), inputcollid)
    ensures ok ==> outer.Value() == Join(old(outer.Value()), Derive(inner.Value(), collid))
  {
    ok := inner.AcceptsInput(inputcollid);
    if ok {
      var s := inner.DeriveState(collid);
      outer.Merge(collid, s);
    }
  }

  method Walk(g: Context, e: Expr, outer: LocCxt) returns (ok: bool)
    modifies outer
    ensures ok <==> Judge(g, e).Accepted?
    ensures ok ==> outer.Value() == Join(old(outer.Value()), Judge(g, e).coll)
    decreases e, 1
  {
    if !g.shippable(Type, e.typ) {
      return false;
    }
    match e {
      case Var(_, _, _, _, _) => ok := WalkLeaf(g, e, outer);
      case Const(_, _, _) => ok := WalkLeaf(g, e, outer);
      case Param(_, _, _, _) => ok := WalkLeaf(g, e, outer);
      case ArrayRef(_, _, _, _, _, _) => ok := WalkArrayRef(g, e, outer);
      case FuncExpr(funcid, _, _, args, _, inputcollid, collid) =>
        ok := WalkApplied(g, g.shippable(Procedure, funcid), args, inputcollid, collid, outer);
      case OpExpr(opno, args, _, inputcollid, collid) =>
        ok := WalkApplied(g, g.shippable(Operator, opno), args, inputcollid, collid, outer);
      case DistinctExpr(opno, args, _, inputcollid, collid) =>
        ok := WalkApplied(g, g.shippable(Operator, opno), args, inputcollid, collid, outer);
      case ScalarArrayOp(opno, _, args, _, inputcollid) =>
        ok := WalkApplied(g, g.shippable(Operator, opno), args, inputcollid, INVALID_OID, outer);
      case RelabelType(arg, _, _, collid) => ok := WalkWrapped(g, arg, collid, outer);
      case BoolExpr(_, args, _) => ok := WalkApplied(g, true, args, INVALID_OID, INVALID_OID, outer);
      case NullTest(arg, _, _, _) => ok := WalkWrapped(g, arg, INVALID_OID, outer);
      case ArrayExpr(elements, _, collid) => ok := WalkApplied(g, true, elements, INVALID_OID, collid, outer);
      case Aggref(aggfnoid, args, order, _, inputcollid, collid) =>
        var allowed := g.shippable(Procedure, aggfnoid) && OrderShippable(g, order);
        ok := WalkApplied(g, allowed, args, inputcollid, collid, outer);
      case Unsupported(_) => ok := false;
    }
  }

  method WalkLeaf(g: Context, e: Expr, outer: LocCxt) returns (ok: bool)
    requires e.Var? || e.Const? || e.Param?
    modifies outer
    ensures ok <==> JudgeNode(g, e).Accepted?
    ensures ok ==> outer.Value() == Join(old(outer.Value()), JudgeNode(g, e).coll)
  {
    var state := if e.collid == INVALID_OID || e.collid == DEFAULT_COLLATION then None else UnsafeState;
    if e.Var? && e.varno in g.relids && e.levelsup == 0 {
      if e.attno < 0 && e.attno != SELF_ITEM_POINTER_ATTR && e.attno != OBJECT_ID_ATTR {
        return false;
      }
      state := if e.collid != INVALID_OID then SafeState else None;
    } else if e.Param? && !e.external {
      return false;
    }
    outer.Merge(e.collid, state);
    ok := true;
  }

  method WalkApplied(g: Context, allowed: bool, args: seq<Expr>, inputcollid: Oid, collid: Oid, outer: LocCxt)
    returns (ok: bool)
    modifies outer
    ensures ok <==> Applied(allowed, JudgeAll(g, args), inputcollid, collid).Accepted?
    ensures ok ==> outer.Value() == Join(old(outer.Value()), Applied(allowed, JudgeAll(g, args), inputcollid, collid).coll)
    decreases args, 2
  {
    if !allowed {
      return false;
    }
    var inner := new LocCxt();
    ok := WalkList(g, args, inner);
    if ok {
      ok := Conclude(inner, inputcollid, collid, outer);
    }
  }

  method WalkWrapped(g: Context, arg: Expr, collid: Oid, outer: LocCxt) returns (ok: bool)
    modifies outer
    ensures ok <==> Applied(true, Judge(g, arg), INVALID_OID, collid).Accepted?
    ensures ok ==> outer.Value() == Join(old(outer.Value()), Applied(true, Judge(g, arg), INVALID_OID, collid).coll)
    decreases arg, 2
  {
    var inner := new LocCxt();
    ok := Walk(g, arg, inner);
    if ok {
      ok := Conclude(inner, INVALID_OID, collid, outer);
    }
  }

  method WalkArrayRef(g: Context, e: Expr, outer: LocCxt) returns (ok: bool)
    requires e.ArrayRef?
    modifies outer
    ensures ok <==> JudgeNode(g, e).Accepted?
    ensures ok ==> outer.Value() == Join(old(outer.Value()), JudgeNode(g, e).coll)
    decreases e, 0
  {
    if e.assigns {
      return false;
    }
    var inner := new LocCxt();
    ok := WalkList(g, e.upper, inner);
    if ok {
      ok := WalkList(g, e.lower, inner);
    }
    if ok {
      ok := Walk(g, e.base, inner);
    }
    if ok {
      ok := Conclude(inner, INVALID_OID, e.collid, outer);
    }
  }

  /* Where the collations of an accepted expression come from */

  // A Var of the foreign relation with collation c occurs in e.
  ghost predicate HasForeignVar(g: Context, e: Expr, c: Oid) {
    (IsForeignVar(g, e) && e.collid == c) || exists a | a in Children(e) :: HasForeignVar(g, a, c)
  }

  function InputCollation(e: Expr): Oid {
    match e
    case FuncExpr(_, _, _, _, _, inputcollid, _) => inputcollid
    case OpExpr(_, _, _, inputcollid, _) => inputcollid
    case DistinctExpr(_, _, _, inputcollid, _) => inputcollid
    case ScalarArrayOp(_, _, _, _, inputcollid) => inputcollid
    case Aggref(_, _, _, _, inputcollid, _) => inputcollid
    case _ => INVALID_OID
  }

  // Every function, operator and aggregate in e that depends on a collation takes it from a foreign Var below it.
  ghost predicate InputsTraced(g: Context, e: Expr) {
    && (InputCollation(e) != INVALID_OID ==> exists a | a in Children(e) :: HasForeignVar(g, a, InputCollation(e)))
    && (forall a | a in Children(e) :: InputsTraced(g, a))
  }

  lemma {:induction false} SafeInList(g: Context, es: seq<Expr>, c: Oid) returns (i: nat)
    requires JudgeAll(g, es) == Accepted(Safe(c))
    ensures i < |es| && Judge(g, es[i]) == Accepted(Safe(c))
    decreases |es|
  {
    hide JudgeNode;
    var last := |es| - 1;
    if Judge(g, es[last]) == Accepted(Safe(c)) {
      i := last;
    } else {
      i := SafeInList(g, es[..last], c);
    }
  }

  // The verdict on everything below a node.
  function Inner(g: Context, e: Expr): Verdict {
    if e.ArrayRef? then Both(Both(JudgeAll(g, e.upper), JudgeAll(g, e.lower)), Judge(g, e.base))
    else JudgeAll(g, Children(e))
  }

  lemma JudgeSingle(g: Context, e: Expr)
    ensures JudgeAll(g, [e]) == Judge(g, e)
  {
    hide JudgeNode;
    assert [e][..0] == [];
    assert JudgeAll(g, []) == Accepted(NoColl);
  }

  // An accepted inner node derives its collation from what lies below it.
  lemma NodeUsesInner(g: Context, e: Expr)
    requires Children(e) != [] && Judge(g, e).Accepted?
    ensures Inner(g, e).Accepted? && InputOk(Inner(g, e).coll, InputCollation(e))
    ensures Judge(g, e).coll == NoColl || Judge(g, e).coll == Unsafe || Judge(g, e).coll == Inner(g, e).coll
  {
    if e.RelabelType? || e.NullTest? {
      JudgeSingle(g, e.arg);
    }
  }

  lemma SafeBelow(g: Context, e: Expr, c: Oid) returns (a: Expr)
    requires Inner(g, e) == Accepted(Safe(c))
    ensures a in Children(e) && Judge(g, a) == Accepted(Safe(c))
  {
    hide JudgeNode;
    if e.ArrayRef? {
      if Judge(g, e.base) == Accepted(Safe(c)) {
        a := e.base;
      } else if JudgeAll(g, e.lower) == Accepted(Safe(c)) {
        var i := SafeInList(g, e.lower, c);
        a := e.lower[i];
      } else {
        var i := SafeInList(g, e.upper, c);
        a := e.upper[i];
      }
    } else {
      var i := SafeInList(g, Children(e), c);
      a := Children(e)[i];
    }
  }

  lemma LeafIsSafeAsVar(g: Context, e: Expr, c: Oid)
    requires Children(e) == [] && Judge(g, e) == Accepted(Safe(c))
    ensures (IsForeignVar(g, e) && e.collid == c)
         || (!e.Var? && !e.Const? && !e.Param? && !e.Unsupported?)
  {
  }

  lemma EmptyNodeIsNeverSafe(g: Context, e: Expr, c: Oid)
    requires Children(e) == [] && Judge(g, e) == Accepted(Safe(c))
    ensures e.Var? || e.Const? || e.Param? || e.Unsupported?
  {
    assert JudgeAll(g, []) == Accepted(NoColl);
  }

  lemma {:induction false} SafeComesFromVar(g: Context, e: Expr, c: Oid)
    requires Judge(g, e) == Accepted(Safe(c))
    ensures HasForeignVar(g, e, c)
    decreases e
  {
    hide Judge, JudgeNode;
    if Children(e) == [] {
      EmptyNodeIsNeverSafe(g, e, c);
      LeafIsSafeAsVar(g, e, c);
    } else {
      NodeUsesInner(g, e);
      var a := SafeBelow(g, e, c);
      SafeComesFromVar(g, a, c);
    }
  }

  lemma {:induction false} AcceptedMember(g: Context, es: seq<Expr>)
    requires JudgeAll(g, es).Accepted?
    ensures forall e | e in es :: Judge(g, e).Accepted?
    decreases |es|
  {
    hide JudgeNode;
    if es != [] {
      var last := |es| - 1;
      AcceptedMember(g, es[..last]);
      assert es == es[..last] + [es[last]];
    }
  }

  lemma {:induction false} AcceptedIsTraced(g: Context, e: Expr)
    requires Judge(g, e).Accepted?
    ensures InputsTraced(g, e)
    decreases e
  {
    hide Judge, JudgeNode;
    if Children(e) == [] {
      NoChildrenNoInput(g, e);
    } else {
      NodeUsesInner(g, e);
      if InputCollation(e) != INVALID_OID {
        var a := SafeBelow(g, e, InputCollation(e));
        SafeComesFromVar(g, a, InputCollation(e));
      }
      ChildrenAccepted(g, e);
      forall a | a in Children(e)
        ensures InputsTraced(g, a)
      {
        AcceptedIsTraced(g, a);
      }
    }
  }

  lemma ChildrenAccepted(g: Context, e: Expr)
    requires Inner(g, e).Accepted?
    ensures forall a | a in Children(e) :: Judge(g, a).Accepted?
  {
    hide Judge, JudgeNode;
    if e.ArrayRef? {
      AcceptedMember(g, e.upper);
      AcceptedMember(g, e.lower);
    } else {
      AcceptedMember(g, Children(e));
    }
  }

  lemma NoChildrenNoInput(g: Context, e: Expr)
    requires Children(e) == [] && Judge(g, e).Accepted?
    ensures InputCollation(e) == INVALID_OID
  {
    assert JudgeAll(g, []) == Accepted(NoColl);
  }

  /* The state of a list is the least upper bound of its elements' states */

  predicate Below(a: Coll, b: Coll) {
    Join(a, b) == b
  }

  lemma {:induction false} ListIsLeastUpperBound(g: Context, es: seq<Expr>, u: Coll)
    requires JudgeAll(g, es).Accepted?
    ensures forall e | e in es :: Judge(g, e).Accepted? && Below(Judge(g, e).coll, JudgeAll(g, es).coll)
    ensures (forall e | e in es :: Judge(g, e).Accepted? && Below(Judge(g, e).coll, u)) ==> Below(JudgeAll(g, es).coll, u)
    decreases |es|
  {
    hide Judge, JudgeNode;
    AcceptedMember(g, es);
    if es == [] {
      JoinLaws(u, u, u);
    } else {
      var last := |es| - 1;
      var before, here := JudgeAll(g, es[..last]).coll, Judge(g, es[last]).coll;
      ListIsLeastUpperBound(g, es[..last], u);
      assert es == es[..last] + [es[last]];
      forall e | e in es
        ensures Below(Judge(g, e).coll, JudgeAll(g, es).coll)
      {
        JoinLaws(Judge(g, e).coll, before, here);
        JoinLaws(before, here, here);
      }
      JoinLaws(before, here, u);
    }
  }

  lemma {:induction false} AllMembersAccepted(g: Context, es: seq<Expr>)
    requires forall e | e in es :: Judge(g, e).Accepted?
    ensures JudgeAll(g, es).Accepted?
    decreases |es|
  {
    hide Judge, JudgeNode;
    if es != [] {
      AllMembersAccepted(g, es[..|es| - 1]);
    }
  }

  // Two lists with the same elements, in whatever order and however often, get the same verdict and collation.
  lemma ListOrderIsIrrelevant(g: Context, es: seq<Expr>, fs: seq<Expr>)
    requires forall e :: e in es <==> e in fs
    ensures JudgeAll(g, es) == JudgeAll(g, fs)
  {
    hide Judge, JudgeNode, JudgeAll;
    if forall e | e in es :: Judge(g, e).Accepted? {
      AllMembersAccepted(g, es);
      AllMembersAccepted(g, fs);
      var a, b := JudgeAll(g, es).coll, JudgeAll(g, fs).coll;
      ListIsLeastUpperBound(g, es, b);
      ListIsLeastUpperBound(g, fs, a);
      ListIsLeastUpperBound(g, fs, b);
      ListIsLeastUpperBound(g, es, a);
      JoinLaws(a, b, a);
    } else {
      if JudgeAll(g, es).Accepted? {
        AcceptedMember(g, es);
      }
      if JudgeAll(g, fs).Accepted? {
        AcceptedMember(g, fs);
      }
    }
  }
}
