/**
  What the printed parameter numbers mean: read in order, the numbers name the values that
  the remote side cannot compute, and the list holds each such value once, in order of
  first appearance.
 */
module ParamNumbers {
  import opened Expressions
  import opened Deparse
  import opened RoundTrip

  /* The values an expression needs from outside, in printing order */

  function Leaves(c: Catalog, e: Expr): seq<Expr>
    requires Printable(c, e)
    decreases e, 1
  {
    if IsRemoteParam(c, e) then [e]
    else
      match e
      case ArrayRef(base, _, _, _, _, _) => Leaves(c, base) + SubLeaves(c, e, 0)
      case FuncExpr(_, format, _, args, _, _, _) =>
        if format == ExplicitCall then LeavesOf(c, args) else Leaves(c, args[0])
      case OpExpr(_, args, _, _, _) => LeavesOf(c, args)
      case DistinctExpr(_, args, _, _, _) => LeavesOf(c, args)
      case ScalarArrayOp(_, _, args, _, _) => LeavesOf(c, args)
      case RelabelType(arg, _, _, _) => Leaves(c, arg)
      case BoolExpr(_, args, _) => LeavesOf(c, args)
      case NullTest(arg, _, _, _) => Leaves(c, arg)
      case ArrayExpr(elements, _, _) => LeavesOf(c, elements)
      case _ => []
  }

  function LeavesOf(c: Catalog, es: seq<Expr>): seq<Expr>
    requires AllPrintable(c, es)
    decreases es, 1
  {
    if es == [] then [] else Leaves(c, es[0]) + LeavesOf(c, es[1..])
  }

  function SubLeaves(c: Catalog, e: Expr, k: nat): seq<Expr>
    requires e.ArrayRef? && Printable(c, e) && k <= |e.upper|
    decreases e, 0, |e.upper| - k
  {
    if k == |e.upper| then []
    else
      assert e.upper[k] in Children(e);
      assert k < |e.lower| ==> e.lower[k] in Children(e);
      (if k < |e.lower| then Leaves(c, e.lower[k]) else []) + Leaves(c, e.upper[k]) + SubLeaves(c, e, k + 1)
  }

  // ps, and after it the values of ls that it lacks, each once and in order.
  function Collect(ps: seq<Expr>, ls: seq<Expr>): seq<Expr>
    decreases |ls|
  {
    if ls == [] then ps else Collect(if ls[0] in ps then ps else ps + [ls[0]], ls[1..])
  }

  // The entries of P that the parameter numbers among toks name; a number without an entry names nothing valid.
  function Named(P: seq<Expr>, toks: seq<Token>): seq<Expr> {
    if toks == [] then []
    else if !toks[0].Dollar? then Named(P, toks[1..])
    else [if 1 <= toks[0].n <= |P| then P[toks[0].n - 1] else Unsupported(0)] + Named(P, toks[1..])
  }

  predicate Distinct(ps: seq<Expr>) {
    forall i, j | 0 <= i < j < |ps| :: ps[i] != ps[j]
  }

  /* Laws of Collect and Named */

  lemma {:induction false} CollectJoin(ps: seq<Expr>, a: seq<Expr>, b: seq<Expr>)
    ensures Collect(ps, a + b) == Collect(Collect(ps, a), b)
    decreases |a|
  {
    if a == [] {
      assert a + b == b;
    } else {
      assert (a + b)[1..] == a[1..] + b;
      CollectJoin(if a[0] in ps then ps else ps + [a[0]], a[1..], b);
    }
  }

  lemma {:induction false} CollectGrows(ps: seq<Expr>, ls: seq<Expr>)
    ensures ps <= Collect(ps, ls)
    decreases |ls|
  {
    if ls != [] {
      CollectGrows(if ls[0] in ps then ps else ps + [ls[0]], ls[1..]);
    }
  }

  lemma {:induction false} CollectKeepsEach(ps: seq<Expr>, ls: seq<Expr>)
    ensures forall x :: x in Collect(ps, ls) <==> x in ps || x in ls
    ensures Distinct(ps) ==> Distinct(Collect(ps, ls))
    decreases |ls|
  {
    if ls != [] {
      var qs := if ls[0] in ps then ps else ps + [ls[0]];
      assert ls == [ls[0]] + ls[1..];
      CollectKeepsEach(qs, ls[1..]);
    }
  }

  lemma {:induction false} NamedJoin(P: seq<Expr>, a: seq<Token>, b: seq<Token>)
    ensures Named(P, a + b) == Named(P, a) + Named(P, b)
  {
    if a == [] {
      assert a + b == b;
    } else {
      assert (a + b)[1..] == a[1..] + b;
      NamedJoin(P, a[1..], b);
    }
  }

  predicate Quiet(toks: seq<Token>) {
    forall t | t in toks :: !t.Dollar?
  }

  lemma {:induction false} QuietNamesNothing(P: seq<Expr>, toks: seq<Token>)
    requires Quiet(toks)
    ensures Named(P, toks) == []
  {
    if toks != [] {
      QuietNamesNothing(P, toks[1..]);
    }
  }

  /* One printed piece */

  // The piece collects ls into the list and its numbers name exactly ls, in any later list.
  ghost predicate Says(ps: seq<Expr>, out: Out, P: seq<Expr>, ls: seq<Expr>) {
    && out.params == Collect(ps, ls)
    && (out.params <= P ==> Named(P, out.toks) == ls)
  }

  lemma SaysWrap(ps: seq<Expr>, open: seq<Token>, a: Out, close: seq<Token>, P: seq<Expr>, ls: seq<Expr>)
    requires Quiet(open) && Quiet(close) && Says(ps, a, P, ls)
    ensures Says(ps, Wrap(open, a, close), P, ls)
  {
    NamedJoin(P, open + a.toks, close);
    NamedJoin(P, open, a.toks);
    QuietNamesNothing(P, open);
    QuietNamesNothing(P, close);
  }

  lemma SaysJoin(ps: seq<Expr>, a: Out, b: Out, P: seq<Expr>, la: seq<Expr>, lb: seq<Expr>)
    requires Says(ps, a, P, la) && Says(a.params, b, P, lb)
    ensures Says(ps, After(a.toks, b), P, la + lb)
  {
    NamedJoin(P, a.toks, b.toks);
    CollectJoin(ps, la, lb);
    CollectGrows(a.params, lb);
  }

  lemma SaysNothing(ps: seq<Expr>, toks: seq<Token>, P: seq<Expr>)
    requires Quiet(toks)
    ensures Says(ps, Out(toks, ps), P, [])
  {
    QuietNamesNothing(P, toks);
  }

  lemma SaysPair(ps: seq<Expr>, a: Out, mid: seq<Token>, b: Out, close: seq<Token>, P: seq<Expr>, la: seq<Expr>, lb: seq<Expr>)
    requires Quiet(mid) && Quiet(close) && Says(ps, a, P, la) && Says(a.params, b, P, lb)
    ensures Says(ps, Pair(a, mid, b, close), P, la + lb)
  {
    hide Says;
    var a' := Wrap([LPar], a, mid);
    SaysWrap(ps, [LPar], a, mid, P, la);
    SaysWrap(a.params, [], b, close, P, lb);
    SaysJoin(ps, a', Wrap([], b, close), P, la, lb);
    assert Pair(a, mid, b, close).toks == After(a'.toks, Wrap([], b, close)).toks;
  }

  lemma SaysParam(e: Expr, ps: seq<Expr>, P: seq<Expr>)
    ensures Says(ps, PrintParam(e, ps), P, [e])
  {
    var out := PrintParam(e, ps);
    assert Collect(ps, [e]) == if e in ps then ps else ps + [e] by {
      assert [e][1..] == [];
    }
    var n := IndexOf(ps, e);
    assert out.params[n - 1] == e;
    assert out.toks[1..][1..] == [];
    assert Named(P, out.toks[1..]) == [];
  }

  /* Every piece of the printer */

  lemma {:induction false} RestSays(c: Catalog, es: seq<Expr>, ps: seq<Expr>, sep: Token, variadic: bool, P: seq<Expr>)
    requires AllPrintable(c, es) && !sep.Dollar?
    ensures Says(ps, PrintRest(c, es, ps, sep, variadic), P, LeavesOf(c, es))
    decreases es, 1
  {
    hide Print, Leaves, Says;
    if es == [] {
      SaysNothing(ps, [], P);
    } else {
      var a := Print(c, es[0], ps);
      PrintSays(c, es[0], ps, P);
      RestSays(c, es[1..], a.params, sep, variadic, P);
      var mark := [sep] + Marked(variadic, es);
      SaysWrap(ps, mark, a, [], P, Leaves(c, es[0]));
      SaysJoin(ps, Wrap(mark, a, []), PrintRest(c, es[1..], a.params, sep, variadic), P,
               Leaves(c, es[0]), LeavesOf(c, es[1..]));
      assert mark + a.toks + [] == mark + a.toks;
    }
  }

  lemma {:induction false} ListSays(c: Catalog, es: seq<Expr>, ps: seq<Expr>, variadic: bool, P: seq<Expr>)
    requires AllPrintable(c, es)
    ensures Says(ps, PrintList(c, es, ps, variadic), P, LeavesOf(c, es))
    decreases es, 2
  {
    hide Print, Leaves, Says;
    if es == [] {
      SaysNothing(ps, [], P);
    } else {
      var a := Print(c, es[0], ps);
      PrintSays(c, es[0], ps, P);
      RestSays(c, es[1..], a.params, Comma, variadic, P);
      var mark := Marked(variadic, es);
      SaysWrap(ps, mark, a, [], P, Leaves(c, es[0]));
      SaysJoin(ps, Wrap(mark, a, []), PrintRest(c, es[1..], a.params, Comma, variadic), P,
               Leaves(c, es[0]), LeavesOf(c, es[1..]));
      assert mark + a.toks + [] == mark + a.toks;
    }
  }

  lemma {:induction false} JunctionSays(c: Catalog, es: seq<Expr>, ps: seq<Expr>, sep: Token, P: seq<Expr>)
    requires es != [] && AllPrintable(c, es) && !sep.Dollar?
    ensures Says(ps, PrintJunction(c, es, ps, sep), P, LeavesOf(c, es))
    decreases es, 2
  {
    hide Print, Leaves, Says;
    var a := Print(c, es[0], ps);
    var more := PrintRest(c, es[1..], a.params, sep, false);
    PrintSays(c, es[0], ps, P);
    RestSays(c, es[1..], a.params, sep, false, P);
    SaysJoin(ps, a, more, P, Leaves(c, es[0]), LeavesOf(c, es[1..]));
    SaysWrap(ps, [LPar], After(a.toks, more), [RPar], P, LeavesOf(c, es));
    assert [LPar] + (a.toks + more.toks) + [RPar] == [LPar] + a.toks + more.toks + [RPar];
  }

  // One subscript: its lower bound, if it has one, and its upper bound.
  lemma SubSays(ps: seq<Expr>, l: Out, u: Out, next: Out, P: seq<Expr>, ll: seq<Expr>, lu: seq<Expr>, ln: seq<Expr>)
    requires Says(ps, l, P, ll) && Says(l.params, u, P, lu) && Says(u.params, next, P, ln)
    ensures Says(ps, After(l.toks + u.toks + [RBrk], next), P, ll + lu + ln)
  {
    hide Says;
    SaysJoin(ps, l, u, P, ll, lu);
    SaysWrap(ps, [], After(l.toks, u), [RBrk], P, ll + lu);
    assert [] + (l.toks + u.toks) + [RBrk] == l.toks + u.toks + [RBrk];
    SaysJoin(ps, Out(l.toks + u.toks + [RBrk], u.params), next, P, ll + lu, ln);
  }

  lemma {:induction false} SubsSay(c: Catalog, e: Expr, k: nat, ps: seq<Expr>, P: seq<Expr>)
    requires e.ArrayRef? && Printable(c, e) && k <= |e.upper|
    ensures Says(ps, PrintSubs(c, e, k, ps), P, SubLeaves(c, e, k))
    decreases e, 0, |e.upper| - k
  {
    hide Print, Leaves, Says;
    if k == |e.upper| {
      SaysNothing(ps, [], P);
    } else {
      assert e.upper[k] in Children(e);
      var l, ll := Out([LBrk], ps), [];
      if k < |e.lower| {
        assert e.lower[k] in Children(e);
        PrintSays(c, e.lower[k], ps, P);
        l, ll := Wrap([LBrk], Print(c, e.lower[k], ps), [Colon]), Leaves(c, e.lower[k]);
        SaysWrap(ps, [LBrk], Print(c, e.lower[k], ps), [Colon], P, ll);
      } else {
        SaysNothing(ps, [LBrk], P);
      }
      var u := Print(c, e.upper[k], l.params);
      PrintSays(c, e.upper[k], l.params, P);
      SubsSay(c, e, k + 1, u.params, P);
      SubSays(ps, l, u, PrintSubs(c, e, k + 1, u.params), P, ll, Leaves(c, e.upper[k]), SubLeaves(c, e, k + 1));
    }
  }

  lemma SaysSubscripted(ps: seq<Expr>, a: Out, bare: bool, subs: Out, P: seq<Expr>, la: seq<Expr>, ls: seq<Expr>)
    requires Says(ps, a, P, la) && Says(a.params, subs, P, ls)
    ensures Says(ps, Wrap([LPar] + (if bare then a.toks else [LPar] + a.toks + [RPar]), subs, [RPar]), P, la + ls)
  {
    hide Says;
    var b := if bare then a else Wrap([LPar], a, [RPar]);
    SaysWrap(ps, [LPar], a, [RPar], P, la);
    SaysJoin(ps, b, subs, P, la, ls);
    SaysWrap(ps, [LPar], After(b.toks, subs), [RPar], P, la + ls);
    assert [LPar] + (b.toks + subs.toks) + [RPar] == [LPar] + b.toks + subs.toks + [RPar];
  }

  lemma ArrayRefSays(c: Catalog, e: Expr, ps: seq<Expr>, P: seq<Expr>)
    requires e.ArrayRef? && Printable(c, e)
    ensures Says(ps, Print(c, e, ps), P, Leaves(c, e))
    decreases e, 0, |e.upper| + 1
  {
    assert e.base in Children(e);
    hide Says, PrintSubs, SubLeaves;
    var a := Print(c, e.base, ps);
    PrintSays(c, e.base, ps, P);
    SubsSay(c, e, 0, a.params, P);
    SaysSubscripted(ps, a, e.base.Var?, PrintSubs(c, e, 0, a.params), P, Leaves(c, e.base), SubLeaves(c, e, 0));
  }

  lemma PairSays(c: Catalog, args: seq<Expr>, mid: seq<Token>, close: seq<Token>, ps: seq<Expr>, P: seq<Expr>)
    requires |args| == 2 && AllPrintable(c, args) && Quiet(mid) && Quiet(close)
    ensures var l := Print(c, args[0], ps);
            Says(ps, Pair(l, mid, Print(c, args[1], l.params), close), P, LeavesOf(c, args))
    decreases args, 4
  {
    hide Print, Leaves, Says;
    var l := Print(c, args[0], ps);
    PrintSays(c, args[0], ps, P);
    PrintSays(c, args[1], l.params, P);
    SaysPair(ps, l, mid, Print(c, args[1], l.params), close, P, Leaves(c, args[0]), Leaves(c, args[1]));
    assert args[1..][1..] == [];
    OneLeaf(c, args[1..]);
    assert LeavesOf(c, args) == Leaves(c, args[0]) + Leaves(c, args[1]);
  }

  lemma WrapSays(c: Catalog, open: seq<Token>, a: Expr, close: seq<Token>, ps: seq<Expr>, P: seq<Expr>)
    requires Printable(c, a) && Quiet(open) && Quiet(close)
    ensures Says(ps, Wrap(open, Print(c, a, ps), close), P, Leaves(c, a))
    decreases a, 2
  {
    hide Print, Leaves, Says;
    PrintSays(c, a, ps, P);
    SaysWrap(ps, open, Print(c, a, ps), close, P, Leaves(c, a));
  }

  lemma OneLeaf(c: Catalog, es: seq<Expr>)
    requires |es| == 1 && AllPrintable(c, es)
    ensures LeavesOf(c, es) == Leaves(c, es[0])
  {
    hide Leaves;
    assert es[1..] == [];
  }

  lemma {:induction false} PrintSays(c: Catalog, e: Expr, ps: seq<Expr>, P: seq<Expr>)
    requires Printable(c, e)
    ensures Says(ps, Print(c, e, ps), P, Leaves(c, e))
    decreases e, 1
  {
    hide Says, PrintList, PrintJunction, LeavesOf;
    match e
    case Var(varno, _, attno, _, _) =>
      if IsColumn(c, e) {
        SaysNothing(ps, [Column(varno, attno)], P);
      } else {
        SaysParam(e, ps, P);
      }
    case Const(text, typ, _) => SaysNothing(ps, [Literal(text, typ)], P);
    case Param(_, _, _, _) => SaysParam(e, ps, P);
    case ArrayRef(_, _, _, _, _, _) => ArrayRefSays(c, e, ps, P);
    case FuncExpr(_, _, _, _, _, _, _) => FuncSays(c, e, ps, P);
    case OpExpr(_, _, _, _, _) => OpSays(c, e, ps, P);
    case DistinctExpr(_, args, _, _, _) => PairSays(c, args, [IsDistinctFrom], [RPar], ps, P);
    case ScalarArrayOp(opno, useOr, args, _, _) =>
      PairSays(c, args, [OperName(opno), Quantifier(useOr), LPar], [RPar, RPar], ps, P);
    case RelabelType(arg, form, typ, _) =>
      if form == ImplicitCast {
        PrintSays(c, arg, ps, P);
      } else {
        CastSays(c, arg, typ, ps, P);
      }
    case BoolExpr(op, args, _) =>
      if op == Not {
        OneLeaf(c, args);
        WrapSays(c, [LPar, KwNot], args[0], [RPar], ps, P);
      } else {
        JunctionSays(c, args, ps, if op == And then KwAnd else KwOr, P);
      }
    case NullTest(arg, isNull, asScalar, _) =>
      WrapSays(c, [LPar], arg, NullTestWords(isNull, asScalar) + [RPar], ps, P);
    case ArrayExpr(elements, typ, _) =>
      ListSays(c, elements, ps, false, P);
      SaysWrap(ps, [KwArray, LBrk], PrintList(c, elements, ps, false),
               if elements == [] then [RBrk, CastTo(typ)] else [RBrk], P, LeavesOf(c, elements));
  }

  lemma CastSays(c: Catalog, a: Expr, typ: Oid, ps: seq<Expr>, P: seq<Expr>)
    requires Printable(c, a)
    ensures Says(ps, Then(Print(c, a, ps), [CastTo(typ)]), P, Leaves(c, a))
    decreases a, 3
  {
    hide Print, Leaves, Says;
    WrapSays(c, [], a, [CastTo(typ)], ps, P);
    assert [] + Print(c, a, ps).toks == Print(c, a, ps).toks;
  }

  lemma FuncSays(c: Catalog, e: Expr, ps: seq<Expr>, P: seq<Expr>)
    requires e.FuncExpr? && Printable(c, e)
    ensures Says(ps, Print(c, e, ps), P, Leaves(c, e))
    decreases e, 0
  {
    hide Says, PrintList, LeavesOf;
    match e.format
    case ImplicitCast => PrintSays(c, e.args[0], ps, P);
    case ExplicitCast => CastSays(c, e.args[0], e.typ, ps, P);
    case ExplicitCall =>
      ListSays(c, e.args, ps, e.variadic, P);
      SaysWrap(ps, [FuncName(e.funcid), LPar], PrintList(c, e.args, ps, e.variadic), [RPar], P, LeavesOf(c, e.args));
  }

  lemma OpSays(c: Catalog, e: Expr, ps: seq<Expr>, P: seq<Expr>)
    requires e.OpExpr? && Printable(c, e)
    ensures Says(ps, Print(c, e, ps), P, Leaves(c, e))
    decreases e, 0
  {
    hide Says, LeavesOf;
    match c.oprkind(e.opno)
    case Binary => PairSays(c, e.args, [OperName(e.opno)], [RPar], ps, P);
    case LeftUnary =>
      OneLeaf(c, e.args);
      WrapSays(c, [LPar, OperName(e.opno)], e.args[0], [RPar], ps, P);
    case RightUnary =>
      OneLeaf(c, e.args);
      WrapSays(c, [LPar], e.args[0], [OperName(e.opno), RPar], ps, P);
  }

  /* Main result */

  // Starting from a list without duplicates, printing keeps it so, adds exactly the outside values of the
  // expression that it lacks, behind the old entries, and the numbers printed name those values in order,
  // in the final list and in every list it may still grow into.
  lemma NumbersNameTheirValues(c: Catalog, e: Expr, ps: seq<Expr>, P: seq<Expr>)
    requires Printable(c, e) && Distinct(ps) && Print(c, e, ps).params <= P
    ensures Named(P, Print(c, e, ps).toks) == Leaves(c, e)
    ensures ps <= Print(c, e, ps).params && Distinct(Print(c, e, ps).params)
    ensures forall x :: x in Print(c, e, ps).params <==> x in ps || x in Leaves(c, e)
  {
    hide Print, Leaves;
    PrintSays(c, e, ps, P);
    CollectGrows(ps, Leaves(c, e));
    CollectKeepsEach(ps, Leaves(c, e));
  }

  // What the remote side has itself: a Var of a scanned relation, at this query level.
  predicate Scanned(c: Catalog, e: Expr) {
    e.Var? && e.varno in c.relids && e.levelsup == 0
  }

  // Such a Var prints as its column and leaves the list alone; every other Var and every Param prints as a number.
  lemma ColumnsAreColumns(c: Catalog, e: Expr, ps: seq<Expr>)
    requires e.Var? || e.Param?
    ensures Printable(c, e)
    ensures Scanned(c, e) ==> Print(c, e, ps) == Out([Column(e.varno, e.attno)], ps)
    ensures !Scanned(c, e) ==>
      var out := Print(c, e, ps);
      |out.toks| == 2 && out.toks[0].Dollar? && out.toks[1] == CastTo(e.typ) && e in out.params
  {
  }

  // No such Var is ever sent as a parameter, and nothing but Vars and Params is.
  lemma {:induction false} LeavesAreOutside(c: Catalog, e: Expr)
    requires Printable(c, e)
    ensures forall x | x in Leaves(c, e) :: (x.Var? || x.Param?) && !Scanned(c, x)
    decreases e, 1
  {
    if !IsRemoteParam(c, e) {
      match e
      case ArrayRef(base, _, _, _, _, _) =>
        LeavesAreOutside(c, base);
        SubLeavesAreOutside(c, e, 0);
      case FuncExpr(_, format, _, args, _, _, _) =>
        if format == ExplicitCall {
          AllLeavesAreOutside(c, args);
        } else {
          LeavesAreOutside(c, args[0]);
        }
      case OpExpr(_, args, _, _, _) => AllLeavesAreOutside(c, args);
      case DistinctExpr(_, args, _, _, _) => AllLeavesAreOutside(c, args);
      case ScalarArrayOp(_, _, args, _, _) => AllLeavesAreOutside(c, args);
      case RelabelType(arg, _, _, _) => LeavesAreOutside(c, arg);
      case BoolExpr(_, args, _) => AllLeavesAreOutside(c, args);
      case NullTest(arg, _, _, _) => LeavesAreOutside(c, arg);
      case ArrayExpr(elements, _, _) => AllLeavesAreOutside(c, elements);
      case _ =>
    }
  }

  lemma {:induction false} AllLeavesAreOutside(c: Catalog, es: seq<Expr>)
    requires AllPrintable(c, es)
    ensures forall x | x in LeavesOf(c, es) :: (x.Var? || x.Param?) && !Scanned(c, x)
    decreases es, 1
  {
    hide Leaves;
    if es != [] {
      LeavesAreOutside(c, es[0]);
      AllLeavesAreOutside(c, es[1..]);
    }
  }

  lemma {:induction false} SubLeavesAreOutside(c: Catalog, e: Expr, k: nat)
    requires e.ArrayRef? && Printable(c, e) && k <= |e.upper|
    ensures forall x | x in SubLeaves(c, e, k) :: (x.Var? || x.Param?) && !Scanned(c, x)
    decreases e, 0, |e.upper| - k
  {
    hide Leaves;
    if k < |e.upper| {
      assert e.upper[k] in Children(e);
      LeavesAreOutside(c, e.upper[k]);
      if k < |e.lower| {
        assert e.lower[k] in Children(e);
        LeavesAreOutside(c, e.lower[k]);
      }
      SubLeavesAreOutside(c, e, k + 1);
    }
  }

  lemma ParamsAreOutside(c: Catalog, e: Expr, ps: seq<Expr>)
    requires Printable(c, e) && Distinct(ps)
    ensures forall x | x in Print(c, e, ps).params && x !in ps :: (x.Var? || x.Param?) && !Scanned(c, x)
  {
    hide Print, Leaves;
    NumbersNameTheirValues(c, e, ps, Print(c, e, ps).params);
    LeavesAreOutside(c, e);
  }
}
