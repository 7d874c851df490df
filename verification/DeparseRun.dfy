/**
  The printer as it runs: it appends to a buffer and grows a parameter list.
 */
module DeparseRun {
  import opened Expressions
  import opened Deparse
  import opened RoundTrip

  class Cxt {
    var buf: seq<Token>
    var params: seq<Expr>

    constructor (params0: seq<Expr>)
      ensures buf == [] && params == params0
    {
      buf, params := [], params0;
    }

    // Appends what `out` prints and takes over its parameter list.
    ghost predicate Printed(before: seq<Token>, out: Out)
      reads this
    {
      buf == before + out.toks && params == out.params
    }

    method Append(toks: seq<Token>)
      modifies this`buf
      ensures buf == old(buf) + toks
    {
      buf := buf + toks;
    }
  }

  // Looks the node up in the parameter list and adds it if it is not there.
  method DeparseParam(e: Expr, cxt: Cxt)
    modifies cxt
    ensures cxt.Printed(old(cxt.buf), PrintParam(e, old(cxt.params)))
  {
    var pindex := 0;
    var found := false;
    while pindex < |cxt.params| && !found
      invariant 0 <= pindex <= |cxt.params|
      invariant cxt.params == old(cxt.params) && cxt.buf == old(cxt.buf)
      invariant found ==> 0 < pindex && IndexOf(cxt.params, e) == pindex
      invariant !found ==> e !in cxt.params[..pindex]
      decreases |cxt.params| - pindex, !found
    {
      pindex := pindex + 1;
      if e == cxt.params[pindex - 1] {
        FirstIndex(cxt.params, e, pindex);
        found := true;
      }
    }
    if !found {
      assert cxt.params[..pindex] == cxt.params;
      pindex := pindex + 1;
      cxt.params := cxt.params + [e];
    }
    cxt.Append([Dollar(pindex), CastTo(e.typ)]);
  }

  lemma {:induction false} FirstIndex(params: seq<Expr>, e: Expr, n: nat)
    requires 1 <= n <= |params| && params[n - 1] == e && e !in params[..n - 1]
    ensures IndexOf(params, e) == n
    decreases n
  {
    if n > 1 {
      assert params[0] == params[..n - 1][0];
      assert params[1..][..n - 2] == params[..n - 1][1..];
      FirstIndex(params[1..], e, n - 1);
    }
  }

  method DeparseExpr(c: Catalog, e: Expr, cxt: Cxt)
    requires Printable(c, e)
    modifies cxt
    ensures cxt.Printed(old(cxt.buf), Print(c, e, old(cxt.params)))
    decreases e, 1
  {
    match e {
      case Var(varno, _, attno, _, _) =>
        if IsColumn(c, e) {
          cxt.Append([Column(varno, attno)]);
        } else {
          DeparseParam(e, cxt);
        }
      case Const(text, typ, _) => cxt.Append([Literal(text, typ)]);
      case Param(_, _, _, _) => DeparseParam(e, cxt);
      case ArrayRef(_, _, _, _, _, _) => DeparseArrayRef(c, e, cxt);
      case FuncExpr(_, _, _, _, _, _, _) => DeparseFuncExpr(c, e, cxt);
      case OpExpr(_, _, _, _, _) => DeparseOpExpr(c, e, cxt);
      case DistinctExpr(_, args, _, _, _) => DeparsePair(c, args, [IsDistinctFrom], [RPar], cxt);
      case ScalarArrayOp(opno, useOr, args, _, _) =>
        DeparsePair(c, args, [OperName(opno), Quantifier(useOr), LPar], [RPar, RPar], cxt);
      case RelabelType(arg, form, typ, _) =>
        DeparseExpr(c, arg, cxt);
        if form != ImplicitCast {
          cxt.Append([CastTo(typ)]);
        }
      case BoolExpr(op, args, _) => DeparseBoolExpr(c, e, cxt);
      case NullTest(arg, isNull, asScalar, _) =>
        cxt.Append([LPar]);
        DeparseExpr(c, arg, cxt);
        cxt.Append(NullTestWords(isNull, asScalar) + [RPar]);
      case ArrayExpr(_, _, _) => DeparseArrayExpr(c, e, cxt);
    }
  }

  // ( args[0] mid args[1] close
  method DeparsePair(c: Catalog, args: seq<Expr>, mid: seq<Token>, close: seq<Token>, cxt: Cxt)
    requires |args| == 2 && AllPrintable(c, args)
    modifies cxt
    ensures var l := Print(c, args[0], old(cxt.params));
            cxt.Printed(old(cxt.buf), Pair(l, mid, Print(c, args[1], l.params), close))
    decreases args, 4
  {
    hide Print;
    cxt.Append([LPar]);
    DeparseExpr(c, args[0], cxt);
    cxt.Append(mid);
    DeparseExpr(c, args[1], cxt);
    cxt.Append(close);
  }

  method DeparseOpExpr(c: Catalog, e: Expr, cxt: Cxt)
    requires e.OpExpr? && Printable(c, e)
    modifies cxt
    ensures cxt.Printed(old(cxt.buf), Print(c, e, old(cxt.params)))
    decreases e, 0
  {
    match c.oprkind(e.opno) {
      case Binary => DeparsePair(c, e.args, [OperName(e.opno)], [RPar], cxt);
      case LeftUnary =>
        cxt.Append([LPar, OperName(e.opno)]);
        DeparseExpr(c, e.args[0], cxt);
        cxt.Append([RPar]);
      case RightUnary =>
        cxt.Append([LPar]);
        DeparseExpr(c, e.args[0], cxt);
        cxt.Append([OperName(e.opno), RPar]);
    }
  }

  method DeparseFuncExpr(c: Catalog, e: Expr, cxt: Cxt)
    requires e.FuncExpr? && Printable(c, e)
    modifies cxt
    ensures cxt.Printed(old(cxt.buf), Print(c, e, old(cxt.params)))
    decreases e, 0
  {
    match e.format {
      case ImplicitCast => DeparseExpr(c, e.args[0], cxt);
      case ExplicitCast =>
        DeparseExpr(c, e.args[0], cxt);
        cxt.Append([CastTo(e.typ)]);
      case ExplicitCall => DeparseCall(c, e, cxt);
    }
  }

  // name(args)
  method DeparseCall(c: Catalog, e: Expr, cxt: Cxt)
    requires e.FuncExpr? && e.format == ExplicitCall && Printable(c, e)
    modifies cxt
    ensures cxt.Printed(old(cxt.buf), Print(c, e, old(cxt.params)))
    decreases e.args, 3
  {
    ListIsRemaining(c, e.args, cxt.params, e.variadic);
    CallUnfolds(c, e, cxt.params);
    hide Print, PrintList, Remaining;
    cxt.Append([FuncName(e.funcid), LPar]);
    DeparseList(c, e.args, Comma, e.variadic, cxt);
    cxt.Append([RPar]);
  }

  lemma CallUnfolds(c: Catalog, e: Expr, ps: seq<Expr>)
    requires e.FuncExpr? && e.format == ExplicitCall && Printable(c, e)
    ensures Print(c, e, ps) == Wrap([FuncName(e.funcid), LPar], PrintList(c, e.args, ps, e.variadic), [RPar])
  {
    hide PrintList;
  }

  method DeparseArrayExpr(c: Catalog, e: Expr, cxt: Cxt)
    requires e.ArrayExpr? && Printable(c, e)
    modifies cxt
    ensures cxt.Printed(old(cxt.buf), Print(c, e, old(cxt.params)))
    decreases e, 0
  {
    ListIsRemaining(c, e.elements, cxt.params, false);
    hide PrintList, Remaining;
    cxt.Append([KwArray, LBrk]);
    DeparseList(c, e.elements, Comma, false, cxt);
    cxt.Append(if e.elements == [] then [RBrk, CastTo(e.typ)] else [RBrk]);
  }

  method DeparseBoolExpr(c: Catalog, e: Expr, cxt: Cxt)
    requires e.BoolExpr? && Printable(c, e)
    modifies cxt
    ensures cxt.Printed(old(cxt.buf), Print(c, e, old(cxt.params)))
    decreases e, 0
  {
    if e.op == Not {
      cxt.Append([LPar, KwNot]);
      DeparseExpr(c, e.args[0], cxt);
      cxt.Append([RPar]);
    } else {
      JunctionIsRemaining(c, e, cxt.params);
      hide Print, Remaining;
      cxt.Append([LPar]);
      DeparseList(c, e.args, if e.op == And then KwAnd else KwOr, false, cxt);
      cxt.Append([RPar]);
    }
  }

  /* Separated lists */

  // What is still to be printed of a list whose elements es are left.
  ghost function Remaining(c: Catalog, es: seq<Expr>, ps: seq<Expr>, sep: Token, variadic: bool, first: bool): Out
    requires AllPrintable(c, es)
  {
    if first && es != [] then
      var a := After(Marked(variadic, es), Print(c, es[0], ps));
      After(a.toks, PrintRest(c, es[1..], a.params, sep, variadic))
    else PrintRest(c, es, ps, sep, variadic)
  }

  lemma ListIsRemaining(c: Catalog, es: seq<Expr>, ps: seq<Expr>, variadic: bool)
    requires AllPrintable(c, es)
    ensures Remaining(c, es, ps, Comma, variadic, true) == PrintList(c, es, ps, variadic)
  {
    hide Print;
  }

  lemma JunctionIsRemaining(c: Catalog, e: Expr, ps: seq<Expr>)
    requires e.BoolExpr? && e.op != Not && Printable(c, e)
    ensures Print(c, e, ps)
            == Wrap([LPar], Remaining(c, e.args, ps, if e.op == And then KwAnd else KwOr, false, true), [RPar])
  {
    var first := Print(c, e.args[0], ps);
    assert [] + first.toks == first.toks;
    assert forall more: seq<Token> :: ([LPar] + first.toks) + more + [RPar] == [LPar] + (first.toks + more) + [RPar];
  }

  lemma RemainingStep(c: Catalog, es: seq<Expr>, ps: seq<Expr>, sep: Token, variadic: bool, first: bool)
    requires es != [] && AllPrintable(c, es)
    ensures var a := Print(c, es[0], ps);
            var b := Remaining(c, es[1..], a.params, sep, variadic, false);
            Remaining(c, es, ps, sep, variadic, first)
            == Out((if first then [] else [sep]) + Marked(variadic, es) + a.toks + b.toks, b.params)
  {
    hide Print;
    assert [] + Marked(variadic, es) == Marked(variadic, es);
  }

  // One element: separator, mark, expression.
  method DeparseElement(c: Catalog, es: seq<Expr>, i: nat, sep: Token, variadic: bool, first: bool, cxt: Cxt)
    requires AllPrintable(c, es) && i < |es|
    modifies cxt
    ensures var left := es[i..];
            var a := Print(c, left[0], old(cxt.params));
            cxt.Printed(old(cxt.buf), Out((if first then [] else [sep]) + Marked(variadic, left) + a.toks, a.params))
    decreases es, 1
  {
    hide Print;
    if !first {
      cxt.Append([sep]);
    }
    if variadic && i + 1 == |es| {
      cxt.Append([Variadic]);
    }
    assert cxt.buf == old(cxt.buf) + ((if first then [] else [sep]) + Marked(variadic, es[i..]));
    DeparseExpr(c, es[i], cxt);
  }

  method DeparseList(c: Catalog, es: seq<Expr>, sep: Token, variadic: bool, cxt: Cxt)
    requires AllPrintable(c, es)
    modifies cxt
    ensures cxt.Printed(old(cxt.buf), Remaining(c, es, old(cxt.params), sep, variadic, true))
    decreases es, 2
  {
    hide Print, Remaining, Marked, AllPrintable;
    ghost var whole := Remaining(c, es, cxt.params, sep, variadic, true);
    var i, first := 0, true;
    assert es[0..] == es;
    while i < |es|
      invariant 0 <= i <= |es| && AllPrintable(c, es[i..])
      invariant first == (i == 0)
      invariant var left := Remaining(c, es[i..], cxt.params, sep, variadic, first);
        cxt.buf + left.toks == old(cxt.buf) + whole.toks && left.params == whole.params
    {
      ghost var left := es[i..];
      ElementsLeft(c, es, i);
      RemainingStep(c, left, cxt.params, sep, variadic, first);
      DeparseElement(c, es, i, sep, variadic, first, cxt);
      assert left[1..] == es[i + 1..];
      i, first := i + 1, false;
    }
    NothingRemains(c, es[i..], cxt.params, sep, variadic, first);
  }

  lemma ElementsLeft(c: Catalog, es: seq<Expr>, i: nat)
    requires i < |es| && AllPrintable(c, es)
    ensures AllPrintable(c, es[i..]) && AllPrintable(c, es[i + 1..]) && Printable(c, es[i..][0])
  {
    assert es[i..][0] in es;
  }

  lemma NothingRemains(c: Catalog, es: seq<Expr>, ps: seq<Expr>, sep: Token, variadic: bool, first: bool)
    requires es == []
    ensures Remaining(c, es, ps, sep, variadic, first) == Out([], ps)
  {
  }

  /* Subscripts */

  method DeparseArrayRef(c: Catalog, e: Expr, cxt: Cxt)
    requires e.ArrayRef? && Printable(c, e)
    modifies cxt
    ensures cxt.Printed(old(cxt.buf), Print(c, e, old(cxt.params)))
    decreases e, 0, 3
  {
    hide Print, PrintSubs, Printable;
    ArrayRefUnfolds(c, e, cxt.params);
    cxt.Append([LPar]);
    if e.base.Var? {
      DeparseExpr(c, e.base, cxt);
    } else {
      cxt.Append([LPar]);
      DeparseExpr(c, e.base, cxt);
      cxt.Append([RPar]);
    }
    DeparseSubs(c, e, cxt);
    cxt.Append([RPar]);
  }

  lemma ArrayRefUnfolds(c: Catalog, e: Expr, ps: seq<Expr>)
    requires e.ArrayRef? && Printable(c, e)
    ensures Printable(c, e.base)
    ensures var b := Print(c, e.base, ps);
            var s := PrintSubs(c, e, 0, b.params);
            Print(c, e, ps)
            == Out([LPar] + (if e.base.Var? then b.toks else [LPar] + b.toks + [RPar]) + s.toks + [RPar], s.params)
  {
    assert e.base in Children(e);
  }

  method DeparseSubs(c: Catalog, e: Expr, cxt: Cxt)
    requires e.ArrayRef? && Printable(c, e)
    modifies cxt
    ensures cxt.Printed(old(cxt.buf), PrintSubs(c, e, 0, old(cxt.params)))
    decreases e, 0, 2
  {
    hide Print, PrintSubs, Printable, SubOut;
    ghost var whole := PrintSubs(c, e, 0, cxt.params);
    var k := 0;
    while k < |e.upper|
      invariant 0 <= k <= |e.upper|
      invariant var left := PrintSubs(c, e, k, cxt.params);
        cxt.buf + left.toks == old(cxt.buf) + whole.toks && left.params == whole.params
    {
      SubStep(c, e, k, cxt.params);
      DeparseSub(c, e, k, cxt);
      k := k + 1;
    }
    SubsDone(c, e, cxt.params);
  }

  ghost function LowerOut(c: Catalog, e: Expr, k: nat, ps: seq<Expr>): Out
    requires e.ArrayRef? && Printable(c, e) && k < |e.upper|
  {
    KthSubs(c, e, k);
    if k < |e.lower| then Wrap([LBrk], Print(c, e.lower[k], ps), [Colon]) else Out([LBrk], ps)
  }

  ghost function SubOut(c: Catalog, e: Expr, k: nat, ps: seq<Expr>): Out
    requires e.ArrayRef? && Printable(c, e) && k < |e.upper|
  {
    KthSubs(c, e, k);
    var l := LowerOut(c, e, k, ps);
    Wrap(l.toks, Print(c, e.upper[k], l.params), [RBrk])
  }

  lemma KthSubs(c: Catalog, e: Expr, k: nat)
    requires e.ArrayRef? && Printable(c, e) && k < |e.upper|
    ensures Printable(c, e.upper[k]) && (k < |e.lower| ==> Printable(c, e.lower[k]))
  {
    assert e.upper[k] in Children(e);
    assert k < |e.lower| ==> e.lower[k] in Children(e);
  }

  lemma SubsDone(c: Catalog, e: Expr, ps: seq<Expr>)
    requires e.ArrayRef? && Printable(c, e)
    ensures PrintSubs(c, e, |e.upper|, ps) == Out([], ps)
  {
  }

  lemma SubStep(c: Catalog, e: Expr, k: nat, ps: seq<Expr>)
    requires e.ArrayRef? && Printable(c, e) && k < |e.upper|
    ensures var u := SubOut(c, e, k, ps);
            PrintSubs(c, e, k, ps) == After(u.toks, PrintSubs(c, e, k + 1, u.params))
  {
    KthSubs(c, e, k);
    hide Print;
  }

  method DeparseSub(c: Catalog, e: Expr, k: nat, cxt: Cxt)
    requires e.ArrayRef? && Printable(c, e) && k < |e.upper|
    modifies cxt
    ensures cxt.Printed(old(cxt.buf), SubOut(c, e, k, old(cxt.params)))
    decreases e, 0, 1
  {
    KthSubs(c, e, k);
    hide Print, LowerOut, Printable;
    DeparseLower(c, e, k, cxt);
    DeparseExpr(c, e.upper[k], cxt);
    cxt.Append([RBrk]);
  }

  // [ and, while lower bounds last, the lower bound and a colon.
  method DeparseLower(c: Catalog, e: Expr, k: nat, cxt: Cxt)
    requires e.ArrayRef? && Printable(c, e) && k < |e.upper|
    modifies cxt
    ensures cxt.Printed(old(cxt.buf), LowerOut(c, e, k, old(cxt.params)))
    decreases e, 0, 0
  {
    KthSubs(c, e, k);
    hide Print;
    cxt.Append([LBrk]);
    if k < |e.lower| {
      DeparseExpr(c, e.lower[k], cxt);
      cxt.Append([Colon]);
    }
  }
}
