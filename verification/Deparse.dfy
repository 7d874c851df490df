/**
  gcDeparseExpr: an expression becomes a token sequence, fully parenthesised, and
  every value that the remote side cannot compute becomes a numbered parameter.
 */
module Deparse {
  import opened Expressions

  datatype OperKind = LeftUnary | RightUnary | Binary

  // The scanned relations and what the catalog says about operators.
  datatype Catalog = Catalog(relids: set<nat>, oprkind: Oid -> OperKind)

  // Column references, literals with their type label and type names are single tokens.
  datatype Token =
    | LPar | RPar | LBrk | RBrk | Comma | Colon
    | Column(varno: nat, attno: int)
    | Literal(text: string, typ: Oid)
    | Dollar(n: nat)
    | CastTo(typ: Oid)
    | FuncName(funcid: Oid)
    | OperName(opno: Oid)
    | Variadic | KwAny | KwAll | KwAnd | KwOr | KwNot | KwArray | KwNull
    | IsNull | IsNotNull | IsDistinctFrom | IsNotDistinctFrom

  // Tokens printed so far by one call and the parameter list after it.
  datatype Out = Out(toks: seq<Token>, params: seq<Expr>)

  predicate IsColumn(c: Catalog, e: Expr) {
    e.Var? && e.varno in c.relids && e.levelsup == 0
  }

  // Params, and Vars of other relations.
  predicate IsRemoteParam(c: Catalog, e: Expr) {
    e.Param? || (e.Var? && !IsColumn(c, e))
  }

  // One-based position of the first entry equal to e, or one past the end.
  function IndexOf(params: seq<Expr>, e: Expr): (n: nat)
    ensures 1 <= n <= |params| + 1
    ensures n <= |params| ==> params[n - 1] == e
    ensures n == |params| + 1 <==> e !in params
  {
    if params == [] then 1
    else if params[0] == e then 1
    else 1 + IndexOf(params[1..], e)
  }

  function PrintParam(e: Expr, ps: seq<Expr>): Out {
    Out([Dollar(IndexOf(ps, e)), CastTo(e.typ)], if e in ps then ps else ps + [e])
  }

  /* What the printer relies on */

  // The argument counts that the printer asserts or takes for granted, and node types it knows.
  predicate WellShaped(c: Catalog, e: Expr) {
    match e
    case ArrayRef(_, upper, lower, _, _, _) => 1 <= |upper| && |lower| <= |upper|
    case FuncExpr(_, format, _, args, _, _, _) => format != ExplicitCall ==> args != []
    case OpExpr(opno, args, _, _, _) => |args| == if c.oprkind(opno) == Binary then 2 else 1
    case DistinctExpr(_, args, _, _, _) => |args| == 2
    case ScalarArrayOp(_, _, args, _, _) => |args| == 2
    case BoolExpr(op, args, _) => if op == Not then |args| == 1 else |args| >= 2
    case Aggref(_, _, _, _, _, _) => false
    case Unsupported(_) => false
    case _ => true
  }

  predicate Printable(c: Catalog, e: Expr) {
    WellShaped(c, e) && forall a | a in Children(e) :: Printable(c, a)
  }

  predicate AllPrintable(c: Catalog, es: seq<Expr>) {
    forall e | e in es :: Printable(c, e)
  }

  /* The printed form */

  function Then(a: Out, toks: seq<Token>): Out {
    Out(a.toks + toks, a.params)
  }

  function After(toks: seq<Token>, a: Out): Out {
    Out(toks + a.toks, a.params)
  }

  function Wrap(open: seq<Token>, a: Out, close: seq<Token>): Out {
    Out(open + a.toks + close, a.params)
  }

  function Pair(a: Out, mid: seq<Token>, b: Out, close: seq<Token>): Out {
    Out([LPar] + a.toks + mid + b.toks + close, b.params)
  }

  function Quantifier(useOr: bool): Token {
    if useOr then KwAny else KwAll
  }

  function Print(c: Catalog, e: Expr, ps: seq<Expr>): Out
    requires Printable(c, e)
    decreases e, 1
  {
    match e
    case Var(varno, _, attno, _, _) =>
      if IsColumn(c, e) then Out([Column(varno, attno)], ps) else PrintParam(e, ps)
    case Const(text, typ, _) => Out([Literal(text, typ)], ps)
    case Param(_, _, _, _) => PrintParam(e, ps)
    case ArrayRef(base, upper, lower, _, _, _) =>
      var b := if base.Var? then Print(c, base, ps) else Wrap([LPar], Print(c, base, ps), [RPar]);
      Wrap([LPar] + b.toks, PrintSubs(c, e, 0, b.params), [RPar])
    case FuncExpr(funcid, format, variadic, args, typ, _, _) =>
      (match format
       case ImplicitCast => Print(c, args[0], ps)
       case ExplicitCast => Then(Print(c, args[0], ps), [CastTo(typ)])
       case ExplicitCall => Wrap([FuncName(funcid), LPar], PrintList(c, args, ps, variadic), [RPar]))
    case OpExpr(opno, args, _, _, _) =>
      (match c.oprkind(opno)
       case LeftUnary => Wrap([LPar, OperName(opno)], Print(c, args[0], ps), [RPar])
       case RightUnary => Wrap([LPar], Print(c, args[0], ps), [OperName(opno), RPar])
       case Binary =>
         var l := Print(c, args[0], ps);
         Pair(l, [OperName(opno)], Print(c, args[1], l.params), [RPar]))
    case DistinctExpr(_, args, _, _, _) =>
      var l := Print(c, args[0], ps);
      Pair(l, [IsDistinctFrom], Print(c, args[1], l.params), [RPar])
    case ScalarArrayOp(opno, useOr, args, _, _) =>
      var l := Print(c, args[0], ps);
      Pair(l, [OperName(opno), Quantifier(useOr), LPar], Print(c, args[1], l.params), [RPar, RPar])
    case RelabelType(arg, form, typ, _) =>
      if form == ImplicitCast then Print(c, arg, ps) else Then(Print(c, arg, ps), [CastTo(typ)])
    case BoolExpr(op, args, _) =>
      (match op
       case Not => Wrap([LPar, KwNot], Print(c, args[0], ps), [RPar])
       case And => PrintJunction(c, args, ps, KwAnd)
       case Or => PrintJunction(c, args, ps, KwOr))
    case NullTest(arg, isNull, asScalar, _) => Wrap([LPar], Print(c, arg, ps), NullTestWords(isNull, asScalar) + [RPar])
    case ArrayExpr(elements, typ, _) =>
      Wrap([KwArray, LBrk], PrintList(c, elements, ps, false), if elements == [] then [RBrk, CastTo(typ)] else [RBrk])
  }

  function NullTestWords(isNull: bool, asScalar: bool): seq<Token> {
    if asScalar then (if isNull then [IsNotDistinctFrom, KwNull] else [IsDistinctFrom, KwNull])
    else if isNull then [IsNull] else [IsNotNull]
  }

  function PrintJunction(c: Catalog, es: seq<Expr>, ps: seq<Expr>, sep: Token): Out
    requires es != [] && AllPrintable(c, es)
    decreases es, 2
  {
    var first := Print(c, es[0], ps);
    Wrap([LPar] + first.toks, PrintRest(c, es[1..], first.params, sep, false), [RPar])
  }

  function PrintList(c: Catalog, es: seq<Expr>, ps: seq<Expr>, variadic: bool): Out
    requires AllPrintable(c, es)
    decreases es, 2
  {
    if es == [] then Out([], ps)
    else
      var first := After(if variadic && |es| == 1 then [Variadic] else [], Print(c, es[0], ps));
      After(first.toks, PrintRest(c, es[1..], first.params, Comma, variadic))
  }

  // Every remaining element behind a separator; the last one may be marked VARIADIC.
  function PrintRest(c: Catalog, es: seq<Expr>, ps: seq<Expr>, sep: Token, variadic: bool): Out
    requires AllPrintable(c, es)
    decreases es, 1
  {
    if es == [] then Out([], ps)
    else
      var first := After([sep] + (if variadic && |es| == 1 then [Variadic] else []), Print(c, es[0], ps));
      After(first.toks, PrintRest(c, es[1..], first.params, sep, variadic))
  }

  // [u], or [l:u] while lower bounds last, from subscript k on.
  function PrintSubs(c: Catalog, e: Expr, k: nat, ps: seq<Expr>): Out
    requires e.ArrayRef? && Printable(c, e) && k <= |e.upper|
    decreases e, 0, |e.upper| - k
  {
    if k == |e.upper| then Out([], ps)
    else
      assert e.upper[k] in Children(e);
      assert k < |e.lower| ==> e.lower[k] in Children(e);
      var l := if k < |e.lower| then Wrap([LBrk], Print(c, e.lower[k], ps), [Colon]) else Out([LBrk], ps);
      var u := Wrap(l.toks, Print(c, e.upper[k], l.params), [RBrk]);
      After(u.toks, PrintSubs(c, e, k + 1, u.params))
  }
}
