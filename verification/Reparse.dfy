/**
  A recursive-descent reader of the printed tokens. It knows no operator
  precedence, and takes no bracket behind a type name for a subscript: a type
  name there would go on with the bracket, so the reader gives up.
 */
module Reparse {
  import opened Expressions
  import opened Deparse

  // What the remote side is asked to evaluate.
  datatype Sql =
    | Col(varno: nat, attno: int)
    | Lit(text: string, typ: Oid)
    | Remote(param: Expr)
    | Subscript(base: Sql, bare: bool, subs: seq<Sql>)
    | Element(at: Sql)  // [u], one of the subscripts
    | Slice(from: Sql, to: Sql)  // [l:u]
    | Call(funcid: Oid, variadic: bool, args: seq<Sql>)
    | Cast(arg: Sql, typ: Oid)
    | Prefix(opno: Oid, arg: Sql)
    | Postfix(opno: Oid, arg: Sql)
    | Infix(opno: Oid, left: Sql, right: Sql)
    | IsDistinct(left: Sql, right: Sql)
    | Quantified(opno: Oid, useOr: bool, left: Sql, right: Sql)
    | Negation(arg: Sql)
    | Junction(isAnd: bool, args: seq<Sql>)
    | NullCheck(arg: Sql, isNull: bool, asScalar: bool)
    | ArrayOf(elements: seq<Sql>, emptyTyp: Oid)
    | Group(arg: Sql)  // a parenthesised expression; only ever the base of a subscript

  datatype Items = Items(list: seq<Sql>, variadic: bool)

  datatype Parsed<T> = Fail | Got(value: T, rest: seq<Token>)

  function Expect<T>(p: Parsed<T>, tok: Token): (r: Parsed<T>)
    ensures r.Got? ==> p.Got? && |r.rest| < |p.rest|
  {
    if p.Got? && p.rest != [] && p.rest[0] == tok then Got(p.value, p.rest[1..]) else Fail
  }

  predicate StartsWith(ts: seq<Token>, tok: Token) {
    ts != [] && ts[0] == tok
  }

  function ParseCasts(x: Sql, ts: seq<Token>): (r: Parsed<Sql>)
    ensures r.Got? ==> |r.rest| <= |ts|
    decreases |ts|
  {
    if ts != [] && ts[0].CastTo? then (if x.Group? then Fail else ParseCasts(Cast(x, ts[0].typ), ts[1..]))
    else Got(x, ts)
  }

  function ParseExpr(P: seq<Expr>, ts: seq<Token>): (r: Parsed<Sql>)
    ensures r.Got? ==> |r.rest| < |ts|
    decreases |ts|, 2
  {
    var p := ParsePrimary(P, ts);
    if p.Fail? then Fail else ParseCasts(p.value, p.rest)
  }

  function ParsePlain(P: seq<Expr>, ts: seq<Token>): (r: Parsed<Sql>)
    ensures r.Got? ==> |r.rest| < |ts|
    decreases |ts|, 3
  {
    var p := ParseExpr(P, ts);
    if p.Got? && p.value.Group? then Fail else p
  }

  function ParsePrimary(P: seq<Expr>, ts: seq<Token>): (r: Parsed<Sql>)
    ensures r.Got? ==> |r.rest| < |ts|
    decreases |ts|, 1
  {
    if ts == [] then Fail
    else
      match ts[0]
      case Column(varno, attno) => Got(Col(varno, attno), ts[1..])
      case Literal(text, typ) => Got(Lit(text, typ), ts[1..])
      case Dollar(n) =>
        if |ts| >= 2 && 1 <= n <= |P| && ts[1] == CastTo(P[n - 1].typ) then Got(Remote(P[n - 1]), ts[2..]) else Fail
      case FuncName(funcid) =>
        if |ts| >= 2 && ts[1] == LPar then
          var items := ParseItems(P, ts[2..], RPar);
          if items.Fail? then Fail else Got(Call(funcid, items.value.variadic, items.value.list), items.rest)
        else Fail
      case KwArray =>
        if |ts| >= 2 && ts[1] == LBrk then
          var items := ParseItems(P, ts[2..], RBrk);
          if items.Fail? || items.value.variadic then Fail
          else if items.value.list != [] then Got(ArrayOf(items.value.list, INVALID_OID), items.rest)
          else if items.rest != [] && items.rest[0].CastTo? then Got(ArrayOf([], items.rest[0].typ), items.rest[1..])
          else Fail
        else Fail
      case LPar => ParseParen(P, ts[1..])
      case _ => Fail
  }

  function ParseItems(P: seq<Expr>, ts: seq<Token>, close: Token): (r: Parsed<Items>)
    ensures r.Got? ==> |r.rest| < |ts|
    decreases |ts|, 5
  {
    if StartsWith(ts, close) then Got(Items([], false), ts[1..]) else ParseSome(P, ts, Comma, close)
  }

  function ParseSome(P: seq<Expr>, ts: seq<Token>, sep: Token, close: Token): (r: Parsed<Items>)
    ensures r.Got? ==> |r.rest| < |ts|
    decreases |ts|, 4
  {
    if StartsWith(ts, Variadic) then
      var last := Expect(ParsePlain(P, ts[1..]), close);
      if last.Fail? then Fail else Got(Items([last.value], true), last.rest)
    else
      var first := ParsePlain(P, ts);
      if first.Fail? then Fail
      else
        var more := ParseRest(P, first.rest, sep, close);
        if more.Fail? then Fail else Got(Items([first.value] + more.value.list, more.value.variadic), more.rest)
  }

  function ParseRest(P: seq<Expr>, ts: seq<Token>, sep: Token, close: Token): (r: Parsed<Items>)
    ensures r.Got? ==> |r.rest| < |ts|
    decreases |ts|, 5
  {
    if StartsWith(ts, close) then Got(Items([], false), ts[1..])
    else if StartsWith(ts, sep) then ParseSome(P, ts[1..], sep, close)
    else Fail
  }

  // Behind an opening parenthesis.
  function ParseParen(P: seq<Expr>, ts: seq<Token>): (r: Parsed<Sql>)
    ensures r.Got? ==> |r.rest| < |ts|
    decreases |ts|, 4
  {
    if ts == [] then Fail
    else if ts[0] == KwNot then
      var a := Expect(ParsePlain(P, ts[1..]), RPar);
      if a.Fail? then Fail else Got(Negation(a.value), a.rest)
    else if ts[0].OperName? then
      var a := Expect(ParsePlain(P, ts[1..]), RPar);
      if a.Fail? then Fail else Got(Prefix(ts[0].opno, a.value), a.rest)
    else
      var h := ParseExpr(P, ts);
      if h.Fail? || h.rest == [] then Fail
      else if h.rest[0] == LBrk then
        if h.value.Col? then FinishSubscript(P, h.value, true, h.rest)
        else if h.value.Group? then FinishSubscript(P, h.value.arg, false, h.rest)
        else Fail
      else if h.value.Group? then Fail
      else Continue(P, h.value, h.rest)
  }

  function FinishSubscript(P: seq<Expr>, base: Sql, bare: bool, ts: seq<Token>): (r: Parsed<Sql>)
    ensures r.Got? ==> |r.rest| < |ts|
    decreases |ts|, 6
  {
    var subs := Expect(ParseSubs(P, ts), RPar);
    if subs.Fail? then Fail else Got(Subscript(base, bare, subs.value), subs.rest)
  }

  function ParseSubs(P: seq<Expr>, ts: seq<Token>): (r: Parsed<seq<Sql>>)
    ensures r.Got? ==> |r.rest| <= |ts|
    decreases |ts|, 5
  {
    if !StartsWith(ts, LBrk) then Got([], ts)
    else
      var a := ParsePlain(P, ts[1..]);
      if a.Fail? then Fail
      else if StartsWith(a.rest, Colon) then
        var u := Expect(ParsePlain(P, a.rest[1..]), RBrk);
        if u.Fail? then Fail else MoreSubs(P, Slice(a.value, u.value), u.rest)
      else
        var u := Expect(a, RBrk);
        if u.Fail? then Fail else MoreSubs(P, Element(u.value), u.rest)
  }

  function MoreSubs(P: seq<Expr>, first: Sql, ts: seq<Token>): (r: Parsed<seq<Sql>>)
    ensures r.Got? ==> |r.rest| <= |ts|
    decreases |ts|, 6
  {
    var more := ParseSubs(P, ts);
    if more.Fail? then Fail else Got([first] + more.value, more.rest)
  }

  // Behind the first operand of a parenthesised form.
  function Continue(P: seq<Expr>, h: Sql, ts: seq<Token>): (r: Parsed<Sql>)
    requires ts != []
    ensures r.Got? ==> |r.rest| < |ts|
    decreases |ts|, 7
  {
    match ts[0]
    case RPar => Got(Group(h), ts[1..])
    case OperName(opno) => ContinueOperator(P, h, opno, ts[1..])
    case IsNull => Expect(Got(NullCheck(h, true, false), ts[1..]), RPar)
    case IsNotNull => Expect(Got(NullCheck(h, false, false), ts[1..]), RPar)
    case IsDistinctFrom =>
      if StartsWith(ts[1..], KwNull) then Expect(Got(NullCheck(h, false, true), ts[2..]), RPar)
      else
        var b := Expect(ParsePlain(P, ts[1..]), RPar);
        if b.Fail? then Fail else Got(IsDistinct(h, b.value), b.rest)
    case IsNotDistinctFrom =>
      if StartsWith(ts[1..], KwNull) then Expect(Got(NullCheck(h, true, true), ts[2..]), RPar) else Fail
    case KwAnd => FinishJunction(P, h, true, ts)
    case KwOr => FinishJunction(P, h, false, ts)
    case _ => Fail
  }

  function FinishJunction(P: seq<Expr>, h: Sql, isAnd: bool, ts: seq<Token>): (r: Parsed<Sql>)
    ensures r.Got? ==> |r.rest| < |ts|
    decreases |ts|, 6
  {
    var more := ParseRest(P, ts, if isAnd then KwAnd else KwOr, RPar);
    if more.Fail? || more.value.variadic then Fail else Got(Junction(isAnd, [h] + more.value.list), more.rest)
  }

  function ContinueOperator(P: seq<Expr>, h: Sql, opno: Oid, ts: seq<Token>): (r: Parsed<Sql>)
    ensures r.Got? ==> |r.rest| < |ts|
    decreases |ts|, 4
  {
    if StartsWith(ts, RPar) then Got(Postfix(opno, h), ts[1..])
    else if StartsWith(ts, KwAny) || StartsWith(ts, KwAll) then
      if StartsWith(ts[1..], LPar) then
        var b := Expect(Expect(ParsePlain(P, ts[2..]), RPar), RPar);
        if b.Fail? then Fail else Got(Quantified(opno, ts[0] == KwAny, h, b.value), b.rest)
      else Fail
    else
      var b := Expect(ParsePlain(P, ts), RPar);
      if b.Fail? then Fail else Got(Infix(opno, h, b.value), b.rest)
  }

  /* The tree that is meant */

  // Implicit casts are left to the remote parser; both kinds of explicit cast look alike there.
  function Shape(c: Catalog, e: Expr): Sql
    requires Printable(c, e)
    decreases e, 1
  {
    match e
    case Var(varno, _, attno, _, _) => if IsColumn(c, e) then Col(varno, attno) else Remote(e)
    case Const(text, typ, _) => Lit(text, typ)
    case Param(_, _, _, _) => Remote(e)
    case ArrayRef(base, upper, lower, _, _, _) => Subscript(Shape(c, base), base.Var?, ShapeSubs(c, e, 0))
    case FuncExpr(funcid, format, variadic, args, typ, _, _) =>
      (match format
       case ImplicitCast => Shape(c, args[0])
       case ExplicitCast => Cast(Shape(c, args[0]), typ)
       case ExplicitCall => Call(funcid, variadic && args != [], Shapes(c, args)))
    case OpExpr(opno, args, _, _, _) =>
      (match c.oprkind(opno)
       case LeftUnary => Prefix(opno, Shape(c, args[0]))
       case RightUnary => Postfix(opno, Shape(c, args[0]))
       case Binary => Infix(opno, Shape(c, args[0]), Shape(c, args[1])))
    case DistinctExpr(_, args, _, _, _) => IsDistinct(Shape(c, args[0]), Shape(c, args[1]))
    case ScalarArrayOp(opno, useOr, args, _, _) => Quantified(opno, useOr, Shape(c, args[0]), Shape(c, args[1]))
    case RelabelType(arg, form, typ, _) => if form == ImplicitCast then Shape(c, arg) else Cast(Shape(c, arg), typ)
    case BoolExpr(op, args, _) => if op == Not then Negation(Shape(c, args[0])) else Junction(op == And, Shapes(c, args))
    case NullTest(arg, isNull, asScalar, _) => NullCheck(Shape(c, arg), isNull, asScalar)
    case ArrayExpr(elements, typ, _) => ArrayOf(Shapes(c, elements), if elements == [] then typ else INVALID_OID)
  }

  function Shapes(c: Catalog, es: seq<Expr>): (r: seq<Sql>)
    requires AllPrintable(c, es)
    ensures |r| == |es|
    decreases es, 2
  {
    if es == [] then [] else [Shape(c, es[0])] + Shapes(c, es[1..])
  }

  function ShapeSubs(c: Catalog, e: Expr, k: nat): seq<Sql>
    requires e.ArrayRef? && Printable(c, e) && k <= |e.upper|
    decreases e, 0, |e.upper| - k
  {
    if k == |e.upper| then []
    else
      assert e.upper[k] in Children(e);
      assert k < |e.lower| ==> e.lower[k] in Children(e);
      [if k < |e.lower| then Slice(Shape(c, e.lower[k]), Shape(c, e.upper[k])) else Element(Shape(c, e.upper[k]))] + ShapeSubs(c, e, k + 1)
  }
}
