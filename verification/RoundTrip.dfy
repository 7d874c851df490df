/**
  Reading the printed tokens back gives the tree that was meant, with every
  parameter number naming its entry in the final parameter list.
 */
module RoundTrip {
  import opened Expressions
  import opened Deparse
  import opened Reparse

  // Tokens that can begin a printed expression.
  predicate Begins(t: Token) {
    t.Column? || t.Literal? || t.Dollar? || t.FuncName? || t.KwArray? || t.LPar?
  }

  lemma {:induction false} FirstToken(c: Catalog, e: Expr, ps: seq<Expr>)
    requires Printable(c, e)
    ensures Print(c, e, ps).toks != [] && Begins(Print(c, e, ps).toks[0])
  {
    match e
    case FuncExpr(_, format, _, args, _, _, _) =>
      if format != ExplicitCall {
        FirstToken(c, args[0], ps);
      }
    case RelabelType(arg, _, _, _) => FirstToken(c, arg, ps);
    case _ =>
  }

  /* The parameter list only grows at its end */

  lemma {:induction false} ParamsGrow(c: Catalog, e: Expr, ps: seq<Expr>)
    requires Printable(c, e)
    ensures ps <= Print(c, e, ps).params
    decreases e, 1
  {
    match e
    case ArrayRef(base, _, _, _, _, _) =>
      ParamsGrow(c, base, ps);
      SubParamsGrow(c, e, 0, Print(c, base, ps).params);
    case FuncExpr(_, format, variadic, args, _, _, _) =>
      if format == ExplicitCall {
        ListParamsGrow(c, args, ps, variadic);
      } else {
        ParamsGrow(c, args[0], ps);
      }
    case OpExpr(_, args, _, _, _) =>
      ParamsGrow(c, args[0], ps);
      if |args| == 2 {
        ParamsGrow(c, args[1], Print(c, args[0], ps).params);
      }
    case DistinctExpr(_, args, _, _, _) =>
      ParamsGrow(c, args[0], ps);
      ParamsGrow(c, args[1], Print(c, args[0], ps).params);
    case ScalarArrayOp(_, _, args, _, _) =>
      ParamsGrow(c, args[0], ps);
      ParamsGrow(c, args[1], Print(c, args[0], ps).params);
    case RelabelType(arg, _, _, _) => ParamsGrow(c, arg, ps);
    case BoolExpr(op, args, _) =>
      ParamsGrow(c, args[0], ps);
      RestParamsGrow(c, args[1..], Print(c, args[0], ps).params, if op == And then KwAnd else KwOr, false);
    case NullTest(arg, _, _, _) => ParamsGrow(c, arg, ps);
    case ArrayExpr(elements, _, _) => ListParamsGrow(c, elements, ps, false);
    case _ =>
  }

  lemma {:induction false} ListParamsGrow(c: Catalog, es: seq<Expr>, ps: seq<Expr>, variadic: bool)
    requires AllPrintable(c, es)
    ensures ps <= PrintList(c, es, ps, variadic).params
    decreases es, 2
  {
    if es != [] {
      ParamsGrow(c, es[0], ps);
      RestParamsGrow(c, es[1..], Print(c, es[0], ps).params, Comma, variadic);
    }
  }

  lemma {:induction false} RestParamsGrow(c: Catalog, es: seq<Expr>, ps: seq<Expr>, sep: Token, variadic: bool)
    requires AllPrintable(c, es)
    ensures ps <= PrintRest(c, es, ps, sep, variadic).params
    decreases es, 1
  {
    if es != [] {
      ParamsGrow(c, es[0], ps);
      RestParamsGrow(c, es[1..], Print(c, es[0], ps).params, sep, variadic);
    }
  }

  lemma {:induction false} SubParamsGrow(c: Catalog, e: Expr, k: nat, ps: seq<Expr>)
    requires e.ArrayRef? && Printable(c, e) && k <= |e.upper|
    ensures ps <= PrintSubs(c, e, k, ps).params
    decreases e, 0, |e.upper| - k
  {
    if k < |e.upper| {
      assert e.upper[k] in Children(e);
      var qs := ps;
      if k < |e.lower| {
        assert e.lower[k] in Children(e);
        ParamsGrow(c, e.lower[k], ps);
        qs := Print(c, e.lower[k], ps).params;
      }
      ParamsGrow(c, e.upper[k], qs);
      SubParamsGrow(c, e, k + 1, Print(c, e.upper[k], qs).params);
    }
  }

  /* Where the printer writes a bracket directly behind a type name */

  // A subscripted Var of another relation prints as $n::type[...].
  ghost predicate NoBareParamSubscript(c: Catalog, e: Expr) {
    && (e.ArrayRef? && e.base.Var? ==> IsColumn(c, e.base))
    && (forall a | a in Visible(e) :: NoBareParamSubscript(c, a))
  }

  // The children that are printed: a cast shows only its first argument.
  function Visible(e: Expr): seq<Expr> {
    if e.FuncExpr? && e.format != ExplicitCall && e.args != [] then [e.args[0]] else Children(e)
  }

  ghost predicate AllClean(c: Catalog, es: seq<Expr>) {
    forall e | e in es :: NoBareParamSubscript(c, e)
  }

  /* Round trip */

  // Reading what e printed leaves the casts that follow, then the rest.
  ghost predicate ReadsBack(c: Catalog, e: Expr, ps: seq<Expr>, P: seq<Expr>, rest: seq<Token>)
    requires Printable(c, e)
  {
    ParseExpr(P, Print(c, e, ps).toks + rest) == ParseCasts(Shape(c, e), rest)
  }

  predicate Follows(rest: seq<Token>) {
    rest == [] || !rest[0].CastTo?
  }

  lemma {:induction false} ShapeIsNoGroup(c: Catalog, e: Expr)
    requires Printable(c, e)
    ensures !Shape(c, e).Group?
  {
    match e
    case FuncExpr(_, format, _, args, _, _, _) =>
      if format == ImplicitCast {
        ShapeIsNoGroup(c, args[0]);
      }
    case RelabelType(arg, _, _, _) => ShapeIsNoGroup(c, arg);
    case _ =>
  }

  lemma ReadsPlain(c: Catalog, e: Expr, ps: seq<Expr>, P: seq<Expr>, rest: seq<Token>)
    requires Printable(c, e) && ReadsBack(c, e, ps, P, rest) && Follows(rest)
    ensures ParsePlain(P, Print(c, e, ps).toks + rest) == Got(Shape(c, e), rest)
    ensures ParseExpr(P, Print(c, e, ps).toks + rest) == Got(Shape(c, e), rest)
  {
    hide Print, Shape, ParsePrimary;
    ShapeIsNoGroup(c, e);
  }

  lemma ReadsPrimary(c: Catalog, e: Expr, ps: seq<Expr>, P: seq<Expr>, rest: seq<Token>)
    requires Printable(c, e)
    requires ParsePrimary(P, Print(c, e, ps).toks + rest) == Got(Shape(c, e), rest)
    ensures ReadsBack(c, e, ps, P, rest)
  {
    hide Print, Shape, ParsePrimary;
  }

  // Behind "(": a form that starts with an operand.
  lemma OperandFirst(c: Catalog, e: Expr, ps: seq<Expr>, P: seq<Expr>, rest: seq<Token>)
    requires Printable(c, e) && ReadsBack(c, e, ps, P, rest)
    requires rest != [] && !rest[0].CastTo? && rest[0] != LBrk
    ensures ParsePrimary(P, [LPar] + Print(c, e, ps).toks + rest) == Continue(P, Shape(c, e), rest)
  {
    hide Print, Shape, Continue, ParseExpr;
    FirstToken(c, e, ps);
    ReadsPlain(c, e, ps, P, rest);
    ShapeIsNoGroup(c, e);
    var ts := Print(c, e, ps).toks + rest;
    assert [LPar] + Print(c, e, ps).toks + rest == [LPar] + ts;
    assert ([LPar] + ts)[1..] == ts;
    assert ts[0] == Print(c, e, ps).toks[0];
  }

  // An operand right before a closing token.
  lemma OperandLast(c: Catalog, e: Expr, ps: seq<Expr>, P: seq<Expr>, close: Token, rest: seq<Token>)
    requires Printable(c, e) && !close.CastTo? && ReadsBack(c, e, ps, P, [close] + rest)
    ensures Expect(ParsePlain(P, Print(c, e, ps).toks + ([close] + rest)), close) == Got(Shape(c, e), rest)
  {
    hide Print, Shape, ParsePlain;
    ReadsPlain(c, e, ps, P, [close] + rest);
    assert ([close] + rest)[1..] == rest;
  }

  lemma ReadsParam(c: Catalog, e: Expr, ps: seq<Expr>, P: seq<Expr>, rest: seq<Token>)
    requires IsRemoteParam(c, e) && Print(c, e, ps).params <= P
    ensures ReadsBack(c, e, ps, P, rest)
  {
    var n := IndexOf(ps, e);
    assert P[n - 1] == e;
    assert Print(c, e, ps).toks + rest == [Dollar(n), CastTo(e.typ)] + rest;
    ReadsPrimary(c, e, ps, P, rest);
  }

  // ( operator e )
  lemma ReadsPrefix(c: Catalog, e: Expr, ps: seq<Expr>, P: seq<Expr>, rest: seq<Token>, head: Token)
    requires Printable(c, e) && ReadsBack(c, e, ps, P, [RPar] + rest) && (head.OperName? || head.KwNot?)
    ensures ParsePrimary(P, [LPar, head] + Print(c, e, ps).toks + [RPar] + rest) ==
      Got(if head.KwNot? then Negation(Shape(c, e)) else Prefix(head.opno, Shape(c, e)), rest)
  {
    hide Print, Shape, ParsePlain;
    OperandLast(c, e, ps, P, RPar, rest);
    var ts := [head] + (Print(c, e, ps).toks + ([RPar] + rest));
    assert [LPar, head] + Print(c, e, ps).toks + [RPar] + rest == [LPar] + ts;
    assert ([LPar] + ts)[1..] == ts && ts[1..] == Print(c, e, ps).toks + ([RPar] + rest);
  }

  // ( e words ) with nothing behind the words
  lemma ReadsSuffix(c: Catalog, e: Expr, ps: seq<Expr>, P: seq<Expr>, rest: seq<Token>, words: seq<Token>, r: Sql)
    requires Printable(c, e) && words != [] && !words[0].CastTo? && words[0] != LBrk
    requires ReadsBack(c, e, ps, P, words + [RPar] + rest)
    requires Continue(P, Shape(c, e), words + [RPar] + rest) == Got(r, rest)
    ensures ParsePrimary(P, [LPar] + Print(c, e, ps).toks + (words + [RPar]) + rest) == Got(r, rest)
  {
    hide Print, Shape, Continue, ParsePrimary;
    OperandFirst(c, e, ps, P, words + [RPar] + rest);
    assert [LPar] + Print(c, e, ps).toks + (words + [RPar]) + rest ==
           [LPar] + Print(c, e, ps).toks + (words + [RPar] + rest);
  }

  lemma NullTestContinues(P: seq<Expr>, h: Sql, isNull: bool, asScalar: bool, rest: seq<Token>)
    ensures Continue(P, h, NullTestWords(isNull, asScalar) + [RPar] + rest) == Got(NullCheck(h, isNull, asScalar), rest)
  {
    var ts := NullTestWords(isNull, asScalar) + [RPar] + rest;
    if asScalar {
      assert ts[1..][0] == KwNull && ts[2..] == [RPar] + rest;
    } else {
      assert ts[1..] == [RPar] + rest;
    }
    assert ([RPar] + rest)[1..] == rest;
  }

  lemma PostfixContinues(P: seq<Expr>, h: Sql, opno: Oid, rest: seq<Token>)
    ensures Continue(P, h, [OperName(opno)] + [RPar] + rest) == Got(Postfix(opno, h), rest)
  {
    var ts := [OperName(opno)] + [RPar] + rest;
    assert ts[1..] == [RPar] + rest && ([RPar] + rest)[1..] == rest;
  }

  // ( a mid b close
  lemma ReadsPair(c: Catalog, a: Expr, b: Expr, ps: seq<Expr>, qs: seq<Expr>, P: seq<Expr>,
                  mid: seq<Token>, close: seq<Token>, rest: seq<Token>, r: Sql)
    requires Printable(c, a) && Printable(c, b) && mid != [] && !mid[0].CastTo? && mid[0] != LBrk
    requires ReadsBack(c, a, ps, P, mid + (Print(c, b, qs).toks + (close + rest)))
    requires Continue(P, Shape(c, a), mid + (Print(c, b, qs).toks + (close + rest))) == Got(r, rest)
    ensures ParsePrimary(P, [LPar] + Print(c, a, ps).toks + mid + Print(c, b, qs).toks + close + rest) == Got(r, rest)
  {
    hide Print, Shape, Continue, ParsePrimary;
    var tail := mid + (Print(c, b, qs).toks + (close + rest));
    OperandFirst(c, a, ps, P, tail);
    assert [LPar] + Print(c, a, ps).toks + mid + Print(c, b, qs).toks + close + rest ==
           [LPar] + Print(c, a, ps).toks + tail;
  }

  lemma InfixContinues(c: Catalog, h: Sql, opno: Oid, b: Expr, qs: seq<Expr>, P: seq<Expr>, rest: seq<Token>)
    requires Printable(c, b) && ReadsBack(c, b, qs, P, [RPar] + rest)
    ensures Continue(P, h, [OperName(opno)] + (Print(c, b, qs).toks + ([RPar] + rest))) == Got(Infix(opno, h, Shape(c, b)), rest)
  {
    hide Print, Shape, ParsePlain;
    FirstToken(c, b, qs);
    OperandLast(c, b, qs, P, RPar, rest);
    var ts := Print(c, b, qs).toks + ([RPar] + rest);
    assert ([OperName(opno)] + ts)[1..] == ts && ts[0] == Print(c, b, qs).toks[0];
  }

  lemma DistinctContinues(c: Catalog, h: Sql, b: Expr, qs: seq<Expr>, P: seq<Expr>, rest: seq<Token>)
    requires Printable(c, b) && ReadsBack(c, b, qs, P, [RPar] + rest)
    ensures Continue(P, h, [IsDistinctFrom] + (Print(c, b, qs).toks + ([RPar] + rest))) == Got(IsDistinct(h, Shape(c, b)), rest)
  {
    hide Print, Shape, ParsePlain;
    FirstToken(c, b, qs);
    OperandLast(c, b, qs, P, RPar, rest);
    var ts := Print(c, b, qs).toks + ([RPar] + rest);
    assert ([IsDistinctFrom] + ts)[1..] == ts && ts[0] == Print(c, b, qs).toks[0];
  }

  lemma QuantifierReads(P: seq<Expr>, h: Sql, opno: Oid, useOr: bool, tail: seq<Token>, x: Sql, rest: seq<Token>)
    requires ParsePlain(P, tail) == Got(x, [RPar] + ([RPar] + rest))
    ensures ContinueOperator(P, h, opno, [Quantifier(useOr), LPar] + tail) == Got(Quantified(opno, useOr, h, x), rest)
  {
    hide ParsePlain;
    var ts := [Quantifier(useOr), LPar] + tail;
    assert ts[1..][0] == LPar && ts[2..] == tail;
    assert ([RPar] + ([RPar] + rest))[1..] == [RPar] + rest && ([RPar] + rest)[1..] == rest;
  }

  lemma OperatorContinues(P: seq<Expr>, h: Sql, opno: Oid, ts: seq<Token>)
    ensures Continue(P, h, [OperName(opno)] + ts) == ContinueOperator(P, h, opno, ts)
  {
    hide ContinueOperator;
    assert ([OperName(opno)] + ts)[1..] == ts;
  }

  lemma QuantifiedContinues(c: Catalog, h: Sql, opno: Oid, useOr: bool, b: Expr, qs: seq<Expr>, P: seq<Expr>, rest: seq<Token>)
    requires Printable(c, b) && ReadsBack(c, b, qs, P, [RPar, RPar] + rest)
    ensures Continue(P, h, [OperName(opno), Quantifier(useOr), LPar] + (Print(c, b, qs).toks + ([RPar, RPar] + rest))) ==
      Got(Quantified(opno, useOr, h, Shape(c, b)), rest)
  {
    hide Print, Shape, ParsePlain, Continue, ContinueOperator;
    assert [RPar, RPar] + rest == [RPar] + ([RPar] + rest);
    ReadsPlain(c, b, qs, P, [RPar] + ([RPar] + rest));
    var tail := Print(c, b, qs).toks + ([RPar, RPar] + rest);
    QuantifierReads(P, h, opno, useOr, tail, Shape(c, b), rest);
    OperatorContinues(P, h, opno, [Quantifier(useOr), LPar] + tail);
    assert [OperName(opno), Quantifier(useOr), LPar] + tail == [OperName(opno)] + ([Quantifier(useOr), LPar] + tail);
  }

  /* Lists */

  // What follows the k-th element: separators, elements and the closing token.
  ghost predicate RestReadsBack(c: Catalog, es: seq<Expr>, ps: seq<Expr>, P: seq<Expr>, sep: Token, close: Token,
                                variadic: bool, rest: seq<Token>)
    requires AllPrintable(c, es)
  {
    ParseRest(P, PrintRest(c, es, ps, sep, variadic).toks + ([close] + rest), sep, close) ==
    Got(Items(Shapes(c, es), variadic && es != []), rest)
  }

  predicate Separates(sep: Token, close: Token) {
    sep != close && (sep == Comma || sep == KwAnd || sep == KwOr) && (close == RPar || close == RBrk)
  }

  lemma UnmarkedFirst(P: seq<Expr>, toks: seq<Token>, more: seq<Token>, sep: Token, close: Token,
                      x: Sql, items: Items, rest: seq<Token>)
    requires toks != [] && toks[0] != Variadic && ParsePlain(P, toks + more) == Got(x, more)
    requires ParseRest(P, more, sep, close) == Got(items, rest)
    ensures ParseSome(P, toks + more, sep, close) == Got(Items([x] + items.list, items.variadic), rest)
  {
    hide ParsePlain, ParseRest;
  }

  lemma MarkedLast(P: seq<Expr>, toks: seq<Token>, sep: Token, close: Token, x: Sql, rest: seq<Token>)
    requires ParsePlain(P, toks + ([close] + rest)) == Got(x, [close] + rest)
    ensures ParseSome(P, [Variadic] + toks + ([close] + rest), sep, close) == Got(Items([x], true), rest)
  {
    hide ParsePlain, ParseRest;
    assert ([Variadic] + toks + ([close] + rest))[1..] == toks + ([close] + rest);
    assert ([close] + rest)[1..] == rest;
  }

  lemma ShapesOfNone(c: Catalog, es: seq<Expr>)
    requires es == []
    ensures Shapes(c, es) == []
  {
  }

  // One element, possibly marked, and the rest.
  lemma SomeReadsBack(c: Catalog, es: seq<Expr>, ps: seq<Expr>, P: seq<Expr>, sep: Token, close: Token,
                      variadic: bool, rest: seq<Token>)
    requires es != [] && AllPrintable(c, es) && Separates(sep, close)
    requires ReadsBack(c, es[0], ps, P,
                       PrintRest(c, es[1..], Print(c, es[0], ps).params, sep, variadic).toks + ([close] + rest))
    requires RestReadsBack(c, es[1..], Print(c, es[0], ps).params, P, sep, close, variadic, rest)
    ensures ParseSome(P, Marked(variadic, es) + Print(c, es[0], ps).toks
                         + (PrintRest(c, es[1..], Print(c, es[0], ps).params, sep, variadic).toks + ([close] + rest)),
                      sep, close) == Got(Items(Shapes(c, es), variadic), rest)
  {
    hide Print, Shape, ParsePlain, ParseRest, ParseSome, PrintRest;
    var first := Print(c, es[0], ps);
    var more := PrintRest(c, es[1..], first.params, sep, variadic).toks + ([close] + rest);
    FirstToken(c, es[0], ps);
    RestStarts(c, es[1..], first.params, sep, close, variadic, rest);
    ReadsPlain(c, es[0], ps, P, more);
    assert Shapes(c, es) == [Shape(c, es[0])] + Shapes(c, es[1..]);
    hide Shapes;
    if variadic && |es| == 1 {
      ShapesOfNone(c, es[1..]);
      assert [Shape(c, es[0])] + Shapes(c, es[1..]) == [Shape(c, es[0])];
      assert more == [close] + rest;
      MarkedLast(P, first.toks, sep, close, Shape(c, es[0]), rest);
    } else {
      assert [] + first.toks + more == first.toks + more;
      UnmarkedFirst(P, first.toks, more, sep, close, Shape(c, es[0]), Items(Shapes(c, es[1..]), variadic && es[1..] != []), rest);
    }
  }

  function Marked(variadic: bool, es: seq<Expr>): seq<Token> {
    if variadic && |es| == 1 then [Variadic] else []
  }

  lemma RestStarts(c: Catalog, es: seq<Expr>, ps: seq<Expr>, sep: Token, close: Token, variadic: bool, rest: seq<Token>)
    requires AllPrintable(c, es) && Separates(sep, close)
    ensures var ts := PrintRest(c, es, ps, sep, variadic).toks + ([close] + rest);
            Follows(ts) && ts[0] == if es == [] then close else sep
    ensures es == [] ==> PrintRest(c, es, ps, sep, variadic).toks == []
  {
    hide Print;
  }

  lemma RestUnfolds(c: Catalog, es: seq<Expr>, ps: seq<Expr>, sep: Token, close: Token, variadic: bool, rest: seq<Token>)
    requires es != [] && AllPrintable(c, es)
    ensures PrintRest(c, es, ps, sep, variadic).toks + ([close] + rest) ==
      [sep] + (Marked(variadic, es) + Print(c, es[0], ps).toks
               + (PrintRest(c, es[1..], Print(c, es[0], ps).params, sep, variadic).toks + ([close] + rest)))
  {
    hide Print;
  }

  lemma RestSteps(P: seq<Expr>, ts: seq<Token>, sep: Token, close: Token)
    requires sep != close
    ensures ParseRest(P, [sep] + ts, sep, close) == ParseSome(P, ts, sep, close)
  {
    hide ParseSome;
    assert ([sep] + ts)[1..] == ts;
  }

  lemma RestEnds(c: Catalog, ps: seq<Expr>, P: seq<Expr>, sep: Token, close: Token, variadic: bool, rest: seq<Token>)
    ensures RestReadsBack(c, [], ps, P, sep, close, variadic, rest)
  {
    assert [] + ([close] + rest) == [close] + rest && ([close] + rest)[1..] == rest;
  }

  lemma {:induction false} RestRoundTrip(c: Catalog, es: seq<Expr>, ps: seq<Expr>, P: seq<Expr>, sep: Token, close: Token,
                                         variadic: bool, rest: seq<Token>)
    requires AllPrintable(c, es) && AllClean(c, es) && Separates(sep, close)
    requires PrintRest(c, es, ps, sep, variadic).params <= P
    ensures RestReadsBack(c, es, ps, P, sep, close, variadic, rest)
    decreases es, 1
  {
    hide Print, Shape, Shapes, ParseRest, ParseSome;
    if es == [] {
      RestEnds(c, ps, P, sep, close, variadic, rest);
    } else {
      var first := Print(c, es[0], ps);
      RestParamsGrow(c, es[1..], first.params, sep, variadic);
      PrintedReadsBack(c, es[0], ps, P, PrintRest(c, es[1..], first.params, sep, variadic).toks + ([close] + rest));
      RestRoundTrip(c, es[1..], first.params, P, sep, close, variadic, rest);
      SomeReadsBack(c, es, ps, P, sep, close, variadic, rest);
      RestUnfolds(c, es, ps, sep, close, variadic, rest);
      RestSteps(P, Marked(variadic, es) + first.toks
                   + (PrintRest(c, es[1..], first.params, sep, variadic).toks + ([close] + rest)), sep, close);
    }
  }

  // A comma-separated list up to its closing token.
  lemma {:induction false} ListRoundTrip(c: Catalog, es: seq<Expr>, ps: seq<Expr>, P: seq<Expr>, close: Token,
                                         variadic: bool, rest: seq<Token>)
    requires AllPrintable(c, es) && AllClean(c, es) && Separates(Comma, close)
    requires PrintList(c, es, ps, variadic).params <= P
    ensures ParseItems(P, PrintList(c, es, ps, variadic).toks + ([close] + rest), close) ==
      Got(Items(Shapes(c, es), variadic && es != []), rest)
    decreases es, 2
  {
    hide Print, Shape, ParseRest, ParseSome, PrintRest;
    if es == [] {
      assert [] + ([close] + rest) == [close] + rest && ([close] + rest)[1..] == rest;
    } else {
      var first := Print(c, es[0], ps);
      var more := PrintRest(c, es[1..], first.params, Comma, variadic).toks + ([close] + rest);
      RestParamsGrow(c, es[1..], first.params, Comma, variadic);
      PrintedReadsBack(c, es[0], ps, P, more);
      RestRoundTrip(c, es[1..], first.params, P, Comma, close, variadic, rest);
      SomeReadsBack(c, es, ps, P, Comma, close, variadic, rest);
      var ts := Marked(variadic, es) + first.toks + more;
      assert PrintList(c, es, ps, variadic).toks + ([close] + rest) == ts;
      FirstToken(c, es[0], ps);
      assert ts[0] == if variadic && |es| == 1 then Variadic else first.toks[0];
    }
  }

  /* Subscripts */

  ghost predicate SubsReadBack(c: Catalog, e: Expr, k: nat, ps: seq<Expr>, P: seq<Expr>, rest: seq<Token>)
    requires e.ArrayRef? && Printable(c, e) && k <= |e.upper|
  {
    ParseSubs(P, PrintSubs(c, e, k, ps).toks + ([RPar] + rest)) == Got(ShapeSubs(c, e, k), [RPar] + rest)
  }

  // [ u ] and more
  lemma ReadsUpperOnly(P: seq<Expr>, u: seq<Token>, more: seq<Token>, x: Sql, subs: seq<Sql>, end: seq<Token>)
    requires ParsePlain(P, u + ([RBrk] + more)) == Got(x, [RBrk] + more) && ParseSubs(P, more) == Got(subs, end)
    ensures ParseSubs(P, [LBrk] + u + [RBrk] + more) == Got([Element(x)] + subs, end)
  {
    hide ParsePlain;
    var ts := [LBrk] + u + [RBrk] + more;
    assert ts[1..] == u + ([RBrk] + more) && ([RBrk] + more)[1..] == more;
    assert ParseSubs(P, ts) == MoreSubs(P, Element(x), more);
  }

  lemma SliceStep(P: seq<Expr>, ts: seq<Token>, upper: seq<Token>, more: seq<Token>, x: Sql, y: Sql)
    requires ts != [] && ts[0] == LBrk && ParsePlain(P, ts[1..]) == Got(x, [Colon] + upper)
    requires ParsePlain(P, upper) == Got(y, [RBrk] + more)
    ensures ParseSubs(P, ts) == MoreSubs(P, Slice(x, y), more)
  {
    hide ParsePlain, MoreSubs;
    assert ([Colon] + upper)[1..] == upper && ([RBrk] + more)[1..] == more;
  }

  lemma BoundsRegroup(l: seq<Token>, u: seq<Token>, more: seq<Token>)
    ensures ([LBrk] + l + [Colon] + u + [RBrk] + more)[1..] == l + ([Colon] + (u + ([RBrk] + more)))
  {
  }

  // [ l : u ] and more
  lemma ReadsBothBounds(P: seq<Expr>, l: seq<Token>, u: seq<Token>, more: seq<Token>, x: Sql, y: Sql,
                        subs: seq<Sql>, end: seq<Token>)
    requires ParsePlain(P, l + ([Colon] + (u + ([RBrk] + more)))) == Got(x, [Colon] + (u + ([RBrk] + more)))
    requires ParsePlain(P, u + ([RBrk] + more)) == Got(y, [RBrk] + more) && ParseSubs(P, more) == Got(subs, end)
    ensures ParseSubs(P, [LBrk] + l + [Colon] + u + [RBrk] + more) == Got([Slice(x, y)] + subs, end)
  {
    hide ParsePlain, ParseSubs;
    BoundsRegroup(l, u, more);
    SliceStep(P, [LBrk] + l + [Colon] + u + [RBrk] + more, u + ([RBrk] + more), more, x, y);
  }

  // The parameter list behind the lower bound of subscript k, if it has one.
  function AfterLower(c: Catalog, e: Expr, k: nat, ps: seq<Expr>): seq<Expr>
    requires e.ArrayRef? && Printable(c, e) && k < |e.upper|
  {
    assert k < |e.lower| ==> e.lower[k] in Children(e);
    if k < |e.lower| then Print(c, e.lower[k], ps).params else ps
  }

  lemma KthUpper(c: Catalog, e: Expr, k: nat)
    requires e.ArrayRef? && Printable(c, e) && k < |e.upper|
    ensures Printable(c, e.upper[k]) && (k < |e.lower| ==> Printable(c, e.lower[k]))
    ensures ShapeSubs(c, e, k) ==
      [if k < |e.lower| then Slice(Shape(c, e.lower[k]), Shape(c, e.upper[k])) else Element(Shape(c, e.upper[k]))] + ShapeSubs(c, e, k + 1)
  {
    hide Shape;
    assert e.upper[k] in Children(e);
    assert k < |e.lower| ==> e.lower[k] in Children(e);
  }

  lemma SubsStepUpper(c: Catalog, e: Expr, k: nat, ps: seq<Expr>, P: seq<Expr>, rest: seq<Token>,
                      u: Out, next: seq<Token>)
    requires e.ArrayRef? && Printable(c, e) && |e.lower| <= k < |e.upper| && Printable(c, e.upper[k])
    requires u == Print(c, e.upper[k], ps) && next == PrintSubs(c, e, k + 1, u.params).toks
    requires SubsReadBack(c, e, k + 1, u.params, P, rest)
    requires ReadsBack(c, e.upper[k], ps, P, [RBrk] + (next + ([RPar] + rest)))
    ensures SubsReadBack(c, e, k, ps, P, rest)
  {
    hide Print, PrintSubs, Shape, ShapeSubs, ParsePlain, ParseSubs;
    var end := [RPar] + rest;
    var more := next + end;
    KthUpper(c, e, k);
    SubsUnfold(c, e, k, ps);
    ReadsPlain(c, e.upper[k], ps, P, [RBrk] + more);
    assert [LBrk] + u.toks + [RBrk] + next + end == [LBrk] + u.toks + [RBrk] + more;
    ReadsUpperOnly(P, u.toks, more, Shape(c, e.upper[k]), ShapeSubs(c, e, k + 1), end);
  }

  lemma FrontRegroup(front: seq<Token>, next: seq<Token>, end: seq<Token>)
    ensures (front + next) + end == front + (next + end)
  {
  }

  lemma SubsStepBoth(c: Catalog, e: Expr, k: nat, ps: seq<Expr>, P: seq<Expr>, rest: seq<Token>,
                     l: Out, u: Out, next: seq<Token>)
    requires e.ArrayRef? && Printable(c, e) && k < |e.upper| && Printable(c, e.upper[k])
    requires k < |e.lower| && Printable(c, e.lower[k])
    requires l == Print(c, e.lower[k], ps) && u == Print(c, e.upper[k], l.params)
    requires next == PrintSubs(c, e, k + 1, u.params).toks
    requires SubsReadBack(c, e, k + 1, u.params, P, rest)
    requires ReadsBack(c, e.upper[k], l.params, P, [RBrk] + (next + ([RPar] + rest)))
    requires ReadsBack(c, e.lower[k], ps, P, [Colon] + (u.toks + ([RBrk] + (next + ([RPar] + rest)))))
    ensures SubsReadBack(c, e, k, ps, P, rest)
  {
    hide Print, PrintSubs, Shape, ShapeSubs, ParsePlain, ParseSubs, ReadsBack;
    var end := [RPar] + rest;
    var more := next + end;
    KthUpper(c, e, k);
    SubsUnfold(c, e, k, ps);
    ReadsPlain(c, e.upper[k], l.params, P, [RBrk] + more);
    ReadsPlain(c, e.lower[k], ps, P, [Colon] + (u.toks + ([RBrk] + more)));
    FrontRegroup([LBrk] + l.toks + [Colon] + u.toks + [RBrk], next, end);
    ReadsBothBounds(P, l.toks, u.toks, more, Shape(c, e.lower[k]), Shape(c, e.upper[k]), ShapeSubs(c, e, k + 1), end);
  }

  lemma SubsEnd(c: Catalog, e: Expr, ps: seq<Expr>, P: seq<Expr>, rest: seq<Token>)
    requires e.ArrayRef? && Printable(c, e)
    ensures SubsReadBack(c, e, |e.upper|, ps, P, rest)
  {
    assert [] + ([RPar] + rest) == [RPar] + rest;
  }

  lemma {:induction false} SubsRoundTrip(c: Catalog, e: Expr, k: nat, ps: seq<Expr>, P: seq<Expr>, rest: seq<Token>)
    requires e.ArrayRef? && Printable(c, e) && NoBareParamSubscript(c, e) && k <= |e.upper|
    requires PrintSubs(c, e, k, ps).params <= P
    ensures SubsReadBack(c, e, k, ps, P, rest)
    decreases e, 0, |e.upper| - k
  {
    if k == |e.upper| {
      SubsEnd(c, e, ps, P, rest);
    } else {
      assert e.upper[k] in Children(e);
      assert k < |e.lower| ==> e.lower[k] in Children(e);
      KthUpper(c, e, k);
      SubsUnfold(c, e, k, ps);
      var qs := AfterLower(c, e, k, ps);
      hide Print, PrintSubs, Shape, ShapeSubs, ReadsBack, SubsReadBack;
      var u := Print(c, e.upper[k], qs);
      var more := PrintSubs(c, e, k + 1, u.params).toks + ([RPar] + rest);
      SubParamsGrow(c, e, k + 1, u.params);
      ParamsGrow(c, e.upper[k], qs);
      SubsRoundTrip(c, e, k + 1, u.params, P, rest);
      PrintedReadsBack(c, e.upper[k], qs, P, [RBrk] + more);
      var next := PrintSubs(c, e, k + 1, u.params).toks;
      if k < |e.lower| {
        PrintedReadsBack(c, e.lower[k], ps, P, [Colon] + (u.toks + ([RBrk] + more)));
        SubsStepBoth(c, e, k, ps, P, rest, Print(c, e.lower[k], ps), u, next);
      } else {
        SubsStepUpper(c, e, k, ps, P, rest, u, next);
      }
    }
  }

  lemma SubsUnfold(c: Catalog, e: Expr, k: nat, ps: seq<Expr>)
    requires e.ArrayRef? && Printable(c, e) && k < |e.upper|
    ensures e.upper[k] in Children(e) && (k < |e.lower| ==> e.lower[k] in Children(e))
    ensures k < |e.lower| ==>
      var l := Print(c, e.lower[k], ps);
      var u := Print(c, e.upper[k], l.params);
      PrintSubs(c, e, k, ps) ==
      Out([LBrk] + l.toks + [Colon] + u.toks + [RBrk] + PrintSubs(c, e, k + 1, u.params).toks,
          PrintSubs(c, e, k + 1, u.params).params)
    ensures k >= |e.lower| ==>
      var u := Print(c, e.upper[k], ps);
      PrintSubs(c, e, k, ps) ==
      Out([LBrk] + u.toks + [RBrk] + PrintSubs(c, e, k + 1, u.params).toks, PrintSubs(c, e, k + 1, u.params).params)
  {
    hide Print;
    assert e.upper[k] in Children(e);
    assert k < |e.lower| ==> e.lower[k] in Children(e);
  }

  lemma PrintedSubscript(c: Catalog, e: Expr, ps: seq<Expr>)
    requires e.ArrayRef? && Printable(c, e) && Printable(c, e.base)
    ensures var b := Print(c, e.base, ps);
            var subs := PrintSubs(c, e, 0, b.params).toks;
            Print(c, e, ps).toks == [LPar] + (if e.base.Var? then b.toks else [LPar] + b.toks + [RPar]) + subs + [RPar]
  {
    hide PrintSubs;
  }

  lemma Regroup(a: seq<Token>, subs: seq<Token>, rest: seq<Token>)
    ensures ([LPar] + a + subs + [RPar]) + rest == [LPar] + (a + (subs + ([RPar] + rest)))
    ensures ([LPar] + ([LPar] + a + [RPar]) + subs + [RPar]) + rest
            == [LPar] + ([LPar] + a + ([RPar] + (subs + ([RPar] + rest))))
  {
  }

  lemma SubscriptUnfolds(c: Catalog, e: Expr, ps: seq<Expr>, rest: seq<Token>)
    requires e.ArrayRef? && Printable(c, e) && Printable(c, e.base) && (e.base.Var? ==> IsColumn(c, e.base))
    ensures var b := Print(c, e.base, ps);
            var tail := PrintSubs(c, e, 0, b.params).toks + ([RPar] + rest);
            Print(c, e, ps).toks + rest ==
            if e.base.Var? then [LPar] + ([Column(e.base.varno, e.base.attno)] + tail)
            else [LPar] + ([LPar] + b.toks + ([RPar] + tail))
    ensures Shape(c, e) == Subscript(Shape(c, e.base), e.base.Var?, ShapeSubs(c, e, 0))
    ensures e.base.Var? ==> Shape(c, e.base) == Col(e.base.varno, e.base.attno)
  {
    hide PrintSubs, ShapeSubs;
    assert e.base.Var? ==> Print(c, e.base, ps).toks == [Column(e.base.varno, e.base.attno)];
    hide Print;
    PrintedSubscript(c, e, ps);
    Regroup(Print(c, e.base, ps).toks, PrintSubs(c, e, 0, Print(c, e.base, ps).params).toks, rest);
  }

  // ( base subscripts ), the base in parentheses unless it is a Var
  lemma ReadsSubscript(c: Catalog, e: Expr, ps: seq<Expr>, P: seq<Expr>, rest: seq<Token>)
    requires e.ArrayRef? && Printable(c, e) && Printable(c, e.base) && (e.base.Var? ==> IsColumn(c, e.base))
    requires SubsReadBack(c, e, 0, Print(c, e.base, ps).params, P, rest)
    requires !e.base.Var? ==>
      ReadsBack(c, e.base, ps, P, [RPar] + (PrintSubs(c, e, 0, Print(c, e.base, ps).params).toks + ([RPar] + rest)))
    ensures ReadsBack(c, e, ps, P, rest)
  {
    hide Print, PrintSubs, Shape, ShapeSubs, ParseSubs, ParsePrimary, FinishSubscript;
    var b := Print(c, e.base, ps);
    var tail := PrintSubs(c, e, 0, b.params).toks + ([RPar] + rest);
    SubsStart(c, e, b.params, rest);
    FinishReads(P, Shape(c, e.base), e.base.Var?, tail, ShapeSubs(c, e, 0), rest);
    SubscriptUnfolds(c, e, ps, rest);
    if e.base.Var? {
      BareReads(P, e.base.varno, e.base.attno, tail);
    } else {
      GroupReads(c, e.base, ps, P, tail);
    }
    ReadsPrimary(c, e, ps, P, rest);
  }

  lemma SubsStart(c: Catalog, e: Expr, ps: seq<Expr>, rest: seq<Token>)
    requires e.ArrayRef? && Printable(c, e)
    ensures var ts := PrintSubs(c, e, 0, ps).toks + ([RPar] + rest); ts != [] && ts[0] == LBrk
  {
    SubsUnfold(c, e, 0, ps);
  }

  lemma FinishReads(P: seq<Expr>, base: Sql, bare: bool, ts: seq<Token>, subs: seq<Sql>, rest: seq<Token>)
    requires ParseSubs(P, ts) == Got(subs, [RPar] + rest)
    ensures FinishSubscript(P, base, bare, ts) == Got(Subscript(base, bare, subs), rest)
  {
    assert ([RPar] + rest)[1..] == rest;
  }

  lemma BareReads(P: seq<Expr>, varno: nat, attno: int, tail: seq<Token>)
    requires tail != [] && tail[0] == LBrk
    ensures ParsePrimary(P, [LPar] + ([Column(varno, attno)] + tail)) == FinishSubscript(P, Col(varno, attno), true, tail)
  {
    hide FinishSubscript;
    var ts := [Column(varno, attno)] + tail;
    assert ([LPar] + ts)[1..] == ts && ts[1..] == tail;
    assert ParseExpr(P, ts) == Got(Col(varno, attno), tail);
  }

  lemma GroupReads(c: Catalog, e: Expr, ps: seq<Expr>, P: seq<Expr>, tail: seq<Token>)
    requires Printable(c, e) && tail != [] && tail[0] == LBrk && ReadsBack(c, e, ps, P, [RPar] + tail)
    ensures ParsePrimary(P, [LPar] + ([LPar] + Print(c, e, ps).toks + ([RPar] + tail))) ==
      FinishSubscript(P, Shape(c, e), false, tail)
  {
    hide FinishSubscript, Print, Shape;
    OperandFirst(c, e, ps, P, [RPar] + tail);
    assert ([RPar] + tail)[1..] == tail;
    var ts := [LPar] + Print(c, e, ps).toks + ([RPar] + tail);
    assert ParseExpr(P, ts) == Got(Group(Shape(c, e)), tail);
    assert ([LPar] + ts)[1..] == ts;
  }

  /* The round trip by node type */

  // Casts come behind what they apply to.
  lemma ReadsCast(c: Catalog, e: Expr, arg: Expr, typ: Oid, ps: seq<Expr>, P: seq<Expr>, rest: seq<Token>)
    requires Printable(c, e) && Printable(c, arg) && ReadsBack(c, arg, ps, P, [CastTo(typ)] + rest)
    requires Print(c, e, ps).toks == Print(c, arg, ps).toks + [CastTo(typ)] && Shape(c, e) == Cast(Shape(c, arg), typ)
    ensures ReadsBack(c, e, ps, P, rest)
  {
    hide Print, Shape, ParseExpr;
    ShapeIsNoGroup(c, arg);
    assert Print(c, arg, ps).toks + [CastTo(typ)] + rest == Print(c, arg, ps).toks + ([CastTo(typ)] + rest);
    assert ([CastTo(typ)] + rest)[1..] == rest;
  }

  lemma CallReads(P: seq<Expr>, funcid: Oid, ts: seq<Token>)
    ensures var items := ParseItems(P, ts, RPar);
            items.Got? ==> ParsePrimary(P, [FuncName(funcid), LPar] + ts) ==
                           Got(Call(funcid, items.value.variadic, items.value.list), items.rest)
  {
    hide ParseItems;
    assert ([FuncName(funcid), LPar] + ts)[2..] == ts;
  }

  lemma ArrayReads(P: seq<Expr>, ts: seq<Token>)
    ensures var items := ParseItems(P, ts, RBrk);
            items.Got? && !items.value.variadic ==>
              && (items.value.list != [] ==>
                    ParsePrimary(P, [KwArray, LBrk] + ts) == Got(ArrayOf(items.value.list, INVALID_OID), items.rest))
              && (items.value.list == [] && items.rest != [] && items.rest[0].CastTo? ==>
                    ParsePrimary(P, [KwArray, LBrk] + ts) == Got(ArrayOf([], items.rest[0].typ), items.rest[1..]))
  {
    hide ParseItems;
    assert ([KwArray, LBrk] + ts)[2..] == ts;
  }

  lemma FuncUnfolds(c: Catalog, e: Expr, ps: seq<Expr>, rest: seq<Token>)
    requires e.FuncExpr? && Printable(c, e)
    ensures AllPrintable(c, e.args) && (e.format != ExplicitCall ==> e.args != [])
    ensures e.format == ImplicitCast ==> Print(c, e, ps) == Print(c, e.args[0], ps) && Shape(c, e) == Shape(c, e.args[0])
    ensures e.format == ExplicitCast ==>
      && Print(c, e, ps) == Then(Print(c, e.args[0], ps), [CastTo(e.typ)])
      && Shape(c, e) == Cast(Shape(c, e.args[0]), e.typ)
    ensures e.format == ExplicitCall ==>
      var list := PrintList(c, e.args, ps, e.variadic);
      && Print(c, e, ps).params == list.params
      && Print(c, e, ps).toks + rest == [FuncName(e.funcid), LPar] + (list.toks + ([RPar] + rest))
      && Shape(c, e) == Call(e.funcid, e.variadic && e.args != [], Shapes(c, e.args))
  {
    hide PrintList, Shapes;
  }

  lemma RoundTripFunc(c: Catalog, e: Expr, ps: seq<Expr>, P: seq<Expr>, rest: seq<Token>)
    requires e.FuncExpr? && Printable(c, e) && NoBareParamSubscript(c, e) && Print(c, e, ps).params <= P
    ensures ReadsBack(c, e, ps, P, rest)
    decreases e, 2
  {
    hide Print, PrintList, Shape, Shapes, ParseItems, ParsePrimary;
    FuncUnfolds(c, e, ps, rest);
    assert e.format != ExplicitCall ==> e.args[0] in Visible(e);
    match e.format
    case ImplicitCast => PrintedReadsBack(c, e.args[0], ps, P, rest);
    case ExplicitCast =>
      PrintedReadsBack(c, e.args[0], ps, P, [CastTo(e.typ)] + rest);
      ReadsCast(c, e, e.args[0], e.typ, ps, P, rest);
    case ExplicitCall =>
      ListRoundTrip(c, e.args, ps, P, RPar, e.variadic, rest);
      CallReads(P, e.funcid, PrintList(c, e.args, ps, e.variadic).toks + ([RPar] + rest));
      ReadsPrimary(c, e, ps, P, rest);
  }

  lemma RoundTripOp(c: Catalog, e: Expr, ps: seq<Expr>, P: seq<Expr>, rest: seq<Token>)
    requires e.OpExpr? && Printable(c, e) && NoBareParamSubscript(c, e) && Print(c, e, ps).params <= P
    ensures ReadsBack(c, e, ps, P, rest)
    decreases e, 2
  {
    hide ParsePrimary;
    var a := e.args[0];
    match c.oprkind(e.opno)
    case LeftUnary =>
      PrintedReadsBack(c, a, ps, P, [RPar] + rest);
      ReadsPrefix(c, a, ps, P, rest, OperName(e.opno));
      ReadsPrimary(c, e, ps, P, rest);
    case RightUnary =>
      PrintedReadsBack(c, a, ps, P, [OperName(e.opno)] + [RPar] + rest);
      PostfixContinues(P, Shape(c, a), e.opno, rest);
      ReadsSuffix(c, a, ps, P, rest, [OperName(e.opno)], Postfix(e.opno, Shape(c, a)));
      assert [OperName(e.opno)] + [RPar] == [OperName(e.opno), RPar];
      ReadsPrimary(c, e, ps, P, rest);
    case Binary =>
      var qs := Print(c, a, ps).params;
      PairRoundTrip(c, e.args, ps, P, [OperName(e.opno)], [RPar], rest);
      InfixContinues(c, Shape(c, a), e.opno, e.args[1], qs, P, rest);
      ReadsPair(c, a, e.args[1], ps, qs, P, [OperName(e.opno)], [RPar], rest, Shape(c, e));
      ReadsPrimary(c, e, ps, P, rest);
  }

  // Both operands of a pair, each in front of what follows it.
  lemma PairRoundTrip(c: Catalog, args: seq<Expr>, ps: seq<Expr>, P: seq<Expr>, mid: seq<Token>, close: seq<Token>, rest: seq<Token>)
    requires |args| == 2 && AllPrintable(c, args) && AllClean(c, args)
    requires Print(c, args[1], Print(c, args[0], ps).params).params <= P
    ensures var qs := Print(c, args[0], ps).params;
            && ReadsBack(c, args[0], ps, P, mid + (Print(c, args[1], qs).toks + (close + rest)))
            && ReadsBack(c, args[1], qs, P, close + rest)
    decreases args, 4
  {
    hide ReadsBack;
    var a, b := args[0], args[1];
    var qs := Print(c, a, ps).params;
    ParamsGrow(c, b, qs);
    PrintedReadsBack(c, a, ps, P, mid + (Print(c, b, qs).toks + (close + rest)));
    PrintedReadsBack(c, b, qs, P, close + rest);
  }

  // Two operands between "(" and the closing tokens.
  lemma PairReadsBack(c: Catalog, e: Expr, args: seq<Expr>, ps: seq<Expr>, P: seq<Expr>, mid: seq<Token>, close: seq<Token>,
                      rest: seq<Token>, qs: seq<Expr>)
    requires Printable(c, e) && |args| == 2 && AllPrintable(c, args) && mid != [] && !mid[0].CastTo? && mid[0] != LBrk
    requires qs == Print(c, args[0], ps).params
    requires Print(c, e, ps).toks == Pair(Print(c, args[0], ps), mid, Print(c, args[1], qs), close).toks
    requires ReadsBack(c, args[0], ps, P, mid + (Print(c, args[1], qs).toks + (close + rest)))
    requires Continue(P, Shape(c, args[0]), mid + (Print(c, args[1], qs).toks + (close + rest))) == Got(Shape(c, e), rest)
    ensures ReadsBack(c, e, ps, P, rest)
  {
    hide Print, Shape, Continue, ReadsBack, ParsePrimary;
    ReadsPair(c, args[0], args[1], ps, qs, P, mid, close, rest, Shape(c, e));
    ReadsPrimary(c, e, ps, P, rest);
  }

  lemma CleanArgs(c: Catalog, e: Expr)
    requires (e.DistinctExpr? || e.ScalarArrayOp?) && Printable(c, e) && NoBareParamSubscript(c, e)
    ensures |e.args| == 2 && AllPrintable(c, e.args) && AllClean(c, e.args)
  {
    assert Visible(e) == e.args == Children(e);
  }

  lemma DistinctUnfolds(c: Catalog, e: Expr, ps: seq<Expr>)
    requires e.DistinctExpr? && Printable(c, e)
    ensures var l := Print(c, e.args[0], ps);
            Print(c, e, ps) == Pair(l, [IsDistinctFrom], Print(c, e.args[1], l.params), [RPar])
    ensures Shape(c, e) == IsDistinct(Shape(c, e.args[0]), Shape(c, e.args[1]))
  {
  }

  lemma RoundTripDistinct(c: Catalog, e: Expr, ps: seq<Expr>, P: seq<Expr>, rest: seq<Token>)
    requires e.DistinctExpr? && Printable(c, e) && NoBareParamSubscript(c, e) && Print(c, e, ps).params <= P
    ensures ReadsBack(c, e, ps, P, rest)
    decreases e, 2
  {
    CleanArgs(c, e);
    DistinctUnfolds(c, e, ps);
    hide Print, Shape, Continue, ReadsBack, Printable, NoBareParamSubscript;
    var qs := Print(c, e.args[0], ps).params;
    PairRoundTrip(c, e.args, ps, P, [IsDistinctFrom], [RPar], rest);
    DistinctContinues(c, Shape(c, e.args[0]), e.args[1], qs, P, rest);
    PairReadsBack(c, e, e.args, ps, P, [IsDistinctFrom], [RPar], rest, qs);
  }

  lemma QuantifiedUnfolds(c: Catalog, e: Expr, ps: seq<Expr>)
    requires e.ScalarArrayOp? && Printable(c, e)
    ensures var l := Print(c, e.args[0], ps);
            Print(c, e, ps)
            == Pair(l, [OperName(e.opno), Quantifier(e.useOr), LPar], Print(c, e.args[1], l.params), [RPar, RPar])
    ensures Shape(c, e) == Quantified(e.opno, e.useOr, Shape(c, e.args[0]), Shape(c, e.args[1]))
  {
  }

  lemma RoundTripQuantified(c: Catalog, e: Expr, ps: seq<Expr>, P: seq<Expr>, rest: seq<Token>)
    requires e.ScalarArrayOp? && Printable(c, e) && NoBareParamSubscript(c, e) && Print(c, e, ps).params <= P
    ensures ReadsBack(c, e, ps, P, rest)
    decreases e, 2
  {
    CleanArgs(c, e);
    QuantifiedUnfolds(c, e, ps);
    hide Print, Shape, Continue, ReadsBack, Printable, NoBareParamSubscript, AllClean;
    var qs := Print(c, e.args[0], ps).params;
    var mid := [OperName(e.opno), Quantifier(e.useOr), LPar];
    PairRoundTrip(c, e.args, ps, P, mid, [RPar, RPar], rest);
    QuantifiedContinues(c, Shape(c, e.args[0]), e.opno, e.useOr, e.args[1], qs, P, rest);
    PairReadsBack(c, e, e.args, ps, P, mid, [RPar, RPar], rest, qs);
  }

  lemma JunctionContinues(c: Catalog, h: Sql, es: seq<Expr>, ps: seq<Expr>, P: seq<Expr>, isAnd: bool, rest: seq<Token>)
    requires AllPrintable(c, es) && es != []
    requires RestReadsBack(c, es, ps, P, if isAnd then KwAnd else KwOr, RPar, false, rest)
    ensures Continue(P, h, PrintRest(c, es, ps, if isAnd then KwAnd else KwOr, false).toks + ([RPar] + rest)) ==
      Got(Junction(isAnd, [h] + Shapes(c, es)), rest)
  {
    RestStarts(c, es, ps, if isAnd then KwAnd else KwOr, RPar, false, rest);
    hide PrintRest, Shapes, ParseRest;
  }

  lemma RoundTripJunction(c: Catalog, e: Expr, ps: seq<Expr>, P: seq<Expr>, rest: seq<Token>)
    requires e.BoolExpr? && e.op != Not && Printable(c, e) && NoBareParamSubscript(c, e) && Print(c, e, ps).params <= P
    ensures ReadsBack(c, e, ps, P, rest)
    decreases e, 2
  {
    var sep := if e.op == And then KwAnd else KwOr;
    var a, more := e.args[0], e.args[1..];
    var first := Print(c, a, ps);
    RestParamsGrow(c, more, first.params, sep, false);
    var tail := PrintRest(c, more, first.params, sep, false).toks + ([RPar] + rest);
    PrintedReadsBack(c, a, ps, P, tail);
    RestRoundTrip(c, more, first.params, P, sep, RPar, false, rest);
    RestStarts(c, more, first.params, sep, RPar, false, rest);
    JunctionContinues(c, Shape(c, a), more, first.params, P, e.op == And, rest);
    OperandFirst(c, a, ps, P, tail);
    JunctionUnfolds(c, e, ps, rest);
    hide Print, PrintRest, Shape, Shapes, ParsePrimary, Continue;
    ReadsPrimary(c, e, ps, P, rest);
  }

  lemma JunctionUnfolds(c: Catalog, e: Expr, ps: seq<Expr>, rest: seq<Token>)
    requires e.BoolExpr? && e.op != Not && Printable(c, e)
    ensures var sep := if e.op == And then KwAnd else KwOr;
            var first := Print(c, e.args[0], ps);
            Print(c, e, ps).toks + rest ==
            [LPar] + first.toks + (PrintRest(c, e.args[1..], first.params, sep, false).toks + ([RPar] + rest))
    ensures Shape(c, e) == Junction(e.op == And, [Shape(c, e.args[0])] + Shapes(c, e.args[1..]))
  {
    hide PrintRest;
  }

  lemma ArrayUnfolds(c: Catalog, e: Expr, ps: seq<Expr>, rest: seq<Token>)
    requires e.ArrayExpr? && Printable(c, e)
    ensures AllPrintable(c, e.elements)
    ensures var list := PrintList(c, e.elements, ps, false);
            var behind := if e.elements == [] then [CastTo(e.typ)] + rest else rest;
            && Print(c, e, ps).params == list.params
            && Print(c, e, ps).toks + rest == [KwArray, LBrk] + (list.toks + ([RBrk] + behind))
    ensures Shape(c, e) == ArrayOf(Shapes(c, e.elements), if e.elements == [] then e.typ else INVALID_OID)
  {
    hide PrintList, Shapes;
  }

  lemma RoundTripArray(c: Catalog, e: Expr, ps: seq<Expr>, P: seq<Expr>, rest: seq<Token>)
    requires e.ArrayExpr? && Printable(c, e) && NoBareParamSubscript(c, e) && Print(c, e, ps).params <= P
    ensures ReadsBack(c, e, ps, P, rest)
    decreases e, 2
  {
    hide Print, PrintList, Shape, Shapes, ParseItems, ParsePrimary;
    ArrayUnfolds(c, e, ps, rest);
    var behind := if e.elements == [] then [CastTo(e.typ)] + rest else rest;
    ListRoundTrip(c, e.elements, ps, P, RBrk, false, behind);
    ArrayReads(P, PrintList(c, e.elements, ps, false).toks + ([RBrk] + behind));
    assert ([CastTo(e.typ)] + rest)[1..] == rest;
    if e.elements == [] {
      ShapesOfNone(c, e.elements);
    }
    ReadsPrimary(c, e, ps, P, rest);
  }

  lemma RoundTripArrayRef(c: Catalog, e: Expr, ps: seq<Expr>, P: seq<Expr>, rest: seq<Token>)
    requires e.ArrayRef? && Printable(c, e) && NoBareParamSubscript(c, e) && Print(c, e, ps).params <= P
    ensures ReadsBack(c, e, ps, P, rest)
    decreases e, 2
  {
    assert e.base in Children(e);
    var qs := Print(c, e.base, ps).params;
    SubParamsGrow(c, e, 0, qs);
    assert Print(c, e, ps).params == PrintSubs(c, e, 0, qs).params;
    hide Print, PrintSubs, ReadsBack, SubsReadBack;
    SubsRoundTrip(c, e, 0, qs, P, rest);
    if !e.base.Var? {
      PrintedReadsBack(c, e.base, ps, P, [RPar] + (PrintSubs(c, e, 0, qs).toks + ([RPar] + rest)));
    }
    ReadsSubscript(c, e, ps, P, rest);
  }

  lemma RoundTripUnary(c: Catalog, e: Expr, ps: seq<Expr>, P: seq<Expr>, rest: seq<Token>)
    requires e.RelabelType? || e.NullTest? || (e.BoolExpr? && e.op == Not)
    requires Printable(c, e) && NoBareParamSubscript(c, e) && Print(c, e, ps).params <= P
    ensures ReadsBack(c, e, ps, P, rest)
    decreases e, 2
  {
    hide ParsePrimary;
    match e
    case RelabelType(arg, form, typ, _) =>
      if form == ImplicitCast {
        PrintedReadsBack(c, arg, ps, P, rest);
      } else {
        PrintedReadsBack(c, arg, ps, P, [CastTo(typ)] + rest);
        ReadsCast(c, e, arg, typ, ps, P, rest);
      }
    case NullTest(arg, isNull, asScalar, _) =>
      var words := NullTestWords(isNull, asScalar);
      PrintedReadsBack(c, arg, ps, P, words + [RPar] + rest);
      NullTestContinues(P, Shape(c, arg), isNull, asScalar, rest);
      ReadsSuffix(c, arg, ps, P, rest, words, Shape(c, e));
      ReadsPrimary(c, e, ps, P, rest);
    case BoolExpr(_, args, _) =>
      PrintedReadsBack(c, args[0], ps, P, [RPar] + rest);
      ReadsPrefix(c, args[0], ps, P, rest, KwNot);
      ReadsPrimary(c, e, ps, P, rest);
  }

  lemma ReadsAtom(c: Catalog, e: Expr, ps: seq<Expr>, P: seq<Expr>, rest: seq<Token>)
    requires e.Const? || (e.Var? && IsColumn(c, e))
    ensures ReadsBack(c, e, ps, P, rest)
  {
    var ts := Print(c, e, ps).toks + rest;
    assert ts[1..] == rest;
    ReadsPrimary(c, e, ps, P, rest);
  }

  lemma {:induction false} PrintedReadsBack(c: Catalog, e: Expr, ps: seq<Expr>, P: seq<Expr>, rest: seq<Token>)
    requires Printable(c, e) && NoBareParamSubscript(c, e) && Print(c, e, ps).params <= P
    ensures ReadsBack(c, e, ps, P, rest)
    decreases e, 3
  {
    hide Print, ReadsBack;
    match e
    case Var(_, _, _, _, _) =>
      if IsColumn(c, e) {
        ReadsAtom(c, e, ps, P, rest);
      } else {
        ReadsParam(c, e, ps, P, rest);
      }
    case Const(_, _, _) => ReadsAtom(c, e, ps, P, rest);
    case Param(_, _, _, _) => ReadsParam(c, e, ps, P, rest);
    case ArrayRef(_, _, _, _, _, _) => RoundTripArrayRef(c, e, ps, P, rest);
    case FuncExpr(_, _, _, _, _, _, _) => RoundTripFunc(c, e, ps, P, rest);
    case OpExpr(_, _, _, _, _) => RoundTripOp(c, e, ps, P, rest);
    case DistinctExpr(_, _, _, _, _) => RoundTripDistinct(c, e, ps, P, rest);
    case ScalarArrayOp(_, _, _, _, _) => RoundTripQuantified(c, e, ps, P, rest);
    case BoolExpr(op, _, _) =>
      if op == Not {
        RoundTripUnary(c, e, ps, P, rest);
      } else {
        RoundTripJunction(c, e, ps, P, rest);
      }
    case ArrayExpr(_, _, _) => RoundTripArray(c, e, ps, P, rest);
    case _ => RoundTripUnary(c, e, ps, P, rest);
  }
}
