/**
  The limit of the round trip: which printed expressions the reader of Reparse
  does not give back.
 */
module RoundTripLimit {
  import opened Expressions
  import opened Deparse
  import opened Reparse
  import opened RoundTrip

  function Parts(x: Sql): seq<Sql> {
    match x
    case Subscript(base, _, subs) => [base] + subs
    case Element(at) => [at]
    case Slice(from, to) => [from, to]
    case Call(_, _, args) => args
    case Cast(arg, _) => [arg]
    case Prefix(_, arg) => [arg]
    case Postfix(_, arg) => [arg]
    case Infix(_, left, right) => [left, right]
    case IsDistinct(left, right) => [left, right]
    case Quantified(_, _, left, right) => [left, right]
    case Negation(arg) => [arg]
    case Junction(_, args) => args
    case NullCheck(arg, _, _) => [arg]
    case ArrayOf(elements, _) => elements
    case Group(arg) => [arg]
    case _ => []
  }

  // Only a column is ever subscripted without parentheses.
  ghost predicate Strict(x: Sql) {
    && (x.Subscript? && x.bare ==> x.base.Col?)
    && (forall y | y in Parts(x) :: Strict(y))
  }

  ghost predicate AllStrict(xs: seq<Sql>) {
    forall x | x in xs :: Strict(x)
  }

  lemma {:induction false} CastsAreStrict(x: Sql, ts: seq<Token>)
    requires Strict(x) && ParseCasts(x, ts).Got?
    ensures Strict(ParseCasts(x, ts).value)
    decreases |ts|
  {
    if ts != [] && ts[0].CastTo? {
      assert Parts(Cast(x, ts[0].typ)) == [x];
      CastsAreStrict(Cast(x, ts[0].typ), ts[1..]);
    }
  }

  // What a parse result holds is strict.
  ghost predicate StrictResult(r: Parsed<Sql>) {
    r.Got? ==> Strict(r.value)
  }

  ghost predicate StrictItems(r: Parsed<Items>) {
    r.Got? ==> AllStrict(r.value.list)
  }

  ghost predicate StrictList(r: Parsed<seq<Sql>>) {
    r.Got? ==> AllStrict(r.value)
  }

  lemma {:induction false} ExprIsStrict(P: seq<Expr>, ts: seq<Token>)
    ensures StrictResult(ParseExpr(P, ts)) && StrictResult(ParsePlain(P, ts))
    decreases |ts|, 2
  {
    hide ParsePrimary, Strict;
    PrimaryIsStrict(P, ts);
    var p := ParsePrimary(P, ts);
    if p.Got? && ParseCasts(p.value, p.rest).Got? {
      CastsAreStrict(p.value, p.rest);
    }
  }

  lemma {:induction false} PrimaryIsStrict(P: seq<Expr>, ts: seq<Token>)
    ensures StrictResult(ParsePrimary(P, ts))
    decreases |ts|, 1
  {
    hide ParseItems, ParseParen;
    if ts != [] {
      match ts[0]
      case FuncName(_) =>
        if |ts| >= 2 {
          ItemsAreStrict(P, ts[2..], RPar);
        }
      case KwArray =>
        if |ts| >= 2 {
          ItemsAreStrict(P, ts[2..], RBrk);
        }
      case LPar => ParenIsStrict(P, ts[1..]);
      case _ =>
    }
  }

  lemma {:induction false} ItemsAreStrict(P: seq<Expr>, ts: seq<Token>, close: Token)
    ensures StrictItems(ParseItems(P, ts, close))
    decreases |ts|, 5
  {
    hide ParseSome;
    SomeAreStrict(P, ts, Comma, close);
  }

  lemma {:induction false} SomeAreStrict(P: seq<Expr>, ts: seq<Token>, sep: Token, close: Token)
    ensures StrictItems(ParseSome(P, ts, sep, close))
    decreases |ts|, 4
  {
    hide ParsePlain, ParseRest, Strict;
    if StartsWith(ts, Variadic) {
      ExprIsStrict(P, ts[1..]);
    } else {
      ExprIsStrict(P, ts);
      var first := ParsePlain(P, ts);
      if first.Got? {
        RestIsStrict(P, first.rest, sep, close);
      }
    }
  }

  lemma {:induction false} RestIsStrict(P: seq<Expr>, ts: seq<Token>, sep: Token, close: Token)
    ensures StrictItems(ParseRest(P, ts, sep, close))
    decreases |ts|, 5
  {
    hide ParseSome;
    if StartsWith(ts, sep) {
      SomeAreStrict(P, ts[1..], sep, close);
    }
  }

  lemma {:induction false} ParenIsStrict(P: seq<Expr>, ts: seq<Token>)
    ensures StrictResult(ParseParen(P, ts))
    decreases |ts|, 4
  {
    hide ParsePlain, ParseExpr, FinishSubscript, Continue;
    if ts != [] {
      ExprIsStrict(P, ts);
      ExprIsStrict(P, ts[1..]);
      var h := ParseExpr(P, ts);
      if h.Got? && h.rest != [] {
        if h.rest[0] == LBrk {
          if h.value.Col? {
            SubscriptIsStrict(P, h.value, true, h.rest);
          } else if h.value.Group? {
            SubscriptIsStrict(P, h.value.arg, false, h.rest);
          }
        } else {
          ContinueIsStrict(P, h.value, h.rest);
        }
      }
    }
  }

  lemma {:induction false} SubscriptIsStrict(P: seq<Expr>, base: Sql, bare: bool, ts: seq<Token>)
    requires Strict(base) && (bare ==> base.Col?)
    ensures StrictResult(FinishSubscript(P, base, bare, ts))
    decreases |ts|, 6
  {
    hide ParseSubs;
    SubsAreStrict(P, ts);
  }

  lemma {:induction false} SubsAreStrict(P: seq<Expr>, ts: seq<Token>)
    ensures StrictList(ParseSubs(P, ts))
    decreases |ts|, 5
  {
    hide ParsePlain;
    if StartsWith(ts, LBrk) {
      ExprIsStrict(P, ts[1..]);
      var a := ParsePlain(P, ts[1..]);
      if a.Got? && StartsWith(a.rest, Colon) {
        ExprIsStrict(P, a.rest[1..]);
        var u := Expect(ParsePlain(P, a.rest[1..]), RBrk);
        if u.Got? {
          SubsAreStrict(P, u.rest);
          BoundsAreStrict(a.value, u.value);
        }
      } else if a.Got? {
        var u := Expect(a, RBrk);
        if u.Got? {
          SubsAreStrict(P, u.rest);
          BoundsAreStrict(u.value, u.value);
        }
      }
    }
  }

  lemma BoundsAreStrict(l: Sql, u: Sql)
    requires Strict(l) && Strict(u)
    ensures Strict(Element(u)) && Strict(Slice(l, u))
  {
  }

  // Every form the parser builds from an operand, and from two.
  lemma FormsAreStrict(a: Sql, b: Sql, opno: Oid, flag: bool, other: bool)
    requires Strict(a) && Strict(b)
    ensures Strict(Postfix(opno, a)) && Strict(Group(a)) && Strict(NullCheck(a, flag, other))
    ensures Strict(Infix(opno, a, b)) && Strict(IsDistinct(a, b)) && Strict(Quantified(opno, flag, a, b))
  {
    assert Parts(Infix(opno, a, b)) == Parts(IsDistinct(a, b)) == Parts(Quantified(opno, flag, a, b)) == [a, b];
  }

  lemma JunctionIsStrict(h: Sql, list: seq<Sql>, isAnd: bool)
    requires Strict(h) && AllStrict(list)
    ensures Strict(Junction(isAnd, [h] + list))
  {
  }

  lemma {:induction false} ContinueIsStrict(P: seq<Expr>, h: Sql, ts: seq<Token>)
    requires ts != [] && Strict(h)
    ensures StrictResult(Continue(P, h, ts))
    decreases |ts|, 7
  {
    hide ParsePlain, ParseRest, ContinueOperator, Strict, AllStrict;
    match ts[0]
    case RPar => FormsAreStrict(h, h, 0, true, true);
    case OperName(opno) => OperatorIsStrict(P, h, opno, ts[1..]);
    case IsNull => FormsAreStrict(h, h, 0, true, false);
    case IsNotNull => FormsAreStrict(h, h, 0, false, false);
    case IsDistinctFrom =>
      FormsAreStrict(h, h, 0, false, true);
      ExprIsStrict(P, ts[1..]);
      var b := ParsePlain(P, ts[1..]);
      if b.Got? {
        FormsAreStrict(h, b.value, 0, true, true);
      }
    case IsNotDistinctFrom => FormsAreStrict(h, h, 0, true, true);
    case KwAnd => FinishedJunctionIsStrict(P, h, true, ts);
    case KwOr => FinishedJunctionIsStrict(P, h, false, ts);
    case _ =>
  }

  lemma {:induction false} FinishedJunctionIsStrict(P: seq<Expr>, h: Sql, isAnd: bool, ts: seq<Token>)
    requires Strict(h)
    ensures StrictResult(FinishJunction(P, h, isAnd, ts))
    decreases |ts|, 6
  {
    hide ParseRest, Strict, AllStrict;
    var sep := if isAnd then KwAnd else KwOr;
    RestIsStrict(P, ts, sep, RPar);
    var more := ParseRest(P, ts, sep, RPar);
    if more.Got? {
      JunctionIsStrict(h, more.value.list, isAnd);
    }
  }

  lemma {:induction false} OperatorIsStrict(P: seq<Expr>, h: Sql, opno: Oid, ts: seq<Token>)
    requires Strict(h)
    ensures StrictResult(ContinueOperator(P, h, opno, ts))
    decreases |ts|, 4
  {
    hide ParsePlain, Strict;
    FormsAreStrict(h, h, opno, true, true);
    if StartsWith(ts, KwAny) || StartsWith(ts, KwAll) {
      if |ts| >= 2 {
        ExprIsStrict(P, ts[2..]);
        var b := ParsePlain(P, ts[2..]);
        if b.Got? {
          FormsAreStrict(h, b.value, opno, ts[0] == KwAny, true);
        }
      }
    } else {
      ExprIsStrict(P, ts);
      var b := ParsePlain(P, ts);
      if b.Got? {
        FormsAreStrict(h, b.value, opno, true, true);
      }
    }
  }

  /* The shape of an expression with a bare subscripted parameter is not strict */

  lemma SubscriptShape(c: Catalog, e: Expr, a: Expr)
    requires e.ArrayRef? && Printable(c, e) && a in Children(e) && Strict(Shape(c, e))
    ensures Printable(c, a) && Strict(Shape(c, a))
  {
    if a == e.base {
      assert Shape(c, e.base) in Parts(Shape(c, e));
    } else if a in e.upper {
      var k :| 0 <= k < |e.upper| && e.upper[k] == a;
      SubOf(c, e, 0, k);
    } else {
      assert a in e.lower;
      var k :| 0 <= k < |e.lower| && e.lower[k] == a;
      SubOf(c, e, 0, k);
    }
  }

  // Nodes whose arguments become a list of parts.
  // a is meant by e itself, or by a part of it.
  ghost predicate IsPart(c: Catalog, e: Expr, a: Expr)
    requires Printable(c, e)
  {
    Printable(c, a) && (Shape(c, a) == Shape(c, e) || Shape(c, a) in Parts(Shape(c, e)))
  }

  lemma CallShape(c: Catalog, e: Expr, a: Expr)
    requires e.FuncExpr? && Printable(c, e) && a in Visible(e)
    ensures IsPart(c, e, a)
  {
    assert a in Children(e);
    if e.format == ExplicitCall {
      ShapeOf(c, e.args, a);
    }
  }

  lemma LogicShape(c: Catalog, e: Expr, a: Expr)
    requires e.BoolExpr? && Printable(c, e) && a in Visible(e)
    ensures IsPart(c, e, a)
  {
    assert a in Children(e);
    if e.op != Not {
      ShapeOf(c, e.args, a);
    }
  }

  lemma ArrayShape(c: Catalog, e: Expr, a: Expr)
    requires e.ArrayExpr? && Printable(c, e) && a in Visible(e)
    ensures IsPart(c, e, a)
  {
    assert a in Children(e);
    ShapeOf(c, e.elements, a);
  }

  lemma ListShape(c: Catalog, e: Expr, a: Expr)
    requires e.FuncExpr? || e.BoolExpr? || e.ArrayExpr?
    requires Printable(c, e) && a in Visible(e)
    ensures IsPart(c, e, a)
  {
    hide Shape, Parts, Printable, Visible;
    if e.FuncExpr? {
      CallShape(c, e, a);
    } else if e.BoolExpr? {
      LogicShape(c, e, a);
    } else {
      ArrayShape(c, e, a);
    }
  }

  lemma OperatorShape(c: Catalog, e: Expr, a: Expr)
    requires e.OpExpr? && Printable(c, e) && a in Children(e)
    ensures IsPart(c, e, a)
  {
  }

  lemma OperandShape(c: Catalog, e: Expr, a: Expr)
    requires e.OpExpr? || e.DistinctExpr? || e.ScalarArrayOp? || e.RelabelType? || e.NullTest?
    requires Printable(c, e) && a in Children(e)
    ensures IsPart(c, e, a)
  {
    if e.OpExpr? {
      OperatorShape(c, e, a);
    }
  }

  lemma ShapeKeepsVisible(c: Catalog, e: Expr, a: Expr)
    requires Printable(c, e) && a in Visible(e) && Strict(Shape(c, e))
    ensures Printable(c, a) && Strict(Shape(c, a))
  {
    hide Shape;
    assert a in Children(e);
    if e.ArrayRef? {
      SubscriptShape(c, e, a);
    } else if e.FuncExpr? || e.BoolExpr? || e.ArrayExpr? {
      ListShape(c, e, a);
    } else if e.OpExpr? || e.DistinctExpr? || e.ScalarArrayOp? || e.RelabelType? || e.NullTest? {
      OperandShape(c, e, a);
    }
  }

  lemma {:induction false} ShapeOf(c: Catalog, es: seq<Expr>, a: Expr)
    requires AllPrintable(c, es) && a in es
    ensures Shape(c, a) in Shapes(c, es)
    decreases |es|
  {
    hide Shape;
    if a != es[0] {
      ShapeOf(c, es[1..], a);
    }
  }

  lemma {:induction false} SubOf(c: Catalog, e: Expr, from: nat, k: nat)
    requires e.ArrayRef? && Printable(c, e) && from <= k < |e.upper|
    requires AllStrict(ShapeSubs(c, e, from)) || Strict(Shape(c, e))
    requires from > 0 ==> AllStrict(ShapeSubs(c, e, from))
    ensures Printable(c, e.upper[k]) && Strict(Shape(c, e.upper[k]))
    ensures k < |e.lower| ==> Printable(c, e.lower[k]) && Strict(Shape(c, e.lower[k]))
    decreases k - from
  {
    assert AllStrict(ShapeSubs(c, e, from)) by {
      if from == 0 && Strict(Shape(c, e)) {
        assert forall s | s in ShapeSubs(c, e, 0) :: s in Parts(Shape(c, e));
      }
    }
    KthUpper(c, e, from);
    hide Shape, ShapeSubs;
    assert e.upper[k] in Children(e);
    assert k < |e.lower| ==> e.lower[k] in Children(e);
    if from == k {
      var s := if k < |e.lower| then Slice(Shape(c, e.lower[k]), Shape(c, e.upper[k])) else Element(Shape(c, e.upper[k]));
      assert s in ShapeSubs(c, e, k);
      assert Shape(c, e.upper[k]) in Parts(s);
      assert k < |e.lower| ==> Shape(c, e.lower[k]) in Parts(s);
    } else {
      SubOf(c, e, from + 1, k);
    }
  }

  lemma {:induction false} StrictShapeIsClean(c: Catalog, e: Expr)
    requires Printable(c, e) && Strict(Shape(c, e))
    ensures NoBareParamSubscript(c, e)
    decreases e
  {
    forall a | a in Visible(e)
      ensures NoBareParamSubscript(c, a)
    {
      ShapeKeepsVisible(c, e, a);
      assert a in Children(e);
      StrictShapeIsClean(c, a);
    }
    if e.ArrayRef? && e.base.Var? {
      assert Shape(c, e) == Subscript(Shape(c, e.base), true, ShapeSubs(c, e, 0));
    }
  }

  // For every printable expression and every parameter list to start from: reading the printed tokens
  // against the final parameter list gives back the tree that was meant, exactly if no subscript is
  // applied directly to a Var of another relation. Such a Var prints as a cast, and the bracket behind
  // a cast belongs to the type name.
  lemma PrintedIsReadBackExactlyWhen(c: Catalog, e: Expr, ps: seq<Expr>)
    requires Printable(c, e)
    ensures ParsePlain(Print(c, e, ps).params, Print(c, e, ps).toks) == Got(Shape(c, e), []) <==> NoBareParamSubscript(c, e)
  {
    var out := Print(c, e, ps);
    hide Print, Shape, ParsePlain;
    assert out.toks + [] == out.toks;
    if NoBareParamSubscript(c, e) {
      PrintedReadsBack(c, e, ps, out.params, []);
      ReadsPlain(c, e, ps, out.params, []);
    }
    if ParsePlain(out.params, out.toks) == Got(Shape(c, e), []) {
      ExprIsStrict(out.params, out.toks);
      StrictShapeIsClean(c, e);
    }
  }

  // A subscripted Var of another relation is not read back.
  lemma BareParamSubscriptExample(c: Catalog, typ: Oid)
    requires 7 !in c.relids
    ensures var e := ArrayRef(Var(7, 0, 1, typ, 0), [Const("1", 23, 0)], [], false, typ, 0);
            && Printable(c, e)
            && Print(c, e, []).toks == [LPar, Dollar(1), CastTo(typ), LBrk, Literal("1", 23), RBrk, RPar]
            && ParsePlain(Print(c, e, []).params, Print(c, e, []).toks) != Got(Shape(c, e), [])
  {
    var v, k := Var(7, 0, 1, typ, 0), Const("1", 23, 0);
    var e := ArrayRef(v, [k], [], false, typ, 0);
    assert Children(e) == [k, v];
    assert Printable(c, v) && Printable(c, k);
    assert Printable(c, e);
    assert Print(c, v, []) == Out([Dollar(1), CastTo(typ)], [v]);
    assert PrintSubs(c, e, 1, [v]) == Out([], [v]);
    assert PrintSubs(c, e, 0, [v]).toks == [LBrk, Literal("1", 23), RBrk];
    assert Print(c, e, []).toks == [LPar] + [Dollar(1), CastTo(typ)] + [LBrk, Literal("1", 23), RBrk] + [RPar];
    PrintedIsReadBackExactlyWhen(c, e, []);
  }
}
