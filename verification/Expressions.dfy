/**
  The expression nodes that gauss_connector inspects and prints.
 */
module Expressions {

  type Oid = nat

  const INVALID_OID: Oid := 0
  const DEFAULT_COLLATION: Oid := 100
  const SELF_ITEM_POINTER_ATTR := -1
  const OBJECT_ID_ATTR := -2

  datatype CoercionForm = ExplicitCall | ExplicitCast | ImplicitCast

  datatype BoolOp = And | Or | Not

  // One ORDER BY element of an aggregate; `standard` if the operator is the type's own < or >.
  datatype SortOp = SortOp(opno: Oid, standard: bool)

  datatype Expr =
    | Var(varno: nat, levelsup: nat, attno: int, typ: Oid, collid: Oid)
    | Const(text: string, typ: Oid, collid: Oid)
    | Param(id: nat, external: bool, typ: Oid, collid: Oid)
    | ArrayRef(base: Expr, upper: seq<Expr>, lower: seq<Expr>, assigns: bool, typ: Oid, collid: Oid)
    | FuncExpr(funcid: Oid, format: CoercionForm, variadic: bool, args: seq<Expr>, typ: Oid, inputcollid: Oid, collid: Oid)
    | OpExpr(opno: Oid, args: seq<Expr>, typ: Oid, inputcollid: Oid, collid: Oid)
    | DistinctExpr(opno: Oid, args: seq<Expr>, typ: Oid, inputcollid: Oid, collid: Oid)
    | ScalarArrayOp(opno: Oid, useOr: bool, args: seq<Expr>, typ: Oid, inputcollid: Oid)
    | RelabelType(arg: Expr, form: CoercionForm, typ: Oid, collid: Oid)
    | BoolExpr(op: BoolOp, args: seq<Expr>, typ: Oid)
    | NullTest(arg: Expr, isNull: bool, asScalar: bool, typ: Oid)
    | ArrayExpr(elements: seq<Expr>, typ: Oid, collid: Oid)
    | Aggref(aggfnoid: Oid, args: seq<Expr>, order: seq<SortOp>, typ: Oid, inputcollid: Oid, collid: Oid)
    | Unsupported(typ: Oid)

  function Children(e: Expr): seq<Expr> {
    match e
    case ArrayRef(base, upper, lower, _, _, _) => upper + lower + [base]
    case FuncExpr(_, _, _, args, _, _, _) => args
    case OpExpr(_, args, _, _, _) => args
    case DistinctExpr(_, args, _, _, _) => args
    case ScalarArrayOp(_, _, args, _, _) => args
    case RelabelType(arg, _, _, _) => [arg]
    case BoolExpr(_, args, _) => args
    case NullTest(arg, _, _, _) => [arg]
    case ArrayExpr(elements, _, _) => elements
    case Aggref(_, args, _, _, _, _) => args
    case _ => []
  }
}
