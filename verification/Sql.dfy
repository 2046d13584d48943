/** The parsed WHERE condition (src/sql.h). */
module Sql {
  import Soql

  datatype LitKind = NullLit | StringLit | NumberLit | BoolLit | DateLit | TimeLit | TimestampLit

  datatype Lit = Lit(kind: LitKind, text: string)

  const NULL := Lit(NullLit, "")

  datatype Operand = Column(path: seq<string>) | Literal(lit: Lit) | Param(index: nat)

  datatype Expr =
    | And(left: Expr, right: Expr)
    | Or(left: Expr, right: Expr)
    | Not(arg: Expr)
    | Compare(op: Soql.CmpOp, a: Operand, b: Operand)
    | In(a: Operand, list: seq<Operand>, negated: bool)
    | Like(a: Operand, b: Operand, negated: bool)
    | IsNull(a: Operand, negated: bool)
}
