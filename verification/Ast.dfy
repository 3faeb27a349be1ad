/** The expressions of the SQL layer. */
module Ast {
  datatype BinaryOperator =
    | Equal | NotEqual
    | GreaterThan | GreaterThanOrEqual
    | LessThan | LessThanOrEqual
    | And | Or

  datatype AggregateFunction = Count | Min | Max | Sum | Avg

  datatype Expr =
    | Identifier(name: string)
    | Wildcard
    | Number(number: int)
    | Text(text: string)
    | Aggregate(kind: AggregateFunction, argument: Expr)
    | Binary(left: Expr, op: BinaryOperator, right: Expr)
}
