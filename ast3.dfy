/**
 * The syntax tree of the third generation (src3/ast.ts), which the parser builds and the
 * evaluator walks.
 */
module Ast3 {

  /**
   * The node union of src3/ast.ts:4-35, one variant per `type` tag. A JavaScript number
   * is kept as an exact `real`: the model follows values, not double rounding.
   */
  datatype Ast =
    | Integer(value: real)
    | Float(value: real)
    | Str(text: string)
    | Array(items: seq<Ast>)
    | Symbol(name: string)
    | List(items: seq<Ast>)
}
