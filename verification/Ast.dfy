/** Cypher expressions (src/cypher/ast.rs), spans left out.  The source's ten two-operand variants
    (arithmetic, comparison, boolean, string, IN, regex) are one constructor here, `Infix`. */
module Ast {
  import opened Frames

  datatype Literal =
    | NullLit
    | Bool(b: bool)
    | Int(i: int)
    | Float(f: real)
    | Text(s: string)
    | Date(s: string)
    | Time(s: string)
    | LocalTime(s: string)
    | DateTime(s: string)
    | LocalDateTime(s: string)
    | Duration(s: string)

  datatype InfixOp =
    | Or | Xor | And
    | Eq | Ne | Lt | Le | Gt | Ge
    | In | Contains | StartsWith | EndsWith
    | Add | Sub | Mul | Div | Mod | Pow
    | Regex

  datatype QuantifierKind = All | Any | NoneOf | Single

  datatype UnaryOp = Negate | Complement

  datatype Expr =
    | Lit(literal: Literal)
    | Var(name: string)
    | Param(name: string)
    | Prop(base: Expr, key: string)
    | Index(base: Expr, index: Expr)
    | Slice(base: Expr, from: Option<Expr>, to: Option<Expr>)
    | Infix(op: InfixOp, left: Expr, right: Expr)
    | Unary(unary: UnaryOp, operand: Expr)
    | Not(operand: Expr)
    | IsNull(operand: Expr)
    | IsNotNull(operand: Expr)
    | ListOf(items: seq<Expr>)
    | MapOf(entries: seq<(string, Expr)>)
    | Call(name: string, args: seq<Expr>, distinct: bool)
    | Wildcard
    | Case(subject: Option<Expr>, alternatives: seq<(Expr, Expr)>, default: Option<Expr>)
    | Comprehension(variable: string, source: Expr, filter: Option<Expr>, projection: Option<Expr>)
    | PatternComprehension(pathVariable: Option<string>, filter: Option<Expr>, result: Expr)
    | Reduce(accumulator: string, init: Expr, variable: string, source: Expr, body: Expr)
    | Quantifier(kind: QuantifierKind, variable: string, source: Expr, condition: Expr)
    | Exists
}
