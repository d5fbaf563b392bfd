/**
 * The syntax tree as the naux-lang parser builds it and the tree-walking
 * evaluator consumes it (parser/parser.rs, runtime/eval.rs): a flat
 * expression type with literal, variable, operator, index and field nodes.
 * The compiler and formatter use a different tree, modelled in module Ast.
 */
module ScriptAst {
  import opened Wrappers
  import LangToken

  datatype BinaryOp = Add | Sub | Mul | Div | Mod | Eq | Ne | Gt | Ge | Lt | Le | And | Or

  datatype UnaryOp = Neg | Not

  datatype Expr =
    | Number(n: real)
    | Bool(b: bool)
    | Text(s: string)
    | List(items: seq<Expr>)
    | Map(entries: seq<(string, Expr)>)
    | Var(name: string)
    | Binary(op: BinaryOp, left: Expr, right: Expr)
    | Unary(uop: UnaryOp, operand: Expr)
    | Index(target: Expr, index: Expr)
    | Field(obj: Expr, field: string)

  datatype ActionKind =
    | Say(value: Expr)
    | Ui(kind: string, props: seq<(string, Expr)>)
    | TextAction(value: Expr)
    | Button(value: Expr)
    | Fetch(value: Expr)
    | Ask(value: Expr)
    | Log(value: Expr)

  datatype Stmt =
    | Rite(body: seq<Stmt>, span: Option<LangToken.Span>)
    | Assign(name: string, expr: Expr, span: Option<LangToken.Span>)
    | If(cond: Expr, thenBlock: seq<Stmt>, elseBlock: seq<Stmt>, span: Option<LangToken.Span>)
    | Loop(count: Expr, body: seq<Stmt>, span: Option<LangToken.Span>)
    | Each(variable: string, iter: Expr, body: seq<Stmt>, span: Option<LangToken.Span>)
    | While(cond: Expr, body: seq<Stmt>, span: Option<LangToken.Span>)
    | Action(action: ActionKind, span: Option<LangToken.Span>)
    | Return(value: Option<Expr>, span: Option<LangToken.Span>)
    | Import(moduleName: string, span: Option<LangToken.Span>)
}
