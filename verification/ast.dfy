/**
 * The syntax tree of ast.rs, used by the bytecode compiler and the
 * formatter: every expression carries a kind and an optional span, and the
 * statement set includes function definitions and unsafe blocks.
 */
module Ast {
  import opened Wrappers

  datatype Span = Span(line: nat, column: nat)

  datatype BinaryOp = Add | Sub | Mul | Div | Mod | Eq | Ne | Gt | Ge | Lt | Le | And | Or

  datatype UnaryOp = Neg | Not

  datatype Expr = Expr(kind: ExprKind, span: Option<Span>)

  datatype ExprKind =
    | Number(n: real)
    | Bool(b: bool)
    | Text(s: string)
    | List(items: seq<Expr>)
    | Map(entries: seq<(string, Expr)>)
    | Var(name: string)
    | Call(callee: Expr, args: seq<Expr>)
    | Binary(op: BinaryOp, left: Expr, right: Expr)
    | Unary(uop: UnaryOp, operand: Expr)
    | Index(target: Expr, index: Expr)
    | Field(obj: Expr, field: string)

  datatype ActionKind =
    | Say(value: Expr)
    | Ui(kind: string, props: seq<(string, Expr)>)
    | TextAction(value: Expr)
    | Button(value: Expr)
    | Fetch(value: Expr)
    | Ask(value: Expr)
    | Log(value: Expr)

  datatype Stmt =
    | Rite(body: seq<Stmt>, span: Option<Span>)
    | Unsafe(body: seq<Stmt>, span: Option<Span>)
    | FnDef(name: string, params: seq<string>, body: seq<Stmt>, span: Option<Span>)
    | Assign(name: string, expr: Expr, span: Option<Span>)
    | If(cond: Expr, thenBlock: seq<Stmt>, elseBlock: seq<Stmt>, span: Option<Span>)
    | Loop(count: Expr, body: seq<Stmt>, span: Option<Span>)
    | Each(variable: string, iter: Expr, body: seq<Stmt>, span: Option<Span>)
    | While(cond: Expr, body: seq<Stmt>, span: Option<Span>)
    | Action(action: ActionKind, span: Option<Span>)
    | Return(value: Option<Expr>, span: Option<Span>)
    | Import(moduleName: string, span: Option<Span>)
}
