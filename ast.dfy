/** The abstract syntax tree: values built once by the parser and only read
    afterwards. Datatypes are trees by construction, so every `Binary` node owns
    its two operands and no node is shared or reachable from itself. */
module Ast {
  import opened StdText

  datatype BinaryOp = Add | Sub | Mul | Div

  datatype Expr =
    | Number(n: I64)
    | Variable(name: string)
    | Binary(left: Expr, op: BinaryOp, right: Expr)

  datatype Stmt =
    | Let(name: string, value: Expr)
    | Return(expr: Expr)

  /** One function: its name, its return type as written, and its statements in
      source order. */
  datatype Function = Function(name: string, returnType: string, body: seq<Stmt>)

  /** The expression a statement carries. */
  function StmtExpr(st: Stmt): Expr {
    match st
    case Let(_, value) => value
    case Return(e) => e
  }

  function BinaryCount(e: Expr): nat {
    match e
    case Number(_) => 0
    case Variable(_) => 0
    case Binary(l, _, r) => BinaryCount(l) + 1 + BinaryCount(r)
  }

  /** Every variable of `e` has a name satisfying `ok`. */
  predicate VariablesSatisfy(e: Expr, ok: string -> bool) {
    match e
    case Number(_) => true
    case Variable(x) => ok(x)
    case Binary(l, _, r) => VariablesSatisfy(l, ok) && VariablesSatisfy(r, ok)
  }

  /** Every name in `f` (its own, its return type, each `let` and each variable)
      satisfies `ok`. */
  predicate NamesSatisfy(f: Function, ok: string -> bool) {
    && ok(f.name) && ok(f.returnType)
    && forall i :: 0 <= i < |f.body| ==>
         (f.body[i].Let? ==> ok(f.body[i].name)) && VariablesSatisfy(StmtExpr(f.body[i]), ok)
  }
}
