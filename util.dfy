/**
 * Builders for the syntax nodes the desugaring emits (the macro crate's
 * `util` module; the prototype's `util` module has the same `create_ident`
 * and `create_path`). Each builder is total and keeps its arguments, in order.
 */
module Util {
  import opened Syntax

  /** `create_ident`: an identifier with the given text (its mixed-site span is not modelled). */
  function CreateIdent(name: string): (r: Ident)
    ensures |r| == |name| && forall i :: 0 <= i < |r| ==> r[i] == name[i]
  {
    name
  }

  /** `create_path`: one segment per string, in order; a leading `::` exactly when `global`. */
  function CreatePath(segments: seq<string>, global: bool): (r: Path)
    ensures r.global <==> global
    ensures |r.segments| == |segments|
    ensures forall i :: 0 <= i < |segments| ==> r.segments[i] == CreateIdent(segments[i])
  {
    Path(global, seq(|segments|, i requires 0 <= i < |segments| => CreateIdent(segments[i])))
  }

  /** `create_if_let`: `if let pat = input { body } [else elseBranch]`. */
  function CreateIfLet(pat: Pat, input: Expr, body: seq<Stmt>, elseBranch: Option<Expr>): (r: Expr)
    ensures r.If? && r.cond.Let? && r.cond.pat == pat && r.cond.scrutinee == input
    ensures r.thenBranch.stmts == body
    ensures r.elseBranch.Some? <==> elseBranch.Some?
    ensures elseBranch.Some? ==> r.elseBranch.value == elseBranch.value
  {
    If(Let(pat, input), Block(body), elseBranch)
  }

  /** `create_call`: `func(args...)`. */
  function CreateCall(func: Expr, args: seq<Expr>): (r: Expr)
    ensures r.Call? && r.func == func && r.args == args
  {
    Call(func, args)
  }

  /** `Ident::into_path`: the relative path with the identifier as its only segment. */
  function IdentIntoPath(id: Ident): (r: Path)
    ensures !r.global && r.segments == [id]
  {
    Path(false, [id])
  }

  /** `Path::into_expr`: the path as an expression (no qualified self type). */
  function PathIntoExpr(p: Path): (r: Expr)
    ensures r.PathExpr? && r.path == p
  {
    PathExpr(p)
  }

  /** `Ident::into_expr`: a reference to a local name. */
  function IdentIntoExpr(id: Ident): (r: Expr)
    ensures r.PathExpr? && !r.path.global && r.path.segments == [id]
    ensures ExprIdent(r) == Some(id)
  {
    PathIntoExpr(IdentIntoPath(id))
  }

  /** The local name an expression refers to, if it is a bare one-segment path; inverse of `IdentIntoExpr`. */
  function ExprIdent(e: Expr): (r: Option<Ident>)
    ensures r.Some? <==> e.PathExpr? && !e.path.global && |e.path.segments| == 1
    ensures r.Some? ==> e == PathExpr(Path(false, [r.value]))
  {
    if e.PathExpr? && !e.path.global && |e.path.segments| == 1 then Some(e.path.segments[0]) else None
  }

  /** `Expr::into_semi_stmt`: `expr;`. */
  function IntoSemiStmt(e: Expr): (r: Stmt)
    ensures r.ExprStmt? && r.expr == e && r.semi
  {
    ExprStmt(e, true)
  }

  /** `Expr::into_expr_stmt`: `expr` as a block's trailing expression. */
  function IntoExprStmt(e: Expr): (r: Stmt)
    ensures r.ExprStmt? && r.expr == e && !r.semi
  {
    ExprStmt(e, false)
  }

  /** The two statement forms wrap the same expression and differ only in the semicolon. */
  lemma StmtFormsDifferOnlyInSemicolon(e: Expr)
    ensures IntoSemiStmt(e).expr == IntoExprStmt(e).expr == e
    ensures IntoSemiStmt(e) != IntoExprStmt(e)
    ensures IntoSemiStmt(e) == IntoExprStmt(e).(semi := true)
  {
  }
}
