/**
 * The subset of Rust's syntax tree (as the `syn` crate represents it) that the
 * `deref_pat!` desugaring reads and builds. Token and punctuation fields,
 * spans, visibility and generic arguments carry no information the rewrite
 * uses and are left out; identifiers are their text.
 */
module Syntax {

  datatype Option<+T> = None | Some(value: T)

  /** An identifier, by its text. */
  type Ident = string

  /** `syn::Path`: an optional leading `::` and its segments, in order. */
  datatype Path = Path(global: bool, segments: seq<Ident>)

  /** An outer attribute `#[path ...]`; `args` are its tokens after the path. */
  datatype Attribute = Attribute(path: Path, args: string)

  /** `syn::Pat`, restricted to the shapes a desugared `if let` can hold. */
  datatype Pat =
    | PIdent(byRef: bool, mutable: bool, name: Ident, subpat: Option<Pat>)  // `ref mut name @ subpat`
    | PStruct(path: Path, fields: seq<FieldPat>)                           // `Path { fields }`
    | PTuple(elems: seq<Pat>)                                              // `(p, q, ...)`
    | PTupleStruct(path: Path, elems: seq<Pat>)                            // `Path(p, q, ...)`
    | PPath(path: Path)                                                    // `Tree::Leaf`
    | PLit(lit: string)                                                    // `"foo"`, `3`
    | PWild                                                                // `_`

  /** `syn::FieldPat`: `#[attrs] member: pat` inside a struct pattern. */
  datatype FieldPat = FieldPat(attrs: seq<Attribute>, member: Ident, pat: Pat)

  /** `syn::Member`: a named field or a tuple index. */
  datatype Member = Named(name: Ident) | Unnamed(index: nat)

  /** `syn::FieldValue`: `member: expr` in a struct literal. */
  datatype FieldValue = FieldValue(member: Member, expr: Expr)

  /** `syn::Expr`, restricted to the forms the desugaring visits or builds. */
  datatype Expr =
    | If(cond: Expr, thenBranch: Block, elseBranch: Option<Expr>)  // `if cond { ... } else ...`
    | Let(pat: Pat, scrutinee: Expr)                                // `let pat = scrutinee` as a condition
    | BlockExpr(block: Block)                                       // `{ stmts }`
    | Call(func: Expr, args: seq<Expr>)                             // `func(args)`
    | PathExpr(path: Path)                                          // `a::b`
    | Assign(left: Expr, right: Expr)                               // `left = right`
    | Tuple(elems: seq<Expr>)                                       // `(a, b)`
    | Struct(path: Path, fields: seq<FieldValue>)                   // `Path { 0: e }`
    | Lit(lit: string)                                              // `true`, `"x"`

  /** `syn::Block`: statements in order. */
  datatype Block = Block(stmts: seq<Stmt>)

  /** `syn::UseTree`, only the path and name forms the desugaring emits. */
  datatype UseTree = UsePath(ident: Ident, tree: UseTree) | UseName(name: Ident)

  /** `syn::Item`: a `use` item, or any other item, which the rewrite never enters. */
  datatype Item = Use(leadingColon: bool, tree: UseTree) | OtherItem(text: string)

  /**
   * `syn::Stmt`: a `let` statement, an item, or an expression statement.
   * `semi` tells `Stmt::Semi` (with trailing `;`) from `Stmt::Expr` (without).
   */
  datatype Stmt =
    | Local(pat: Pat, init: Option<Expr>)
    | ItemStmt(item: Item)
    | ExprStmt(expr: Expr, semi: bool)

  /** The names bound by a pattern, left to right, each binding before its sub-pattern. */
  function Names(p: Pat): seq<Ident>
    decreases p, 1
  {
    match p
    case PIdent(_, _, name, sub) =>
      [name] + (match sub case None => [] case Some(q) => Names(q))
    case PStruct(_, fields) => FieldNames(fields)
    case PTuple(elems) => PatsNames(elems)
    case PTupleStruct(_, elems) => PatsNames(elems)
    case PPath(_) => []
    case PLit(_) => []
    case PWild => []
  }

  function PatsNames(ps: seq<Pat>): seq<Ident>
    decreases ps, 0
  {
    if ps == [] then [] else PatsNames(ps[..|ps| - 1]) + Names(ps[|ps| - 1])
  }

  function FieldNames(fs: seq<FieldPat>): seq<Ident>
    decreases fs, 0
  {
    if fs == [] then [] else FieldNames(fs[..|fs| - 1]) + Names(fs[|fs| - 1].pat)
  }
}
