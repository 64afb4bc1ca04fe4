/**
 * The `deref_pat!` rewrite of the macro crate as pure functions. Each
 * function takes the transformer's state (`St`) before a visit and returns
 * the rewritten node with the state after it, in exactly the order the
 * visitor in `transform.rs` reads and updates its fields. The class in
 * module `Transform` is proved to compute these functions; the lemmas here
 * and in `DesugarFacts` state what the rewrite guarantees.
 */
module Desugar {
  import opened Syntax
  import opened Idents
  import opened Util
  import opened Visit

  /** `Transformer::CRATE_NAME`. */
  const CRATE_NAME: string := "deref_pat"

  /**
   * `Transformer::RESULT`, `concat!("_", env!("CARGO_PKG_NAME"), "_result")`
   * for the package `deref_pat_macro`.
   */
  const RESULT: string := "_deref_pat_macro_result"

  const PAT_DEREF_SEGMENTS: seq<string> := ["PatDeref", "pat_deref"]

  // ---------------------------------------------------------------------------
  // Counting annotations

  /** The number of field patterns carrying `#[deref]` anywhere in `p`. */
  function DerefCount(p: Pat): nat
    decreases p, 1
  {
    match p
    case PIdent(_, _, _, sub) => (match sub case None => 0 case Some(q) => DerefCount(q))
    case PStruct(_, fields) => FieldsDerefCount(fields)
    case PTuple(elems) => PatsDerefCount(elems)
    case PTupleStruct(_, elems) => PatsDerefCount(elems)
    case PPath(_) => 0
    case PLit(_) => 0
    case PWild => 0
  }

  function PatsDerefCount(ps: seq<Pat>): nat
    decreases ps, 0
  {
    if ps == [] then 0 else PatsDerefCount(ps[..|ps| - 1]) + DerefCount(ps[|ps| - 1])
  }

  function FieldDerefCount(f: FieldPat): nat
    decreases f, 2
  {
    DerefCount(f.pat) + (if Annotated(f) then 1 else 0)
  }

  function FieldsDerefCount(fs: seq<FieldPat>): nat
    decreases fs, 0
  {
    if fs == [] then 0 else FieldsDerefCount(fs[..|fs| - 1]) + FieldDerefCount(fs[|fs| - 1])
  }

  // ---------------------------------------------------------------------------
  // The pattern walk

  /**
   * `visit_pat_mut` with the overridden `visit_pat_ident_mut` and
   * `visit_field_pat_mut`: while collecting, every binding is recorded (before
   * its sub-pattern is visited), and every annotated field is rewritten after
   * its own sub-pattern has been walked; otherwise nothing changes.
   */
  function WalkPat(p: Pat, s: St): (w: Walked<Pat>)
    decreases p, 1
    ensures w.st.collect == s.collect
    ensures !s.collect ==> w == Walked(p, s)
    ensures s.collect ==> Extends(s, w.st, DerefCount(p), Names(p))
    ensures DerefCount(p) == 0 ==> w.node == p
  {
    match p
    case PIdent(byRef, mutable, name, sub) => WalkPatIdent(p, s)
    case PStruct(path, fields) =>
      var w := WalkFields(fields, s);
      Walked(PStruct(path, w.node), w.st)
    case PTuple(elems) =>
      var w := WalkPats(elems, s);
      Walked(PTuple(w.node), w.st)
    case PTupleStruct(path, elems) =>
      var w := WalkPats(elems, s);
      Walked(PTupleStruct(path, w.node), w.st)
    case PPath(_) => Walked(p, s)
    case PLit(_) => Walked(p, s)
    case PWild => Walked(p, s)
  }

  /** `visit_pat_ident_mut`: record the name while collecting, then walk the sub-pattern. */
  function WalkPatIdent(p: Pat, s: St): (w: Walked<Pat>)
    requires p.PIdent?
    decreases p, 0
    ensures w.st.collect == s.collect
    ensures !s.collect ==> w == Walked(p, s)
    ensures s.collect ==> Extends(s, w.st, DerefCount(p), Names(p))
    ensures DerefCount(p) == 0 ==> w.node == p
    ensures w.node.PIdent? && w.node.name == p.name
  {
    var s1 := if s.collect then s.(boundIdents := s.boundIdents + [p.name]) else s;
    match p.subpat
    case None => Walked(p, s1)
    case Some(q) =>
      var w := WalkPat(q, s1);
      if s.collect then ExtendsTrans(s, s1, w.st, 0, DerefCount(q), [p.name], Names(q)); Walked(p.(subpat := Some(w.node)), w.st)
      else Walked(p.(subpat := Some(w.node)), w.st)
  }

  function WalkPats(ps: seq<Pat>, s: St): (w: Walked<seq<Pat>>)
    decreases ps, 0
    ensures |w.node| == |ps|
    ensures w.st.collect == s.collect
    ensures !s.collect ==> w == Walked(ps, s)
    ensures s.collect ==> Extends(s, w.st, PatsDerefCount(ps), PatsNames(ps))
    ensures PatsDerefCount(ps) == 0 ==> w.node == ps
  {
    if ps == [] then Walked([], s)
    else
      assert ps == ps[..|ps| - 1] + [ps[|ps| - 1]];
      var w1 := WalkPats(ps[..|ps| - 1], s);
      var w2 := WalkPat(ps[|ps| - 1], w1.st);
      if s.collect then
        ExtendsTrans(s, w1.st, w2.st, PatsDerefCount(ps[..|ps| - 1]), DerefCount(ps[|ps| - 1]),
                     PatsNames(ps[..|ps| - 1]), Names(ps[|ps| - 1]));
        Walked(w1.node + [w2.node], w2.st)
      else Walked(w1.node + [w2.node], w2.st)
  }

  /**
   * `visit_field_pat_mut`: walk the sub-pattern first; then, while
   * collecting, a field carrying `#[deref]` loses its first such attribute,
   * binds the next synthetic name instead, and queues the walked sub-pattern
   * under that name.
   */
  function WalkField(f: FieldPat, s: St): (w: Walked<FieldPat>)
    decreases f, 2
    ensures w.st.collect == s.collect
    ensures !s.collect ==> w == Walked(f, s)
    ensures s.collect ==> Extends(s, w.st, FieldDerefCount(f), Names(f.pat))
    ensures FieldDerefCount(f) == 0 ==> w.node == f
    ensures w.node.member == f.member
  {
    var w1 := WalkPat(f.pat, s);
    var f1 := f.(pat := w1.node);
    if w1.st.collect then
      match DerefPosition(f1.attrs)
      case Some(pos) =>
        var ident := Name(w1.st.count);
        var t := w1.st.(count := w1.st.count + 1, derefPats := w1.st.derefPats + [DerefPat(ident, w1.node)]);
        ExtendsTrans(s, w1.st, t, DerefCount(f.pat), 1, Names(f.pat), []);
        Walked(FieldPat(RemoveAt(f1.attrs, pos), f1.member, PIdent(false, false, ident, None)), t)
      case None =>
        Walked(f1, w1.st)
    else Walked(f1, w1.st)
  }

  function WalkFields(fs: seq<FieldPat>, s: St): (w: Walked<seq<FieldPat>>)
    decreases fs, 0
    ensures |w.node| == |fs|
    ensures w.st.collect == s.collect
    ensures !s.collect ==> w == Walked(fs, s)
    ensures s.collect ==> Extends(s, w.st, FieldsDerefCount(fs), FieldNames(fs))
    ensures FieldsDerefCount(fs) == 0 ==> w.node == fs
  {
    if fs == [] then Walked([], s)
    else
      assert fs == fs[..|fs| - 1] + [fs[|fs| - 1]];
      var w1 := WalkFields(fs[..|fs| - 1], s);
      var w2 := WalkField(fs[|fs| - 1], w1.st);
      if s.collect then
        ExtendsTrans(s, w1.st, w2.st, FieldsDerefCount(fs[..|fs| - 1]), FieldDerefCount(fs[|fs| - 1]),
                     FieldNames(fs[..|fs| - 1]), Names(fs[|fs| - 1].pat));
        Walked(w1.node + [w2.node], w2.st)
      else Walked(w1.node + [w2.node], w2.st)
  }

  /** One more pattern: the walk of a prefix extended by the next element. */
  lemma WalkPatsSnoc(ps: seq<Pat>, i: nat, s: St)
    requires i < |ps|
    ensures var w1 := WalkPats(ps[..i], s);
            var w2 := WalkPat(ps[i], w1.st);
            WalkPats(ps[..i + 1], s) == Walked(w1.node + [w2.node], w2.st)
  {
    assert ps[..i + 1][..i] == ps[..i];
  }

  /** One more field: the walk of a prefix extended by the next field. */
  lemma WalkFieldsSnoc(fs: seq<FieldPat>, i: nat, s: St)
    requires i < |fs|
    ensures var w1 := WalkFields(fs[..i], s);
            var w2 := WalkField(fs[i], w1.st);
            WalkFields(fs[..i + 1], s) == Walked(w1.node + [w2.node], w2.st)
  {
    assert fs[..i + 1][..i] == fs[..i];
  }

  // ---------------------------------------------------------------------------
  // Building the replacement

  /** The references `x1, ..., xn` to the given names. */
  function IdentExprs(names: seq<Ident>): (r: seq<Expr>)
    ensures |r| == |names|
    ensures forall i :: 0 <= i < |names| ==> ExprIdent(r[i]) == Some(names[i])
  {
    seq(|names|, i requires 0 <= i < |names| => IdentIntoExpr(names[i]))
  }

  /** `gen_pat`: `::core::option::Option::Some((x1, ..., xn))` over the recorded identifiers. */
  function GenPat(bound: seq<Ident>): (r: Pat)
    ensures r.PTupleStruct? && r.path == Path(true, SOME_SEGMENTS)
    ensures |r.elems| == 1 && r.elems[0].PTuple? && |r.elems[0].elems| == |bound|
    ensures Names(r) == bound
  {
    BindingPatsNames(bound);
    assert PatsNames([PTuple(BindingPats(bound))]) == PatsNames(BindingPats(bound));
    PTupleStruct(CreatePath(SOME_SEGMENTS, true), [PTuple(BindingPats(bound))])
  }

  /** `create_import`: `use ::crate_name::PatDeref;`. */
  function CreateImport(crateName: string): (r: Stmt)
    ensures r == ItemStmt(Use(true, UsePath(crateName, UseName("PatDeref"))))
  {
    ItemStmt(Use(true, UsePath(CreateIdent(crateName), UseName(CreateIdent("PatDeref")))))
  }

  /** `let mut RESULT = ::core::option::Option::None`. */
  function ResultDecl(): Expr {
    Let(PIdent(false, true, CreateIdent(RESULT), None), PathIntoExpr(CreatePath(NONE_SEGMENTS, true)))
  }

  /** A reference to the result slot, `RESULT`. */
  function ResultRef(): Expr {
    PathIntoExpr(CreatePath([RESULT], false))
  }

  /** `RESULT = ::core::option::Option::Some { 0: (x1, ..., xn) }`, draining the recorded identifiers. */
  function AssignResult(bound: seq<Ident>): Expr {
    Assign(ResultRef(), Struct(CreatePath(SOME_SEGMENTS, true), [FieldValue(Unnamed(0), Tuple(IdentExprs(bound)))]))
  }

  /** `DerefPat::to_expr`: `if let pat = PatDeref::pat_deref(ident) { inner; }`. */
  function DerefPatToExpr(d: DerefPat, inner: Expr): (r: Expr)
    ensures r == If(Let(d.pat, Call(PathExpr(Path(false, ["PatDeref", "pat_deref"])), [PathExpr(Path(false, [d.ident]))])),
                    Block([ExprStmt(inner, true)]), None)
  {
    CreateIfLet(
      d.pat,
      CreateCall(PathIntoExpr(CreatePath(PAT_DEREF_SEGMENTS, false)), [IdentIntoExpr(d.ident)]),
      [IntoSemiStmt(inner)],
      None)
  }

  /** The `while let Some(pat) = self.deref_pats.pop_front()` loop: each step wraps the previous ones. */
  function Chain(queue: seq<DerefPat>, inner: Expr): (r: Expr)
    decreases |queue|
    ensures queue == [] ==> r == inner
    ensures queue != [] ==> r.If? && r.elseBranch.None? && r.cond.Let? && r.cond.pat == queue[|queue| - 1].pat
    ensures queue != [] ==>
              r.cond.scrutinee == Call(PathExpr(Path(false, ["PatDeref", "pat_deref"])), [PathExpr(Path(false, [queue[|queue| - 1].ident]))])
  {
    if queue == [] then inner else Chain(queue[1..], DerefPatToExpr(queue[0], inner))
  }

  /**
   * `gen_expr`: the block that declares the result slot, matches the
   * rewritten pattern against the original input, runs the chain of deref
   * steps inside, and yields the slot. `pop_front().unwrap()` needs a queued step.
   */
  function GenExpr(pat: Pat, input: Expr, bound: seq<Ident>, queue: seq<DerefPat>): (r: Expr)
    requires queue != []
    ensures r.BlockExpr? && |r.block.stmts| == 4
    ensures r.block.stmts[0] == ItemStmt(Use(true, UsePath(CRATE_NAME, UseName("PatDeref"))))
    ensures var top := r.block.stmts[2];
            top.ExprStmt? && top.expr.If? && top.expr.cond == Let(pat, input) && top.expr.elseBranch.None?
    ensures r.block.stmts[3] == ExprStmt(PathExpr(Path(false, [RESULT])), false)
  {
    assert CreatePath([RESULT], false) == Path(false, [RESULT]);
    var useItem := CreateImport(CRATE_NAME);
    var innerIfLet := Chain(queue[1..], DerefPatToExpr(queue[0], AssignResult(bound)));
    var topIfLet := CreateIfLet(pat, input, [IntoSemiStmt(innerIfLet)], None);
    BlockExpr(Block([useItem, IntoSemiStmt(ResultDecl()), IntoSemiStmt(topIfLet), IntoExprStmt(ResultRef())]))
  }

  // ---------------------------------------------------------------------------
  // The expression walk

  /** The state outside any `if let` pattern: not collecting, nothing queued. */
  predicate Quiet(s: St) {
    !s.collect && s.derefPats == []
  }

  /**
   * The `if let` branch of `visit_expr_if_mut`: collect over the pattern
   * with the counter reset; if anything was queued, replace the pattern by
   * `gen_pat` and the input by `gen_expr`, emptying both accumulators;
   * finally restore `collect`. The input expression is not visited.
   */
  function WalkLetGuard(p: Pat, input: Expr, s: St): (w: Walked<Expr>)
    ensures w.node.Let?
    ensures w.st.collect == s.collect
    ensures Quiet(s) ==> Quiet(w.st)
  {
    var wp := WalkPat(p, s.(collect := true, count := 0));
    var t := wp.st;
    if t.derefPats != [] then
      Walked(Let(GenPat(t.boundIdents), GenExpr(wp.node, input, t.boundIdents, t.derefPats)),
             t.(collect := s.collect, derefPats := [], boundIdents := []))
    else
      Walked(Let(wp.node, input), t.(collect := s.collect))
  }

  /** `visit_expr_mut` with the overridden `visit_expr_if_mut`. */
  function WalkExpr(e: Expr, s: St): (w: Walked<Expr>)
    decreases e, 1
    ensures w.node.PathExpr? <==> e.PathExpr?
    ensures e.PathExpr? ==> w.node == e
    ensures w.st.collect == s.collect
    ensures Quiet(s) ==> Quiet(w.st)
  {
    match e
    case If(cond, thenBranch, elseBranch) =>
      var w1 := if cond.Let? then WalkLetGuard(cond.pat, cond.scrutinee, s) else WalkExpr(cond, s);
      var w2 := WalkBlock(thenBranch, w1.st);
      (match elseBranch
       case None => Walked(If(w1.node, w2.node, None), w2.st)
       case Some(x) =>
         var w3 := WalkExpr(x, w2.st);
         Walked(If(w1.node, w2.node, Some(w3.node)), w3.st))
    case Let(p, x) =>
      var w1 := WalkPat(p, s);
      var w2 := WalkExpr(x, w1.st);
      Walked(Let(w1.node, w2.node), w2.st)
    case BlockExpr(b) =>
      var w := WalkBlock(b, s);
      Walked(BlockExpr(w.node), w.st)
    case Call(func, args) =>
      var w1 := WalkExpr(func, s);
      var w2 := WalkExprs(args, w1.st);
      Walked(Call(w1.node, w2.node), w2.st)
    case PathExpr(_) => Walked(e, s)
    case Assign(left, right) =>
      var w1 := WalkExpr(left, s);
      var w2 := WalkExpr(right, w1.st);
      Walked(Assign(w1.node, w2.node), w2.st)
    case Tuple(elems) =>
      var w := WalkExprs(elems, s);
      Walked(Tuple(w.node), w.st)
    case Struct(path, fields) =>
      var w := WalkFieldValues(fields, s);
      Walked(Struct(path, w.node), w.st)
    case Lit(_) => Walked(e, s)
  }

  function WalkExprs(es: seq<Expr>, s: St): (w: Walked<seq<Expr>>)
    decreases es, 0
    ensures |w.node| == |es|
    ensures w.st.collect == s.collect
    ensures Quiet(s) ==> Quiet(w.st)
  {
    if es == [] then Walked([], s)
    else
      var w1 := WalkExprs(es[..|es| - 1], s);
      var w2 := WalkExpr(es[|es| - 1], w1.st);
      Walked(w1.node + [w2.node], w2.st)
  }

  function WalkFieldValues(fs: seq<FieldValue>, s: St): (w: Walked<seq<FieldValue>>)
    decreases fs, 0
    ensures |w.node| == |fs|
    ensures w.st.collect == s.collect
    ensures Quiet(s) ==> Quiet(w.st)
  {
    if fs == [] then Walked([], s)
    else
      var w1 := WalkFieldValues(fs[..|fs| - 1], s);
      var w2 := WalkFieldValue(fs[|fs| - 1], w1.st);
      Walked(w1.node + [w2.node], w2.st)
  }

  function WalkFieldValue(f: FieldValue, s: St): (w: Walked<FieldValue>)
    decreases f, 2
    ensures w.st.collect == s.collect
    ensures Quiet(s) ==> Quiet(w.st)
  {
    var w := WalkExpr(f.expr, s);
    Walked(f.(expr := w.node), w.st)
  }

  /** `visit_block_mut`. */
  function WalkBlock(b: Block, s: St): (w: Walked<Block>)
    decreases b, 1
    ensures w.st.collect == s.collect
    ensures Quiet(s) ==> Quiet(w.st)
  {
    var w := WalkStmts(b.stmts, s);
    Walked(Block(w.node), w.st)
  }

  function WalkStmts(ss: seq<Stmt>, s: St): (w: Walked<seq<Stmt>>)
    decreases ss, 0
    ensures |w.node| == |ss|
    ensures w.st.collect == s.collect
    ensures Quiet(s) ==> Quiet(w.st)
  {
    if ss == [] then Walked([], s)
    else
      var w1 := WalkStmts(ss[..|ss| - 1], s);
      var w2 := WalkStmt(ss[|ss| - 1], w1.st);
      Walked(w1.node + [w2.node], w2.st)
  }

  /** `visit_stmt_mut`: a `let` statement's pattern and initializer, or the expression; items are not entered. */
  function WalkStmt(st: Stmt, s: St): (w: Walked<Stmt>)
    decreases st, 2
    ensures w.st.collect == s.collect
    ensures Quiet(s) ==> Quiet(w.st)
  {
    match st
    case Local(p, init) =>
      var w1 := WalkPat(p, s);
      (match init
       case None => Walked(Local(w1.node, None), w1.st)
       case Some(x) =>
         var w2 := WalkExpr(x, w1.st);
         Walked(Local(w1.node, Some(w2.node)), w2.st))
    case ItemStmt(_) => Walked(st, s)
    case ExprStmt(x, semi) =>
      var w := WalkExpr(x, s);
      Walked(ExprStmt(w.node, semi), w.st)
  }

  /** The counter cannot overflow while the pattern is walked from a reset counter. */
  predicate CountFits(p: Pat) {
    DerefCount(p) <= U64_MAX
  }

  /** No field of the pattern carries `#[deref]`. */
  predicate Unannotated(p: Pat) {
    DerefCount(p) == 0
  }

  lemma PatsDerefCountPrefix(ps: seq<Pat>, i: nat)
    requires i <= |ps|
    ensures PatsDerefCount(ps[..i]) <= PatsDerefCount(ps)
    decreases |ps|
  {
    if i < |ps| {
      PatsDerefCountPrefix(ps[..|ps| - 1], i);
      assert ps[..|ps| - 1][..i] == ps[..i];
    } else {
      assert ps[..i] == ps;
    }
  }

  lemma FieldsDerefCountPrefix(fs: seq<FieldPat>, i: nat)
    requires i <= |fs|
    ensures FieldsDerefCount(fs[..i]) <= FieldsDerefCount(fs)
    decreases |fs|
  {
    if i < |fs| {
      FieldsDerefCountPrefix(fs[..|fs| - 1], i);
      assert fs[..|fs| - 1][..i] == fs[..i];
    } else {
      assert fs[..i] == fs;
    }
  }

  /** `transform`: visit the expression with a fresh `Transformer`. */
  function Transform(e: Expr): Expr {
    WalkExpr(e, INIT).node
  }
}
