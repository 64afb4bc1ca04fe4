/**
 * The prototype's rewrite (the crate's first `transform` module) as pure
 * functions over the same visitor state as the macro's. It differs from the
 * macro crate's rewrite in four ways: a `#[deref]` field is rewritten
 * before its sub-pattern would be visited, so the displaced pattern is
 * never walked (its bindings and nested annotations stay as they are, and
 * the synthetic name is what gets recorded); `gen_pat` puts the recorded
 * names directly into `Some(...)`; `gen_expr` drops the input and yields
 * `None`; and the queued steps are never consumed.
 */
module ProtoDesugar {
  import opened Syntax
  import opened Idents
  import opened Util
  import opened Visit

  /** `Transformer::RESULT` of the prototype. */
  const RESULT: string := "deref_pat_result"

  // ---------------------------------------------------------------------------
  // Counting the annotations the prototype reaches

  /** The `#[deref]` fields a pre-order walk reaches: one inside a displaced pattern is not reached. */
  function DerefCount(p: Pat): nat
    decreases p, 1
  {
    match p
    case PIdent(_, _, _, sub) => (match sub case None => 0 case Some(q) => DerefCount(q))
    case PStruct(_, fields) => FieldsDerefCount(fields)
    case PTuple(elems) => PatsDerefCount(elems)
    case PTupleStruct(_, elems) => PatsDerefCount(elems)
    case PPath(_) => 0
    case PLit(_) => 0
    case PWild => 0
  }

  function PatsDerefCount(ps: seq<Pat>): nat
    decreases ps, 0
  {
    if ps == [] then 0 else PatsDerefCount(ps[..|ps| - 1]) + DerefCount(ps[|ps| - 1])
  }

  function FieldDerefCount(f: FieldPat): nat
    decreases f, 2
  {
    if Annotated(f) then 1 else DerefCount(f.pat)
  }

  function FieldsDerefCount(fs: seq<FieldPat>): nat
    decreases fs, 0
  {
    if fs == [] then 0 else FieldsDerefCount(fs[..|fs| - 1]) + FieldDerefCount(fs[|fs| - 1])
  }

  // ---------------------------------------------------------------------------
  // The pattern walk

  /**
   * `visit_pat_mut` with the prototype's overrides: while collecting, every
   * binding the walk reaches is recorded, so the recorded identifiers are
   * exactly the bindings of the rewritten pattern; otherwise nothing changes.
   */
  function WalkPat(p: Pat, s: St): (w: Walked<Pat>)
    decreases p, 1
    ensures w.st.collect == s.collect
    ensures !s.collect ==> w == Walked(p, s)
    ensures s.collect ==> Extends(s, w.st, DerefCount(p), Names(w.node))
    ensures DerefCount(p) == 0 ==> w.node == p
  {
    match p
    case PIdent(byRef, mutable, name, sub) => WalkPatIdent(p, s)
    case PStruct(path, fields) =>
      var w := WalkFields(fields, s);
      Walked(PStruct(path, w.node), w.st)
    case PTuple(elems) =>
      var w := WalkPats(elems, s);
      Walked(PTuple(w.node), w.st)
    case PTupleStruct(path, elems) =>
      var w := WalkPats(elems, s);
      Walked(PTupleStruct(path, w.node), w.st)
    case PPath(_) => Walked(p, s)
    case PLit(_) => Walked(p, s)
    case PWild => Walked(p, s)
  }

  /** `visit_pat_ident_mut`: record the name while collecting; the sub-pattern is visited either way. */
  function WalkPatIdent(p: Pat, s: St): (w: Walked<Pat>)
    requires p.PIdent?
    decreases p, 0
    ensures w.st.collect == s.collect
    ensures !s.collect ==> w == Walked(p, s)
    ensures s.collect ==> Extends(s, w.st, DerefCount(p), Names(w.node))
    ensures DerefCount(p) == 0 ==> w.node == p
    ensures w.node.PIdent? && w.node.name == p.name
  {
    var s1 := if s.collect then s.(boundIdents := s.boundIdents + [p.name]) else s;
    match p.subpat
    case None => Walked(p, s1)
    case Some(q) =>
      var w := WalkPat(q, s1);
      if s.collect then ExtendsTrans(s, s1, w.st, 0, DerefCount(q), [p.name], Names(w.node)); Walked(p.(subpat := Some(w.node)), w.st)
      else Walked(p.(subpat := Some(w.node)), w.st)
  }

  function WalkPats(ps: seq<Pat>, s: St): (w: Walked<seq<Pat>>)
    decreases ps, 0
    ensures |w.node| == |ps|
    ensures w.st.collect == s.collect
    ensures !s.collect ==> w == Walked(ps, s)
    ensures s.collect ==> Extends(s, w.st, PatsDerefCount(ps), PatsNames(w.node))
    ensures PatsDerefCount(ps) == 0 ==> w.node == ps
  {
    if ps == [] then Walked([], s)
    else
      assert ps == ps[..|ps| - 1] + [ps[|ps| - 1]];
      var w1 := WalkPats(ps[..|ps| - 1], s);
      var w2 := WalkPat(ps[|ps| - 1], w1.st);
      assert (w1.node + [w2.node])[..|w1.node|] == w1.node;
      if s.collect then
        ExtendsTrans(s, w1.st, w2.st, PatsDerefCount(ps[..|ps| - 1]), DerefCount(ps[|ps| - 1]),
                     PatsNames(w1.node), Names(w2.node));
        Walked(w1.node + [w2.node], w2.st)
      else Walked(w1.node + [w2.node], w2.st)
  }

  /**
   * `visit_field_pat_mut` of the prototype: while collecting, a field
   * carrying `#[deref]` first loses its first such attribute, binds the next
   * synthetic name and queues its pattern untouched; the default visit that
   * follows then reaches only the new binding, which it records. Any other
   * field has its pattern walked.
   */
  function WalkField(f: FieldPat, s: St): (w: Walked<FieldPat>)
    decreases f, 2
    ensures w.st.collect == s.collect
    ensures !s.collect ==> w == Walked(f, s)
    ensures s.collect ==> Extends(s, w.st, FieldDerefCount(f), Names(w.node.pat))
    ensures FieldDerefCount(f) == 0 ==> w.node == f
    ensures w.node.member == f.member
  {
    if s.collect && DerefPosition(f.attrs).Some? then
      var ident := Name(s.count);
      var t := s.(count := s.count + 1,
                  derefPats := s.derefPats + [DerefPat(ident, f.pat)],
                  boundIdents := s.boundIdents + [ident]);
      assert t.derefPats[..|s.derefPats|] == s.derefPats;
      Walked(FieldPat(RemoveAt(f.attrs, DerefPosition(f.attrs).value), f.member, PIdent(false, false, ident, None)), t)
    else
      var w := WalkPat(f.pat, s);
      Walked(f.(pat := w.node), w.st)
  }

  function WalkFields(fs: seq<FieldPat>, s: St): (w: Walked<seq<FieldPat>>)
    decreases fs, 0
    ensures |w.node| == |fs|
    ensures w.st.collect == s.collect
    ensures !s.collect ==> w == Walked(fs, s)
    ensures s.collect ==> Extends(s, w.st, FieldsDerefCount(fs), FieldNames(w.node))
    ensures FieldsDerefCount(fs) == 0 ==> w.node == fs
  {
    if fs == [] then Walked([], s)
    else
      assert fs == fs[..|fs| - 1] + [fs[|fs| - 1]];
      var w1 := WalkFields(fs[..|fs| - 1], s);
      var w2 := WalkField(fs[|fs| - 1], w1.st);
      assert (w1.node + [w2.node])[..|w1.node|] == w1.node;
      if s.collect then
        ExtendsTrans(s, w1.st, w2.st, FieldsDerefCount(fs[..|fs| - 1]), FieldDerefCount(fs[|fs| - 1]),
                     FieldNames(w1.node), Names(w2.node.pat));
        Walked(w1.node + [w2.node], w2.st)
      else Walked(w1.node + [w2.node], w2.st)
  }

  /** One more pattern: the walk of a prefix extended by the next element. */
  lemma WalkPatsSnoc(ps: seq<Pat>, i: nat, s: St)
    requires i < |ps|
    ensures var w1 := WalkPats(ps[..i], s);
            var w2 := WalkPat(ps[i], w1.st);
            WalkPats(ps[..i + 1], s) == Walked(w1.node + [w2.node], w2.st)
  {
    assert ps[..i + 1][..i] == ps[..i];
  }

  /** One more field: the walk of a prefix extended by the next field. */
  lemma WalkFieldsSnoc(fs: seq<FieldPat>, i: nat, s: St)
    requires i < |fs|
    ensures var w1 := WalkFields(fs[..i], s);
            var w2 := WalkField(fs[i], w1.st);
            WalkFields(fs[..i + 1], s) == Walked(w1.node + [w2.node], w2.st)
  {
    assert fs[..i + 1][..i] == fs[..i];
  }

  // ---------------------------------------------------------------------------
  // Building the replacement

  /** `gen_pat`: `::core::option::Option::Some(x1, ..., xn)`, the recorded names as its direct elements. */
  function GenPat(bound: seq<Ident>): (r: Pat)
    ensures r.PTupleStruct? && r.path == Path(true, SOME_SEGMENTS)
    ensures |r.elems| == |bound| && Names(r) == bound
  {
    BindingPatsNames(bound);
    PTupleStruct(CreatePath(SOME_SEGMENTS, true), BindingPats(bound))
  }

  /** `gen_expr`: `{ let mut RESULT = ::core::option::Option::None; RESULT }`; the input is dropped. */
  function GenExpr(): (r: Expr)
    ensures r.BlockExpr? && |r.block.stmts| == 2
    ensures r.block.stmts[0] == ExprStmt(Let(PIdent(false, true, RESULT, None), PathExpr(Path(true, NONE_SEGMENTS))), true)
    ensures r.block.stmts[1] == ExprStmt(PathExpr(Path(false, [RESULT])), false)
  {
    var decl := Let(PIdent(false, true, CreateIdent(RESULT), None), PathExpr(CreatePath(NONE_SEGMENTS, true)));
    assert CreatePath(NONE_SEGMENTS, true) == Path(true, NONE_SEGMENTS);
    assert CreatePath([RESULT], false) == Path(false, [RESULT]);
    BlockExpr(Block([ExprStmt(decl, true), ExprStmt(PathExpr(CreatePath([RESULT], false)), false)]))
  }

  // ---------------------------------------------------------------------------
  // The expression walk

  /**
   * The `if let` branch of the prototype's `visit_expr_if_mut`: collect over
   * the pattern with the counter reset; if the queue is non-empty (now or from
   * an earlier `if let`), replace the pattern by `gen_pat`, which drains the
   * recorded identifiers, and the input by `gen_expr`; restore `collect`.
   */
  function WalkLetGuard(p: Pat, input: Expr, s: St): (w: Walked<Expr>)
    ensures w.node.Let?
    ensures w.st.collect == s.collect
    ensures s.derefPats <= w.st.derefPats
  {
    var wp := WalkPat(p, s.(collect := true, count := 0));
    var t := wp.st;
    if t.derefPats != [] then
      Walked(Let(GenPat(t.boundIdents), GenExpr()), t.(collect := s.collect, boundIdents := []))
    else
      Walked(Let(wp.node, input), t.(collect := s.collect))
  }

  /** `visit_expr_mut` with the prototype's `visit_expr_if_mut`. */
  function WalkExpr(e: Expr, s: St): (w: Walked<Expr>)
    decreases e, 1
    ensures w.st.collect == s.collect
    ensures s.derefPats <= w.st.derefPats
  {
    match e
    case If(cond, thenBranch, elseBranch) =>
      var w1 := if cond.Let? then WalkLetGuard(cond.pat, cond.scrutinee, s) else WalkExpr(cond, s);
      var w2 := WalkBlock(thenBranch, w1.st);
      (match elseBranch
       case None => Walked(If(w1.node, w2.node, None), w2.st)
       case Some(x) =>
         var w3 := WalkExpr(x, w2.st);
         Walked(If(w1.node, w2.node, Some(w3.node)), w3.st))
    case Let(p, x) =>
      var w1 := WalkPat(p, s);
      var w2 := WalkExpr(x, w1.st);
      Walked(Let(w1.node, w2.node), w2.st)
    case BlockExpr(b) =>
      var w := WalkBlock(b, s);
      Walked(BlockExpr(w.node), w.st)
    case Call(func, args) =>
      var w1 := WalkExpr(func, s);
      var w2 := WalkExprs(args, w1.st);
      Walked(Call(w1.node, w2.node), w2.st)
    case PathExpr(_) => Walked(e, s)
    case Assign(left, right) =>
      var w1 := WalkExpr(left, s);
      var w2 := WalkExpr(right, w1.st);
      Walked(Assign(w1.node, w2.node), w2.st)
    case Tuple(elems) =>
      var w := WalkExprs(elems, s);
      Walked(Tuple(w.node), w.st)
    case Struct(path, fields) =>
      var w := WalkFieldValues(fields, s);
      Walked(Struct(path, w.node), w.st)
    case Lit(_) => Walked(e, s)
  }

  function WalkExprs(es: seq<Expr>, s: St): (w: Walked<seq<Expr>>)
    decreases es, 0
    ensures |w.node| == |es|
    ensures w.st.collect == s.collect
    ensures s.derefPats <= w.st.derefPats
  {
    if es == [] then Walked([], s)
    else
      var w1 := WalkExprs(es[..|es| - 1], s);
      var w2 := WalkExpr(es[|es| - 1], w1.st);
      Walked(w1.node + [w2.node], w2.st)
  }

  function WalkFieldValues(fs: seq<FieldValue>, s: St): (w: Walked<seq<FieldValue>>)
    decreases fs, 0
    ensures |w.node| == |fs|
    ensures w.st.collect == s.collect
    ensures s.derefPats <= w.st.derefPats
  {
    if fs == [] then Walked([], s)
    else
      var w1 := WalkFieldValues(fs[..|fs| - 1], s);
      var w2 := WalkFieldValue(fs[|fs| - 1], w1.st);
      Walked(w1.node + [w2.node], w2.st)
  }

  function WalkFieldValue(f: FieldValue, s: St): (w: Walked<FieldValue>)
    decreases f, 2
    ensures w.st.collect == s.collect
    ensures s.derefPats <= w.st.derefPats
  {
    var w := WalkExpr(f.expr, s);
    Walked(f.(expr := w.node), w.st)
  }

  function WalkBlock(b: Block, s: St): (w: Walked<Block>)
    decreases b, 1
    ensures w.st.collect == s.collect
    ensures s.derefPats <= w.st.derefPats
  {
    var w := WalkStmts(b.stmts, s);
    Walked(Block(w.node), w.st)
  }

  function WalkStmts(ss: seq<Stmt>, s: St): (w: Walked<seq<Stmt>>)
    decreases ss, 0
    ensures |w.node| == |ss|
    ensures w.st.collect == s.collect
    ensures s.derefPats <= w.st.derefPats
  {
    if ss == [] then Walked([], s)
    else
      var w1 := WalkStmts(ss[..|ss| - 1], s);
      var w2 := WalkStmt(ss[|ss| - 1], w1.st);
      Walked(w1.node + [w2.node], w2.st)
  }

  function WalkStmt(st: Stmt, s: St): (w: Walked<Stmt>)
    decreases st, 2
    ensures w.st.collect == s.collect
    ensures s.derefPats <= w.st.derefPats
  {
    match st
    case Local(p, init) =>
      var w1 := WalkPat(p, s);
      (match init
       case None => Walked(Local(w1.node, None), w1.st)
       case Some(x) =>
         var w2 := WalkExpr(x, w1.st);
         Walked(Local(w1.node, Some(w2.node)), w2.st))
    case ItemStmt(_) => Walked(st, s)
    case ExprStmt(x, semi) =>
      var w := WalkExpr(x, s);
      Walked(ExprStmt(w.node, semi), w.st)
  }

  /** The counter cannot overflow while the pattern is walked from a reset counter. */
  predicate CountFits(p: Pat) {
    DerefCount(p) <= U64_MAX
  }

  /** No `#[deref]` field is reached. */
  predicate Unannotated(p: Pat) {
    DerefCount(p) == 0
  }

  lemma PatsDerefCountPrefix(ps: seq<Pat>, i: nat)
    requires i <= |ps|
    ensures PatsDerefCount(ps[..i]) <= PatsDerefCount(ps)
    decreases |ps|
  {
    if i < |ps| {
      PatsDerefCountPrefix(ps[..|ps| - 1], i);
      assert ps[..|ps| - 1][..i] == ps[..i];
    } else {
      assert ps[..i] == ps;
    }
  }

  lemma FieldsDerefCountPrefix(fs: seq<FieldPat>, i: nat)
    requires i <= |fs|
    ensures FieldsDerefCount(fs[..i]) <= FieldsDerefCount(fs)
    decreases |fs|
  {
    if i < |fs| {
      FieldsDerefCountPrefix(fs[..|fs| - 1], i);
      assert fs[..|fs| - 1][..i] == fs[..i];
    } else {
      assert fs[..i] == fs;
    }
  }

  /** The prototype's `transform`: visit the expression with a fresh `Transformer`. */
  function Transform(e: Expr): Expr {
    WalkExpr(e, INIT).node
  }
}
