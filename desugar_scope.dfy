/**
 * The rewrite never dereferences an unbound name: each
 * `PatDeref::pat_deref(x)` call in the output names an identifier bound by
 * the pattern of an enclosing `if let` (or one the input already had in scope).
 */
module DesugarScope {
  import opened Syntax
  import opened Util
  import opened Visit
  import opened Desugar
  import opened DesugarFacts

  /** Every name of `a` is in `b`. */
  predicate Sub(a: seq<Ident>, b: seq<Ident>) {
    forall x :: x in a ==> x in b
  }

  /**
   * Every `PatDeref::pat_deref(x)` call in `e` with a plain name `x` has `x`
   * in `scope`, where the block of an `if let` also sees the names its
   * pattern binds. (Bindings of `let` statements are not counted as scope.)
   */
  predicate Scoped(e: Expr, scope: seq<Ident>)
    decreases e, 1
  {
    match e
    case If(cond, thenBranch, elseBranch) =>
      && (if cond.Let? then Scoped(cond.scrutinee, scope) && BlockScoped(thenBranch, scope + Names(cond.pat))
          else Scoped(cond, scope) && BlockScoped(thenBranch, scope))
      && (match elseBranch case None => true case Some(x) => Scoped(x, scope))
    case Let(_, x) => Scoped(x, scope)
    case BlockExpr(b) => BlockScoped(b, scope)
    case Call(func, args) =>
      && (func == PathExpr(CreatePath(PAT_DEREF_SEGMENTS, false)) && |args| == 1 && ExprIdent(args[0]).Some?
          ==> ExprIdent(args[0]).value in scope)
      && Scoped(func, scope)
      && forall i | 0 <= i < |args| :: Scoped(args[i], scope)
    case PathExpr(_) => true
    case Assign(left, right) => Scoped(left, scope) && Scoped(right, scope)
    case Tuple(elems) => forall i | 0 <= i < |elems| :: Scoped(elems[i], scope)
    case Struct(_, fields) => forall i | 0 <= i < |fields| :: FieldValueScoped(fields[i], scope)
    case Lit(_) => true
  }

  predicate FieldValueScoped(f: FieldValue, scope: seq<Ident>)
    decreases f, 2
  {
    Scoped(f.expr, scope)
  }

  predicate BlockScoped(b: Block, scope: seq<Ident>)
    decreases b, 1
  {
    forall i | 0 <= i < |b.stmts| :: StmtScoped(b.stmts[i], scope)
  }

  predicate StmtScoped(st: Stmt, scope: seq<Ident>)
    decreases st, 2
  {
    match st
    case Local(_, init) => (match init case None => true case Some(x) => Scoped(x, scope))
    case ItemStmt(_) => true
    case ExprStmt(x, _) => Scoped(x, scope)
  }

  // ---------------------------------------------------------------------------
  // A wider scope

  lemma {:induction false} ScopedMono(e: Expr, a: seq<Ident>, b: seq<Ident>)
    requires Scoped(e, a) && Sub(a, b)
    ensures Scoped(e, b)
    decreases e, 1
  {
    match e
    case If(cond, thenBranch, elseBranch) =>
      if cond.Let? {
        ScopedMono(cond.scrutinee, a, b);
        BlockScopedMono(thenBranch, a + Names(cond.pat), b + Names(cond.pat));
      } else {
        ScopedMono(cond, a, b);
        BlockScopedMono(thenBranch, a, b);
      }
      if elseBranch.Some? {
        ScopedMono(elseBranch.value, a, b);
      }
    case Let(_, x) => ScopedMono(x, a, b);
    case BlockExpr(bl) => BlockScopedMono(bl, a, b);
    case Call(func, args) =>
      ScopedMono(func, a, b);
      forall i | 0 <= i < |args|
        ensures Scoped(args[i], b)
      {
        ScopedMono(args[i], a, b);
      }
    case PathExpr(_) =>
    case Assign(left, right) =>
      ScopedMono(left, a, b);
      ScopedMono(right, a, b);
    case Tuple(elems) =>
      forall i | 0 <= i < |elems|
        ensures Scoped(elems[i], b)
      {
        ScopedMono(elems[i], a, b);
      }
    case Struct(_, fields) =>
      forall i | 0 <= i < |fields|
        ensures FieldValueScoped(fields[i], b)
      {
        ScopedMono(fields[i].expr, a, b);
      }
    case Lit(_) =>
  }

  lemma {:induction false} BlockScopedMono(bl: Block, a: seq<Ident>, b: seq<Ident>)
    requires BlockScoped(bl, a) && Sub(a, b)
    ensures BlockScoped(bl, b)
    decreases bl, 1
  {
    forall i | 0 <= i < |bl.stmts|
      ensures StmtScoped(bl.stmts[i], b)
    {
      StmtScopedMono(bl.stmts[i], a, b);
    }
  }

  lemma {:induction false} StmtScopedMono(st: Stmt, a: seq<Ident>, b: seq<Ident>)
    requires StmtScoped(st, a) && Sub(a, b)
    ensures StmtScoped(st, b)
    decreases st, 2
  {
    match st
    case Local(_, init) =>
      if init.Some? {
        ScopedMono(init.value, a, b);
      }
    case ItemStmt(_) =>
    case ExprStmt(x, _) => ScopedMono(x, a, b);
  }

  // ---------------------------------------------------------------------------
  // The generated block

  /** The names the displaced patterns of the steps bind. */
  function StepNames(steps: seq<DerefPat>): seq<Ident> {
    if steps == [] then [] else StepNames(steps[1..]) + Names(steps[0].pat)
  }

  lemma {:induction false} StepNamesHas(steps: seq<DerefPat>, j: nat, x: Ident)
    requires j < |steps| && x in Names(steps[j].pat)
    ensures x in StepNames(steps)
    decreases |steps|
  {
    if j > 0 {
      StepNamesHas(steps[1..], j - 1, x);
    }
  }

  lemma ScopedTail(scope: seq<Ident>, steps: seq<DerefPat>)
    requires steps != [] && StepsScoped(scope, steps)
    ensures StepsScoped(scope, steps[1..])
  {
    var rest := steps[1..];
    forall i | 0 <= i < |rest|
      ensures rest[i].ident in scope || exists j :: i < j < |rest| && rest[i].ident in Names(rest[j].pat)
    {
      assert rest[i] == steps[i + 1];
      if rest[i].ident !in scope {
        var j :| i + 1 < j < |steps| && steps[i + 1].ident in Names(steps[j].pat);
        assert rest[j - 1] == steps[j];
      }
    }
  }

  /** The first step's name is in scope or bound by one of the later steps. */
  lemma ScopedHead(scope: seq<Ident>, steps: seq<DerefPat>)
    requires steps != [] && StepsScoped(scope, steps)
    ensures steps[0].ident in scope + StepNames(steps[1..])
  {
    if steps[0].ident !in scope {
      var j :| 0 < j < |steps| && steps[0].ident in Names(steps[j].pat);
      StepNamesHas(steps[1..], j - 1, steps[0].ident);
    }
  }

  /** The assignment of `Some((x1, ..., xn))` contains no deref call. */
  lemma AssignScoped(bound: seq<Ident>, scope: seq<Ident>)
    ensures Scoped(AssignResult(bound), scope)
  {
    var vs := IdentExprs(bound);
    forall i | 0 <= i < |vs|
      ensures Scoped(vs[i], scope)
    {
      assert ExprIdent(vs[i]).Some?;
    }
    assert Scoped(Tuple(vs), scope);
    assert FieldValueScoped(FieldValue(Unnamed(0), Tuple(vs)), scope);
  }

  /** One step: its name is in scope, and its block may also use what its pattern binds. */
  lemma StepScoped(d: DerefPat, inner: Expr, scope: seq<Ident>)
    requires d.ident in scope && Scoped(inner, scope + Names(d.pat))
    ensures Scoped(DerefPatToExpr(d, inner), scope)
  {
    var call := CreateCall(PathIntoExpr(CreatePath(PAT_DEREF_SEGMENTS, false)), [IdentIntoExpr(d.ident)]);
    assert Scoped(IdentIntoExpr(d.ident), scope);
    assert Scoped(call, scope);
    assert StmtScoped(IntoSemiStmt(inner), scope + Names(d.pat));
  }

  /**
   * The chain is scoped when each step's name is in scope or bound by a
   * step wrapped around it, and the innermost expression may use every name
   * any displaced pattern binds.
   */
  lemma {:induction false} ChainScoped(steps: seq<DerefPat>, inner: Expr, scope: seq<Ident>)
    requires StepsScoped(scope, steps)
    requires Scoped(inner, scope + StepNames(steps))
    ensures Scoped(Chain(steps, inner), scope)
    decreases |steps|
  {
    if steps == [] {
      assert scope + StepNames(steps) == scope;
    } else {
      var d := steps[0];
      var rest := steps[1..];
      var outer := scope + StepNames(rest);
      ScopedTail(scope, steps);
      ScopedHead(scope, steps);
      assert scope + StepNames(steps) == outer + Names(d.pat);
      StepScoped(d, inner, outer);
      ChainScoped(rest, DerefPatToExpr(d, inner), scope);
    }
  }

  /** The chain `gen_expr` builds, under the names the rewritten pattern binds. */
  lemma GenChainScoped(pat: Pat, bound: seq<Ident>, queue: seq<DerefPat>, scope: seq<Ident>)
    requires queue != [] && StepsScoped(Names(pat), queue)
    ensures Scoped(Chain(queue[1..], DerefPatToExpr(queue[0], AssignResult(bound))), scope + Names(pat))
  {
    var inner := scope + Names(pat);
    ScopedWiden(Names(pat), inner, queue);
    AssignScoped(bound, inner + StepNames(queue));
    ChainScoped(queue, AssignResult(bound), inner);
  }

  /** The block of `gen_expr` around a chain: the input in the outer scope, the chain under the pattern's names. */
  lemma GenBlockScoped(pat: Pat, input: Expr, chain: Expr, scope: seq<Ident>)
    requires Scoped(input, scope) && Scoped(chain, scope + Names(pat))
    ensures Scoped(BlockExpr(Block([CreateImport(CRATE_NAME), IntoSemiStmt(ResultDecl()),
                                     IntoSemiStmt(CreateIfLet(pat, input, [IntoSemiStmt(chain)], None)),
                                     IntoExprStmt(ResultRef())])), scope)
  {
    assert StmtScoped(IntoSemiStmt(chain), scope + Names(pat));
    var top := CreateIfLet(pat, input, [IntoSemiStmt(chain)], None);
    assert Scoped(top, scope);
    var stmts := [CreateImport(CRATE_NAME), IntoSemiStmt(ResultDecl()), IntoSemiStmt(top), IntoExprStmt(ResultRef())];
    assert StmtScoped(stmts[1], scope);
    assert StmtScoped(stmts[2], scope);
  }

  /**
   * `gen_expr` is scoped when its input is and every queued name is bound by
   * the rewritten pattern or by a step wrapped around it.
   */
  lemma GenExprScoped(pat: Pat, input: Expr, bound: seq<Ident>, queue: seq<DerefPat>, scope: seq<Ident>)
    requires queue != [] && StepsScoped(Names(pat), queue) && Scoped(input, scope)
    ensures Scoped(GenExpr(pat, input, bound, queue), scope)
  {
    GenChainScoped(pat, bound, queue, scope);
    GenBlockScoped(pat, input, Chain(queue[1..], DerefPatToExpr(queue[0], AssignResult(bound))), scope);
  }

  // ---------------------------------------------------------------------------
  // The whole walk

  lemma {:induction false} ExprWalkScoped(e: Expr, s: St, scope: seq<Ident>)
    requires Quiet(s) && Scoped(e, scope)
    ensures Scoped(WalkExpr(e, s).node, scope)
    decreases e, 1
  {
    match e
    case If(cond, thenBranch, elseBranch) =>
      var w1 := if cond.Let? then WalkLetGuard(cond.pat, cond.scrutinee, s) else WalkExpr(cond, s);
      var w2 := WalkBlock(thenBranch, w1.st);
      if cond.Let? {
        var p := cond.pat;
        var sc := scope + Names(p);
        BlockWalkScoped(thenBranch, w1.st, sc);
        if DerefCount(p) > 0 {
          LetGuardRewritten(p, cond.scrutinee, s);
          var wp := WalkPat(p, s.(collect := true, count := 0));
          GenExprScoped(wp.node, cond.scrutinee, s.boundIdents + Names(p), wp.st.derefPats, scope);
          BlockScopedMono(w2.node, sc, scope + Names(GenPat(s.boundIdents + Names(p))));
        } else {
          LetGuardUnannotated(p, cond.scrutinee, s);
        }
      } else {
        ExprWalkScoped(cond, s, scope);
        BlockWalkScoped(thenBranch, w1.st, scope);
      }
      if elseBranch.Some? {
        ExprWalkScoped(elseBranch.value, w2.st, scope);
      }
    case Let(p, x) => ExprWalkScoped(x, s, scope);
    case BlockExpr(b) => BlockWalkScoped(b, s, scope);
    case Call(func, args) =>
      ExprWalkScoped(func, s, scope);
      ExprsWalkScoped(args, WalkExpr(func, s).st, scope);
      ExprsKeepPaths(args, WalkExpr(func, s).st);
    case PathExpr(_) =>
    case Assign(left, right) =>
      ExprWalkScoped(left, s, scope);
      ExprWalkScoped(right, WalkExpr(left, s).st, scope);
    case Tuple(elems) => ExprsWalkScoped(elems, s, scope);
    case Struct(path, fields) => FieldValuesWalkScoped(fields, s, scope);
    case Lit(_) =>
  }

  /** Paths are the walk's fixed points, and only paths become paths, so a deref call stays one. */
  lemma {:induction false} ExprsKeepPaths(es: seq<Expr>, s: St)
    ensures forall i | 0 <= i < |es| ::
      && (WalkExprs(es, s).node[i].PathExpr? <==> es[i].PathExpr?)
      && (es[i].PathExpr? ==> WalkExprs(es, s).node[i] == es[i])
    decreases |es|
  {
    if es != [] {
      var n := |es|;
      ExprsKeepPaths(es[..n - 1], s);
      var w1 := WalkExprs(es[..n - 1], s);
      assert WalkExprs(es, s).node == w1.node + [WalkExpr(es[n - 1], w1.st).node];
    }
  }

  lemma {:induction false} ExprsWalkScoped(es: seq<Expr>, s: St, scope: seq<Ident>)
    requires Quiet(s) && forall i | 0 <= i < |es| :: Scoped(es[i], scope)
    ensures forall i | 0 <= i < |es| :: Scoped(WalkExprs(es, s).node[i], scope)
    decreases es, 0
  {
    if es != [] {
      var n := |es|;
      ExprsWalkScoped(es[..n - 1], s, scope);
      var w1 := WalkExprs(es[..n - 1], s);
      ExprWalkScoped(es[n - 1], w1.st, scope);
      assert WalkExprs(es, s).node == w1.node + [WalkExpr(es[n - 1], w1.st).node];
    }
  }

  lemma {:induction false} FieldValuesWalkScoped(fs: seq<FieldValue>, s: St, scope: seq<Ident>)
    requires Quiet(s) && forall i | 0 <= i < |fs| :: FieldValueScoped(fs[i], scope)
    ensures forall i | 0 <= i < |fs| :: FieldValueScoped(WalkFieldValues(fs, s).node[i], scope)
    decreases fs, 0
  {
    if fs != [] {
      var n := |fs|;
      FieldValuesWalkScoped(fs[..n - 1], s, scope);
      var w1 := WalkFieldValues(fs[..n - 1], s);
      FieldValueWalkScoped(fs[n - 1], w1.st, scope);
      assert WalkFieldValues(fs, s).node == w1.node + [WalkFieldValue(fs[n - 1], w1.st).node];
    }
  }

  lemma {:induction false} FieldValueWalkScoped(f: FieldValue, s: St, scope: seq<Ident>)
    requires Quiet(s) && FieldValueScoped(f, scope)
    ensures FieldValueScoped(WalkFieldValue(f, s).node, scope)
    decreases f, 2
  {
    ExprWalkScoped(f.expr, s, scope);
  }

  lemma {:induction false} BlockWalkScoped(b: Block, s: St, scope: seq<Ident>)
    requires Quiet(s) && BlockScoped(b, scope)
    ensures BlockScoped(WalkBlock(b, s).node, scope)
    decreases b, 1
  {
    StmtsWalkScoped(b.stmts, s, scope);
  }

  lemma {:induction false} StmtsWalkScoped(ss: seq<Stmt>, s: St, scope: seq<Ident>)
    requires Quiet(s) && forall i | 0 <= i < |ss| :: StmtScoped(ss[i], scope)
    ensures forall i | 0 <= i < |ss| :: StmtScoped(WalkStmts(ss, s).node[i], scope)
    decreases ss, 0
  {
    if ss != [] {
      var n := |ss|;
      StmtsWalkScoped(ss[..n - 1], s, scope);
      var w1 := WalkStmts(ss[..n - 1], s);
      StmtWalkScoped(ss[n - 1], w1.st, scope);
      assert WalkStmts(ss, s).node == w1.node + [WalkStmt(ss[n - 1], w1.st).node];
    }
  }

  lemma {:induction false} StmtWalkScoped(st: Stmt, s: St, scope: seq<Ident>)
    requires Quiet(s) && StmtScoped(st, scope)
    ensures StmtScoped(WalkStmt(st, s).node, scope)
    decreases st, 2
  {
    match st
    case Local(p, init) =>
      if init.Some? {
        ExprWalkScoped(init.value, WalkPat(p, s).st, scope);
      }
    case ItemStmt(_) =>
    case ExprStmt(x, _) => ExprWalkScoped(x, s, scope);
  }

  /**
   * `transform` introduces no unbound dereference: if every deref call of
   * the input names a bound identifier, so does every deref call of the
   * output, the generated ones included.
   */
  lemma TransformScoped(e: Expr)
    requires Scoped(e, [])
    ensures Scoped(Transform(e), [])
  {
    ExprWalkScoped(e, INIT, []);
  }
}
