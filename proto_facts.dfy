/**
 * What the prototype's rewrite does, proved about the functions of
 * `ProtoDesugar` (and so about `Prototype.Transformer`).
 */
module ProtoFacts {
  import opened Syntax
  import opened Idents
  import opened Util
  import opened Visit
  import opened ProtoDesugar

  /**
   * While collecting, an annotated field is rewritten before anything inside
   * it is visited: it loses its first `#[deref]`, binds the name for the
   * current counter, queues its pattern untouched, and only the new binding
   * is recorded.
   */
  lemma AnnotatedField(f: FieldPat, s: St)
    requires s.collect && Annotated(f)
    ensures var name := Name(s.count);
            WalkField(f, s) ==
            Walked(FieldPat(RemoveAt(f.attrs, DerefPosition(f.attrs).value), f.member, PIdent(false, false, name, None)),
                   s.(count := s.count + 1,
                      derefPats := s.derefPats + [DerefPat(name, f.pat)],
                      boundIdents := s.boundIdents + [name]))
  {
  }

  /** A field without `#[deref]` keeps its attributes and has only its pattern walked. */
  lemma PlainField(f: FieldPat, s: St)
    requires !Annotated(f)
    ensures WalkField(f, s) == Walked(f.(pat := WalkPat(f.pat, s).node), WalkPat(f.pat, s).st)
  {
  }

  /**
   * An `if let` is rewritten when its pattern reaches a `#[deref]` field or
   * when an earlier `if let` left steps queued: it becomes
   * `if let Some(bound...) = { let mut RESULT = None; RESULT }`, where the
   * bound names are those recorded before plus the bindings of the
   * rewritten pattern (synthetic names included, displaced bindings not);
   * the input is dropped, the new steps are named from `deref_pat_0` on and
   * appended behind the old ones, and only the recorded names are emptied.
   */
  lemma LetGuardRewritten(p: Pat, x: Expr, s: St)
    requires !s.collect && (s.derefPats != [] || DerefCount(p) > 0)
    ensures var wp := WalkPat(p, s.(collect := true, count := 0));
            var bound := s.boundIdents + Names(wp.node);
            var n := DerefCount(p);
            && WalkLetGuard(p, x, s) == Walked(Let(GenPat(bound), GenExpr()), St(n, false, wp.st.derefPats, []))
            && Names(GenPat(bound)) == bound
            && |wp.st.derefPats| == |s.derefPats| + n
            && wp.st.derefPats[..|s.derefPats|] == s.derefPats
            && forall i :: 0 <= i < n ==> wp.st.derefPats[|s.derefPats| + i].ident == NameRun(0, n)[i]
  {
  }

  /**
   * While nothing is queued, an `if let` without reachable annotations keeps
   * its pattern and input, and its bindings stay recorded.
   */
  lemma LetGuardKept(p: Pat, x: Expr, s: St)
    requires !s.collect && s.derefPats == [] && DerefCount(p) == 0
    ensures WalkLetGuard(p, x, s) == Walked(Let(p, x), St(0, false, [], s.boundIdents + Names(p)))
  {
  }

  /** Once a step is queued, every later `if let` is rewritten, whatever its pattern. */
  lemma RewriteIsSticky(e: Expr, p: Pat, x: Expr, s: St)
    requires !s.collect
    ensures var t := WalkExpr(e, s).st;
            s.derefPats != [] ==> t.derefPats != [] && WalkLetGuard(p, x, t).node.scrutinee == GenExpr()
  {
    var t := WalkExpr(e, s).st;
    if s.derefPats != [] {
      assert s.derefPats[0] == t.derefPats[0];
      LetGuardRewritten(p, x, t);
    }
  }

  // ---------------------------------------------------------------------------
  // Without reachable annotations the prototype's rewrite is the identity

  /** The state before any `if let` has queued a step. */
  predicate Idle(s: St) {
    !s.collect && s.derefPats == []
  }

  lemma {:induction false} ExprUnchanged(e: Expr, s: St)
    requires Idle(s) && AllIfLets(e, Unannotated)
    ensures WalkExpr(e, s).node == e && Idle(WalkExpr(e, s).st)
    decreases e, 1
  {
    match e
    case If(cond, thenBranch, elseBranch) =>
      var w1 := if cond.Let? then WalkLetGuard(cond.pat, cond.scrutinee, s) else WalkExpr(cond, s);
      if cond.Let? {
        LetGuardKept(cond.pat, cond.scrutinee, s);
      } else {
        ExprUnchanged(cond, s);
      }
      BlockUnchanged(thenBranch, w1.st);
      var w2 := WalkBlock(thenBranch, w1.st);
      if elseBranch.Some? {
        ExprUnchanged(elseBranch.value, w2.st);
      }
    case Let(p, x) => ExprUnchanged(x, s);
    case BlockExpr(b) => BlockUnchanged(b, s);
    case Call(func, args) =>
      ExprUnchanged(func, s);
      ExprsUnchanged(args, WalkExpr(func, s).st);
    case PathExpr(_) =>
    case Assign(left, right) =>
      ExprUnchanged(left, s);
      ExprUnchanged(right, WalkExpr(left, s).st);
    case Tuple(elems) => ExprsUnchanged(elems, s);
    case Struct(path, fields) => FieldValuesUnchanged(fields, s);
    case Lit(_) =>
  }

  lemma {:induction false} ExprsUnchanged(es: seq<Expr>, s: St)
    requires Idle(s) && forall i | 0 <= i < |es| :: AllIfLets(es[i], Unannotated)
    ensures WalkExprs(es, s).node == es && Idle(WalkExprs(es, s).st)
    decreases es, 0
  {
    if es != [] {
      var n := |es|;
      ExprsUnchanged(es[..n - 1], s);
      ExprUnchanged(es[n - 1], WalkExprs(es[..n - 1], s).st);
      assert es == es[..n - 1] + [es[n - 1]];
    }
  }

  lemma {:induction false} FieldValuesUnchanged(fs: seq<FieldValue>, s: St)
    requires Idle(s) && forall i | 0 <= i < |fs| :: FieldValueIfLets(fs[i], Unannotated)
    ensures WalkFieldValues(fs, s).node == fs && Idle(WalkFieldValues(fs, s).st)
    decreases fs, 0
  {
    if fs != [] {
      var n := |fs|;
      FieldValuesUnchanged(fs[..n - 1], s);
      FieldValueUnchanged(fs[n - 1], WalkFieldValues(fs[..n - 1], s).st);
      assert fs == fs[..n - 1] + [fs[n - 1]];
    }
  }

  lemma {:induction false} FieldValueUnchanged(f: FieldValue, s: St)
    requires Idle(s) && FieldValueIfLets(f, Unannotated)
    ensures WalkFieldValue(f, s).node == f && Idle(WalkFieldValue(f, s).st)
    decreases f, 2
  {
    ExprUnchanged(f.expr, s);
  }

  lemma {:induction false} BlockUnchanged(b: Block, s: St)
    requires Idle(s) && BlockIfLets(b, Unannotated)
    ensures WalkBlock(b, s).node == b && Idle(WalkBlock(b, s).st)
    decreases b, 1
  {
    StmtsUnchanged(b.stmts, s);
  }

  lemma {:induction false} StmtsUnchanged(ss: seq<Stmt>, s: St)
    requires Idle(s) && forall i | 0 <= i < |ss| :: StmtIfLets(ss[i], Unannotated)
    ensures WalkStmts(ss, s).node == ss && Idle(WalkStmts(ss, s).st)
    decreases ss, 0
  {
    if ss != [] {
      var n := |ss|;
      StmtsUnchanged(ss[..n - 1], s);
      StmtUnchanged(ss[n - 1], WalkStmts(ss[..n - 1], s).st);
      assert ss == ss[..n - 1] + [ss[n - 1]];
    }
  }

  lemma {:induction false} StmtUnchanged(st: Stmt, s: St)
    requires Idle(s) && StmtIfLets(st, Unannotated)
    ensures WalkStmt(st, s).node == st && Idle(WalkStmt(st, s).st)
    decreases st, 2
  {
    match st
    case Local(p, init) =>
      if init.Some? {
        ExprUnchanged(init.value, WalkPat(p, s).st);
      }
    case ItemStmt(_) =>
    case ExprStmt(x, semi) => ExprUnchanged(x, s);
  }

  /** An expression with no reachable `#[deref]` in any `if let` comes out of the prototype's `transform` unchanged. */
  lemma TransformUnannotated(e: Expr)
    requires AllIfLets(e, Unannotated)
    ensures Transform(e) == e
  {
    ExprUnchanged(e, INIT);
  }
}
