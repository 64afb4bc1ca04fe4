/**
 * What the macro's rewrite guarantees, proved about the functions of
 * `Desugar` (and so, through the methods' postconditions, about
 * `Transform.Transformer`).
 */
module DesugarFacts {
  import opened Syntax
  import opened Idents
  import opened Util
  import opened Visit
  import opened Desugar

  // ---------------------------------------------------------------------------
  // A `#[deref]` field loses exactly its first `deref` attribute

  function DerefAttrCount(attrs: seq<Attribute>): nat {
    if attrs == [] then 0 else (if IsDeref(attrs[0]) then 1 else 0) + DerefAttrCount(attrs[1..])
  }

  /** The attributes other than `#[deref]`, in order. */
  function OtherAttrs(attrs: seq<Attribute>): seq<Attribute> {
    if attrs == [] then [] else (if IsDeref(attrs[0]) then [] else [attrs[0]]) + OtherAttrs(attrs[1..])
  }

  lemma {:induction false} RemoveFirstDeref(attrs: seq<Attribute>)
    requires DerefPosition(attrs).Some?
    ensures DerefAttrCount(RemoveAt(attrs, DerefPosition(attrs).value)) + 1 == DerefAttrCount(attrs)
    ensures OtherAttrs(RemoveAt(attrs, DerefPosition(attrs).value)) == OtherAttrs(attrs)
  {
    var pos := DerefPosition(attrs).value;
    if pos == 0 {
      assert RemoveAt(attrs, 0) == attrs[1..];
    } else {
      RemoveFirstDeref(attrs[1..]);
      assert RemoveAt(attrs, pos) == [attrs[0]] + RemoveAt(attrs[1..], pos - 1);
      assert ([attrs[0]] + RemoveAt(attrs[1..], pos - 1))[1..] == RemoveAt(attrs[1..], pos - 1);
    }
  }

  /**
   * While collecting, an annotated field: has its sub-pattern walked first,
   * loses its first `deref` attribute and keeps the others in order, binds
   * the next synthetic name (which is not recorded as a bound identifier),
   * and queues the walked sub-pattern under that name behind the steps of
   * its own sub-pattern.
   */
  lemma AnnotatedField(f: FieldPat, s: St)
    requires s.collect && Annotated(f)
    ensures var sub := WalkPat(f.pat, s);
            var w := WalkField(f, s);
            var name := Name(s.count + DerefCount(f.pat));
            && w.node.attrs == RemoveAt(f.attrs, DerefPosition(f.attrs).value)
            && DerefAttrCount(w.node.attrs) + 1 == DerefAttrCount(f.attrs)
            && OtherAttrs(w.node.attrs) == OtherAttrs(f.attrs)
            && w.node.member == f.member
            && w.node.pat == PIdent(false, false, name, None)
            && w.st.derefPats == sub.st.derefPats + [DerefPat(name, sub.node)]
            && w.st.count == s.count + DerefCount(f.pat) + 1
            && w.st.boundIdents == s.boundIdents + Names(f.pat)
  {
    RemoveFirstDeref(f.attrs);
  }

  // ---------------------------------------------------------------------------
  // Every queued name is bound before it is dereferenced

  /**
   * Each step's name is bound by a pattern in `scope` or by the displaced
   * pattern of a step queued after it (which the chain places around it).
   */
  predicate StepsScoped(scope: seq<Ident>, steps: seq<DerefPat>) {
    forall i :: 0 <= i < |steps| ==>
      steps[i].ident in scope || exists j :: i < j < |steps| && steps[i].ident in Names(steps[j].pat)
  }

  lemma ScopedWiden(a: seq<Ident>, b: seq<Ident>, steps: seq<DerefPat>)
    requires StepsScoped(a, steps)
    requires forall x :: x in a ==> x in b
    ensures StepsScoped(b, steps)
  {
  }

  lemma ScopedConcat(na: seq<Ident>, a: seq<DerefPat>, nb: seq<Ident>, b: seq<DerefPat>)
    requires StepsScoped(na, a) && StepsScoped(nb, b)
    ensures StepsScoped(na + nb, a + b)
  {
    var ab := a + b;
    forall i | 0 <= i < |ab|
      ensures ab[i].ident in na + nb || exists j :: i < j < |ab| && ab[i].ident in Names(ab[j].pat)
    {
      if i < |a| {
        assert ab[i] == a[i];
        if a[i].ident !in na {
          var j :| i < j < |a| && a[i].ident in Names(a[j].pat);
          assert ab[j] == a[j];
        }
      } else {
        var k := i - |a|;
        assert ab[i] == b[k];
        if b[k].ident !in nb {
          var j :| k < j < |b| && b[k].ident in Names(b[j].pat);
          assert ab[|a| + j] == b[j];
        }
      }
    }
  }

  lemma ScopedPush(steps: seq<DerefPat>, x: Ident, p: Pat)
    requires StepsScoped(Names(p), steps)
    ensures StepsScoped([x], steps + [DerefPat(x, p)])
  {
    var all := steps + [DerefPat(x, p)];
    forall i | 0 <= i < |all|
      ensures all[i].ident in [x] || exists j :: i < j < |all| && all[i].ident in Names(all[j].pat)
    {
      if i < |steps| {
        assert all[i] == steps[i];
        if steps[i].ident in Names(p) {
          assert all[|steps|].pat == p;
          assert i < |steps| < |all| && all[i].ident in Names(all[|steps|].pat);
        } else {
          var j :| i < j < |steps| && steps[i].ident in Names(steps[j].pat);
          assert all[j] == steps[j];
          assert i < j < |all| && all[i].ident in Names(all[j].pat);
        }
      } else {
        assert all[i].ident == x;
      }
    }
  }

  lemma SliceSplit<T>(a: seq<T>, b: seq<T>, c: seq<T>)
    requires |a| <= |b| <= |c| && c[..|b|] == b && b[..|a|] == a
    ensures c[|a|..] == b[|a|..] + c[|b|..]
  {
    assert c == c[..|b|] + c[|b|..];
  }

  /** The steps a walk queues while collecting are scoped by the rewritten pattern. */
  lemma {:induction false} PatStepsScoped(p: Pat, s: St)
    requires s.collect
    ensures StepsScoped(Names(WalkPat(p, s).node), WalkPat(p, s).st.derefPats[|s.derefPats|..])
    decreases p, 1
  {
    match p
    case PIdent(_, _, _, _) => PatIdentStepsScoped(p, s);
    case PStruct(path, fields) => FieldsStepsScoped(fields, s);
    case PTuple(elems) => PatsStepsScoped(elems, s);
    case PTupleStruct(path, elems) => PatsStepsScoped(elems, s);
    case PPath(_) =>
    case PLit(_) =>
    case PWild =>
  }

  lemma {:induction false} PatIdentStepsScoped(p: Pat, s: St)
    requires s.collect && p.PIdent?
    ensures StepsScoped(Names(WalkPatIdent(p, s).node), WalkPatIdent(p, s).st.derefPats[|s.derefPats|..])
    decreases p, 0
  {
    var s1 := s.(boundIdents := s.boundIdents + [p.name]);
    match p.subpat
    case None =>
      assert WalkPatIdent(p, s).st.derefPats[|s.derefPats|..] == [];
    case Some(q) =>
      PatStepsScoped(q, s1);
      var w := WalkPat(q, s1);
      ScopedWiden(Names(w.node), Names(WalkPatIdent(p, s).node), w.st.derefPats[|s1.derefPats|..]);
  }

  lemma {:induction false} PatsStepsScoped(ps: seq<Pat>, s: St)
    requires s.collect
    ensures StepsScoped(PatsNames(WalkPats(ps, s).node), WalkPats(ps, s).st.derefPats[|s.derefPats|..])
    decreases ps, 0
  {
    if ps == [] {
      assert WalkPats(ps, s).st.derefPats[|s.derefPats|..] == [];
    } else {
      var w1 := WalkPats(ps[..|ps| - 1], s);
      var w2 := WalkPat(ps[|ps| - 1], w1.st);
      PatsStepsScoped(ps[..|ps| - 1], s);
      PatStepsScoped(ps[|ps| - 1], w1.st);
      ScopedConcat(PatsNames(w1.node), w1.st.derefPats[|s.derefPats|..],
                   Names(w2.node), w2.st.derefPats[|w1.st.derefPats|..]);
      SliceSplit(s.derefPats, w1.st.derefPats, w2.st.derefPats);
      assert (w1.node + [w2.node])[..|w1.node|] == w1.node;
    }
  }

  lemma {:induction false} FieldStepsScoped(f: FieldPat, s: St)
    requires s.collect
    ensures StepsScoped(Names(WalkField(f, s).node.pat), WalkField(f, s).st.derefPats[|s.derefPats|..])
    decreases f, 2
  {
    var sub := WalkPat(f.pat, s);
    var w := WalkField(f, s);
    PatStepsScoped(f.pat, s);
    var tail := sub.st.derefPats[|s.derefPats|..];
    if Annotated(f) {
      AnnotatedField(f, s);
      var name := Name(s.count + DerefCount(f.pat));
      assert Names(w.node.pat) == [name];
      ScopedPush(tail, name, sub.node);
      assert w.st.derefPats[|s.derefPats|..] == tail + [DerefPat(name, sub.node)];
    } else {
      assert w == Walked(f.(pat := sub.node), sub.st);
    }
  }

  lemma {:induction false} FieldsStepsScoped(fs: seq<FieldPat>, s: St)
    requires s.collect
    ensures StepsScoped(FieldNames(WalkFields(fs, s).node), WalkFields(fs, s).st.derefPats[|s.derefPats|..])
    decreases fs, 0
  {
    if fs == [] {
      assert WalkFields(fs, s).st.derefPats[|s.derefPats|..] == [];
    } else {
      var w1 := WalkFields(fs[..|fs| - 1], s);
      var w2 := WalkField(fs[|fs| - 1], w1.st);
      FieldsStepsScoped(fs[..|fs| - 1], s);
      FieldStepsScoped(fs[|fs| - 1], w1.st);
      ScopedConcat(FieldNames(w1.node), w1.st.derefPats[|s.derefPats|..],
                   Names(w2.node.pat), w2.st.derefPats[|w1.st.derefPats|..]);
      SliceSplit(s.derefPats, w1.st.derefPats, w2.st.derefPats);
      assert (w1.node + [w2.node])[..|w1.node|] == w1.node;
    }
  }

  // ---------------------------------------------------------------------------
  // The generated pattern and the assigned value list the recorded identifiers

  /**
   * The value the innermost step assigns, `Some((x1, ..., xn))`, refers to
   * the names the generated pattern binds, position by position.
   */
  lemma AssignMatchesGenPat(bound: seq<Ident>)
    ensures var a := AssignResult(bound);
            && a.Assign? && a.left == PathExpr(Path(false, [RESULT]))
            && a.right.Struct? && a.right.path == Path(true, SOME_SEGMENTS)
            && |a.right.fields| == 1 && a.right.fields[0].member == Unnamed(0)
            && a.right.fields[0].expr.Tuple?
            && |a.right.fields[0].expr.elems| == |Names(GenPat(bound))|
            && forall i :: 0 <= i < |bound| ==>
                 ExprIdent(a.right.fields[0].expr.elems[i]) == Some(Names(GenPat(bound))[i])
  {
  }

  // ---------------------------------------------------------------------------
  // The shape of the chain: the first queued step innermost

  /** `PatDeref::pat_deref(name)`. */
  predicate IsPatDerefCallOn(x: Expr, name: Ident) {
    x == Call(PathExpr(Path(false, ["PatDeref", "pat_deref"])), [PathExpr(Path(false, [name]))])
  }

  /**
   * `e` is, from the outside in, one `if let` per step, last-queued
   * outermost: each matches its step's pattern against `pat_deref` of its
   * step's name, has no `else`, and its block is the next step inward (as a
   * `;` statement), down to `inner`.
   */
  predicate IsNest(e: Expr, steps: seq<DerefPat>, inner: Expr)
    decreases |steps|
  {
    if steps == [] then e == inner
    else
      var d := steps[|steps| - 1];
      && e.If? && e.cond.Let? && e.cond.pat == d.pat && IsPatDerefCallOn(e.cond.scrutinee, d.ident)
      && e.elseBranch.None? && |e.thenBranch.stmts| == 1
      && e.thenBranch.stmts[0].ExprStmt? && e.thenBranch.stmts[0].semi
      && IsNest(e.thenBranch.stmts[0].expr, steps[..|steps| - 1], inner)
  }

  lemma {:induction false} NestExtend(e: Expr, q: seq<DerefPat>, d: DerefPat, x: Expr)
    requires IsNest(e, q, DerefPatToExpr(d, x))
    ensures IsNest(e, [d] + q, x)
    decreases |q|
  {
    if q == [] {
      assert [d] + q == [d];
      assert ([d] + q)[..0] == [];
    } else {
      var n := |q|;
      NestExtend(e.thenBranch.stmts[0].expr, q[..n - 1], d, x);
      assert ([d] + q)[..n] == [d] + q[..n - 1];
    }
  }

  lemma {:induction false} ChainIsNest(queue: seq<DerefPat>, inner: Expr)
    ensures IsNest(Chain(queue, inner), queue, inner)
    decreases |queue|
  {
    if queue != [] {
      ChainIsNest(queue[1..], DerefPatToExpr(queue[0], inner));
      NestExtend(Chain(queue, inner), queue[1..], queue[0], inner);
      assert [queue[0]] + queue[1..] == queue;
    }
  }

  /**
   * `gen_expr` yields a block of exactly four statements: the `PatDeref`
   * import, `let mut` result `= None;`, an `if let` (no `else`) of the
   * rewritten pattern against the original input, and the result as trailing
   * expression; inside the `if let` is the chain of deref steps, first-queued
   * innermost, whose innermost block assigns `Some((x1, ..., xn))`.
   */
  lemma GenExprShape(pat: Pat, input: Expr, bound: seq<Ident>, queue: seq<DerefPat>)
    requires queue != []
    ensures var r := GenExpr(pat, input, bound, queue);
            && r.BlockExpr? && |r.block.stmts| == 4
            && r.block.stmts[0] == ItemStmt(Use(true, UsePath("deref_pat", UseName("PatDeref"))))
            && r.block.stmts[1] == ExprStmt(Let(PIdent(false, true, RESULT, None),
                                                PathExpr(Path(true, ["core", "option", "Option", "None"]))), true)
            && r.block.stmts[3] == ExprStmt(PathExpr(Path(false, [RESULT])), false)
            && var top := r.block.stmts[2];
               && top.ExprStmt? && top.semi
               && top.expr.If? && top.expr.cond == Let(pat, input) && top.expr.elseBranch.None?
               && |top.expr.thenBranch.stmts| == 1
               && top.expr.thenBranch.stmts[0].ExprStmt? && top.expr.thenBranch.stmts[0].semi
               && IsNest(top.expr.thenBranch.stmts[0].expr, queue, AssignResult(bound))
  {
    assert Chain(queue, AssignResult(bound)) == Chain(queue[1..], DerefPatToExpr(queue[0], AssignResult(bound)));
    ChainIsNest(queue, AssignResult(bound));
  }

  // ---------------------------------------------------------------------------
  // One `if let`

  /**
   * Outside any pattern, an `if let` whose pattern has `n > 0` annotated
   * fields becomes `if let Some((bound...)) = { ... }`: the steps are named
   * `deref_pat_0` ... `deref_pat_{n-1}` (the counter restarts at zero for
   * every `if let`), all distinct, each bound before it is dereferenced; the
   * generated pattern binds the identifiers recorded so far, in order; and
   * both accumulators are emptied.
   */
  lemma LetGuardRewritten(p: Pat, x: Expr, s: St)
    requires Quiet(s) && DerefCount(p) > 0
    ensures var wp := WalkPat(p, s.(collect := true, count := 0));
            var n := DerefCount(p);
            var bound := s.boundIdents + Names(p);
            var steps := wp.st.derefPats;
            && |steps| == n
            && (forall i :: 0 <= i < n ==> steps[i].ident == NameRun(0, n)[i])
            && (forall i, j :: 0 <= i < j < n ==> steps[i].ident != steps[j].ident)
            && StepsScoped(Names(wp.node), steps)
            && WalkLetGuard(p, x, s).node == Let(GenPat(bound), GenExpr(wp.node, x, bound, steps))
            && Names(GenPat(bound)) == bound
            && WalkLetGuard(p, x, s).st == St(n, false, [], [])
  {
    var s0 := s.(collect := true, count := 0);
    var wp := WalkPat(p, s0);
    var n := DerefCount(p);
    PatStepsScoped(p, s0);
    assert wp.st.derefPats[|s0.derefPats|..] == wp.st.derefPats;
    NameRunDistinct(0, n);
  }

  /** The pattern a rewritten `if let` gets: `gen_pat` of everything recorded, its own bindings last. */
  lemma LetGuardPattern(p: Pat, x: Expr, s: St)
    requires Quiet(s) && DerefCount(p) > 0
    ensures WalkLetGuard(p, x, s).node.pat == GenPat(s.boundIdents + Names(p))
  {
  }

  /**
   * An `if let` without annotations keeps its pattern and input, but the
   * identifiers its pattern binds stay recorded (`bound_idents` is only
   * emptied by `gen_pat`), so a later rewritten `if let` binds them too.
   */
  lemma LetGuardUnannotated(p: Pat, x: Expr, s: St)
    requires Quiet(s) && DerefCount(p) == 0
    ensures WalkLetGuard(p, x, s) == Walked(Let(p, x), St(0, false, [], s.boundIdents + Names(p)))
  {
  }

  /** `if let a = e1 {}` is kept, and `a` stays recorded. */
  lemma LeakFirst(e1: Expr)
    ensures var first := If(Let(PIdent(false, false, "a", None), e1), Block([]), None);
            WalkStmts([ExprStmt(first, false)], INIT) == Walked([ExprStmt(first, false)], St(0, false, [], ["a"]))
  {
    var pa := PIdent(false, false, "a", None);
    var first := If(Let(pa, e1), Block([]), None);
    var s1 := St(0, false, [], ["a"]);
    assert Names(pa) == ["a"];
    LetGuardUnannotated(pa, e1, INIT);
    assert WalkBlock(Block([]), s1) == Walked(Block([]), s1);
    assert WalkExpr(first, INIT) == Walked(first, s1);
    assert WalkStmt(ExprStmt(first, false), INIT) == Walked(ExprStmt(first, false), s1);
    var one := [ExprStmt(first, false)];
    assert one[..0] == [] && one[|one| - 1] == ExprStmt(first, false);
    assert WalkStmts(one[..0], INIT) == Walked([], INIT);
    assert WalkStmts(one, INIT) == Walked([] + [ExprStmt(first, false)], s1);
    assert [] + [ExprStmt(first, false)] == one;
  }

  /** With `a` still recorded, `if let S { #[deref] f: b } = e2 {}` is rewritten to bind `Some((a, b))`. */
  lemma LeakSecond(e2: Expr, path: Path)
    ensures var annotated := FieldPat([Attribute(Path(false, ["deref"]), "")], "f", PIdent(false, false, "b", None));
            var w := WalkStmt(ExprStmt(If(Let(PStruct(path, [annotated]), e2), Block([]), None), false),
                              St(0, false, [], ["a"]));
            && w.node.ExprStmt? && w.node.expr.If? && w.node.expr.cond.Let?
            && w.node.expr.cond.pat == GenPat(["a", "b"])
  {
    var annotated := FieldPat([Attribute(Path(false, ["deref"]), "")], "f", PIdent(false, false, "b", None));
    var sp := PStruct(path, [annotated]);
    var s1 := St(0, false, [], ["a"]);
    assert [annotated][..0] == [];
    assert FieldNames([annotated]) == ["b"];
    assert Names(sp) == ["b"];
    assert FieldsDerefCount([annotated]) == 1;
    LetGuardPattern(sp, e2, s1);
    assert s1.boundIdents + Names(sp) == ["a", "b"];
    var g := WalkLetGuard(sp, e2, s1);
    assert g.node.Let? && g.node.pat == GenPat(["a", "b"]);
    var x := If(Let(sp, e2), Block([]), None);
    assert WalkExpr(x, s1).node.cond == g.node;
    assert WalkStmt(ExprStmt(x, false), s1).node == ExprStmt(WalkExpr(x, s1).node, false);
    var w := WalkStmt(ExprStmt(x, false), s1);
    assert w.node.expr.cond.pat == GenPat(["a", "b"]);
    assert w.node.ExprStmt? && w.node.expr.If? && w.node.expr.cond.Let?;
  }

  /**
   * The leak made concrete: after `if let a = e1 {}`, the rewrite of
   * `if let S { #[deref] f: b } = e2 {}` binds `Some((a, b))`, not `Some((b,))`.
   */
  lemma LeakExample(e1: Expr, e2: Expr, path: Path)
    ensures var first := If(Let(PIdent(false, false, "a", None), e1), Block([]), None);
            var annotated := FieldPat([Attribute(Path(false, ["deref"]), "")], "f", PIdent(false, false, "b", None));
            var second := If(Let(PStruct(path, [annotated]), e2), Block([]), None);
            var out := Transform(BlockExpr(Block([ExprStmt(first, false), ExprStmt(second, false)])));
            && out.BlockExpr? && |out.block.stmts| == 2
            && out.block.stmts[0] == ExprStmt(first, false)
            && out.block.stmts[1].ExprStmt? && out.block.stmts[1].expr.If?
            && out.block.stmts[1].expr.cond.Let?
            && out.block.stmts[1].expr.cond.pat == GenPat(["a", "b"])
  {
    var first := If(Let(PIdent(false, false, "a", None), e1), Block([]), None);
    var annotated := FieldPat([Attribute(Path(false, ["deref"]), "")], "f", PIdent(false, false, "b", None));
    var second := If(Let(PStruct(path, [annotated]), e2), Block([]), None);
    var ss := [ExprStmt(first, false), ExprStmt(second, false)];
    LeakFirst(e1);
    LeakSecond(e2, path);
    var s1 := St(0, false, [], ["a"]);
    assert ss[..1] == [ExprStmt(first, false)] && ss[1] == ExprStmt(second, false);
    var w := WalkStmt(ss[1], s1);
    assert WalkStmts(ss, INIT).node == [ExprStmt(first, false)] + [w.node];
    var out := Transform(BlockExpr(Block(ss)));
    assert WalkBlock(Block(ss), INIT).node == Block(WalkStmts(ss, INIT).node);
    assert WalkExpr(BlockExpr(Block(ss)), INIT).node == BlockExpr(WalkBlock(Block(ss), INIT).node);
    assert out == BlockExpr(Block(WalkStmts(ss, INIT).node));
    assert out.block.stmts[1] == w.node;
  }

  // ---------------------------------------------------------------------------
  // Without annotations the rewrite is the identity

  lemma {:induction false} ExprUnchanged(e: Expr, s: St)
    requires Quiet(s) && AllIfLets(e, Unannotated)
    ensures WalkExpr(e, s).node == e
    decreases e, 1
  {
    match e
    case If(cond, thenBranch, elseBranch) =>
      var w1 := if cond.Let? then WalkLetGuard(cond.pat, cond.scrutinee, s) else WalkExpr(cond, s);
      if cond.Let? {
        LetGuardUnannotated(cond.pat, cond.scrutinee, s);
      } else {
        ExprUnchanged(cond, s);
      }
      BlockUnchanged(thenBranch, w1.st);
      var w2 := WalkBlock(thenBranch, w1.st);
      if elseBranch.Some? {
        ExprUnchanged(elseBranch.value, w2.st);
      }
    case Let(p, x) => ExprUnchanged(x, s);
    case BlockExpr(b) => BlockUnchanged(b, s);
    case Call(func, args) =>
      ExprUnchanged(func, s);
      ExprsUnchanged(args, WalkExpr(func, s).st);
    case PathExpr(_) =>
    case Assign(left, right) =>
      ExprUnchanged(left, s);
      ExprUnchanged(right, WalkExpr(left, s).st);
    case Tuple(elems) => ExprsUnchanged(elems, s);
    case Struct(path, fields) => FieldValuesUnchanged(fields, s);
    case Lit(_) =>
  }

  lemma {:induction false} ExprsUnchanged(es: seq<Expr>, s: St)
    requires Quiet(s) && forall i | 0 <= i < |es| :: AllIfLets(es[i], Unannotated)
    ensures WalkExprs(es, s).node == es
    decreases es, 0
  {
    if es != [] {
      var n := |es|;
      ExprsUnchanged(es[..n - 1], s);
      ExprUnchanged(es[n - 1], WalkExprs(es[..n - 1], s).st);
      assert es == es[..n - 1] + [es[n - 1]];
    }
  }

  lemma {:induction false} FieldValuesUnchanged(fs: seq<FieldValue>, s: St)
    requires Quiet(s) && forall i | 0 <= i < |fs| :: FieldValueIfLets(fs[i], Unannotated)
    ensures WalkFieldValues(fs, s).node == fs
    decreases fs, 0
  {
    if fs != [] {
      var n := |fs|;
      FieldValuesUnchanged(fs[..n - 1], s);
      FieldValueUnchanged(fs[n - 1], WalkFieldValues(fs[..n - 1], s).st);
      assert fs == fs[..n - 1] + [fs[n - 1]];
    }
  }

  lemma {:induction false} FieldValueUnchanged(f: FieldValue, s: St)
    requires Quiet(s) && FieldValueIfLets(f, Unannotated)
    ensures WalkFieldValue(f, s).node == f
    decreases f, 2
  {
    ExprUnchanged(f.expr, s);
  }

  lemma {:induction false} BlockUnchanged(b: Block, s: St)
    requires Quiet(s) && BlockIfLets(b, Unannotated)
    ensures WalkBlock(b, s).node == b
    decreases b, 1
  {
    StmtsUnchanged(b.stmts, s);
  }

  lemma {:induction false} StmtsUnchanged(ss: seq<Stmt>, s: St)
    requires Quiet(s) && forall i | 0 <= i < |ss| :: StmtIfLets(ss[i], Unannotated)
    ensures WalkStmts(ss, s).node == ss
    decreases ss, 0
  {
    if ss != [] {
      var n := |ss|;
      StmtsUnchanged(ss[..n - 1], s);
      StmtUnchanged(ss[n - 1], WalkStmts(ss[..n - 1], s).st);
      assert ss == ss[..n - 1] + [ss[n - 1]];
    }
  }

  lemma {:induction false} StmtUnchanged(st: Stmt, s: St)
    requires Quiet(s) && StmtIfLets(st, Unannotated)
    ensures WalkStmt(st, s).node == st
    decreases st, 2
  {
    match st
    case Local(p, init) =>
      if init.Some? {
        ExprUnchanged(init.value, WalkPat(p, s).st);
      }
    case ItemStmt(_) =>
    case ExprStmt(x, semi) => ExprUnchanged(x, s);
  }

  /** An expression none of whose `if let` patterns carries `#[deref]` comes out of `transform` unchanged. */
  lemma TransformUnannotated(e: Expr)
    requires AllIfLets(e, Unannotated)
    ensures Transform(e) == e
  {
    ExprUnchanged(e, INIT);
  }
}
