/**
 * The macro crate's `Transformer`: a visitor whose fields change as it walks
 * the tree and which rewrites nodes in place (each `mem::replace` is a new
 * node returned to the caller). Every visit method is proved to compute the
 * matching function of module `Desugar`, both the rewritten node and the
 * transformer's fields afterwards.
 */
module Transform {
  import opened Syntax
  import opened Idents
  import opened Util
  import opened Visit
  import opened Desugar

  class Transformer {
    const idents: IdentGen
    var collect: bool
    var derefPats: seq<DerefPat>
    var boundIdents: seq<Ident>

    /** The transformer's fields as a value. */
    function State(): St
      reads this, idents
    {
      St(idents.count, collect, derefPats, boundIdents)
    }

    /** `Transformer::default()`. */
    constructor ()
      ensures fresh(idents)
      ensures State() == INIT
    {
      idents := new IdentGen();
      collect := false;
      derefPats := [];
      boundIdents := [];
    }

    /** `gen_expr`: build the replacement input and drain both accumulators. */
    method GenExpr(pat: Pat, input: Expr) returns (r: Expr)
      requires derefPats != []
      modifies this
      ensures r == Desugar.GenExpr(pat, input, old(boundIdents), old(derefPats))
      ensures derefPats == [] && boundIdents == [] && collect == old(collect)
    {
      var useItem := CreateImport(CRATE_NAME);
      var decl := Let(PIdent(false, true, CreateIdent(RESULT), None), PathIntoExpr(CreatePath(NONE_SEGMENTS, true)));
      var result := PathIntoExpr(CreatePath([RESULT], false));
      var values := IdentExprs(boundIdents);
      boundIdents := [];
      var assign := Assign(
        PathIntoExpr(CreatePath([RESULT], false)),
        Struct(CreatePath(SOME_SEGMENTS, true), [FieldValue(Unnamed(0), Tuple(values))]));

      var first := derefPats[0];
      derefPats := derefPats[1..];
      var innerIfLet := DerefPatToExpr(first, assign);
      while derefPats != []
        invariant Chain(derefPats, innerIfLet) == Chain(old(derefPats)[1..], DerefPatToExpr(first, assign))
        invariant boundIdents == [] && collect == old(collect)
        decreases |derefPats|
      {
        var d := derefPats[0];
        derefPats := derefPats[1..];
        innerIfLet := DerefPatToExpr(d, innerIfLet);
      }

      var topIfLet := CreateIfLet(pat, input, [IntoSemiStmt(innerIfLet)], None);
      r := BlockExpr(Block([useItem, IntoSemiStmt(decl), IntoSemiStmt(topIfLet), IntoExprStmt(result)]));
    }

    /** `visit_expr_mut`, dispatching `if` expressions to `VisitExprIf`. */
    method VisitExpr(e: Expr) returns (r: Expr)
      requires !collect && AllIfLets(e, CountFits)
      modifies this, idents
      ensures Walked(r, State()) == WalkExpr(e, old(State()))
      decreases e, 2
    {
      match e
      case If(_, _, _) =>
        r := VisitExprIf(e);
      case Let(p, x) =>
        var p' := VisitPat(p);
        var x' := VisitExpr(x);
        r := Let(p', x');
      case BlockExpr(b) =>
        var b' := VisitBlock(b);
        r := BlockExpr(b');
      case Call(func, args) =>
        var func' := VisitExpr(func);
        var args' := VisitExprs(args);
        r := Call(func', args');
      case PathExpr(_) =>
        r := e;
      case Assign(left, right) =>
        var left' := VisitExpr(left);
        var right' := VisitExpr(right);
        r := Assign(left', right');
      case Tuple(elems) =>
        var elems' := VisitExprs(elems);
        r := Tuple(elems');
      case Struct(path, fields) =>
        var fields' := VisitFieldValues(fields);
        r := Struct(path, fields');
      case Lit(_) =>
        r := e;
    }

    /**
     * `visit_expr_if_mut`: an `if let` has its pattern collected (and, when an
     * annotation was found, its pattern and input replaced); any other
     * condition is visited as an expression. Both branches are visited after.
     */
    method VisitExprIf(e: Expr) returns (r: Expr)
      requires e.If?
      requires !collect && AllIfLets(e, CountFits)
      modifies this, idents
      ensures Walked(r, State()) == WalkExpr(e, old(State()))
      decreases e, 1
    {
      var cond := e.cond;
      if cond.Let? {
        var saved := collect;
        collect := true;
        idents.Reset();
        var pat := VisitPat(cond.pat);
        var input := cond.scrutinee;
        if derefPats != [] {
          var displaced := pat;
          pat := GenPat(boundIdents);
          input := GenExpr(displaced, input);
        }
        collect := saved;
        cond := Let(pat, input);
      } else {
        cond := VisitExpr(cond);
      }
      var thenBranch := VisitBlock(e.thenBranch);
      var elseBranch := e.elseBranch;
      if elseBranch.Some? {
        var x := VisitExpr(elseBranch.value);
        elseBranch := Some(x);
      }
      r := If(cond, thenBranch, elseBranch);
    }

    method VisitExprs(es: seq<Expr>) returns (r: seq<Expr>)
      requires !collect && forall i | 0 <= i < |es| :: AllIfLets(es[i], CountFits)
      modifies this, idents
      ensures Walked(r, State()) == WalkExprs(es, old(State()))
      decreases es, 0
    {
      r := [];
      var i := 0;
      while i < |es|
        invariant 0 <= i <= |es| && !collect
        invariant Walked(r, State()) == WalkExprs(es[..i], old(State()))
      {
        assert es[..i + 1][..i] == es[..i];
        var x := VisitExpr(es[i]);
        r := r + [x];
        i := i + 1;
      }
      assert es[..i] == es;
    }

    method VisitFieldValues(fs: seq<FieldValue>) returns (r: seq<FieldValue>)
      requires !collect && forall i | 0 <= i < |fs| :: FieldValueIfLets(fs[i], CountFits)
      modifies this, idents
      ensures Walked(r, State()) == WalkFieldValues(fs, old(State()))
      decreases fs, 0
    {
      r := [];
      var i := 0;
      while i < |fs|
        invariant 0 <= i <= |fs| && !collect
        invariant Walked(r, State()) == WalkFieldValues(fs[..i], old(State()))
      {
        assert fs[..i + 1][..i] == fs[..i];
        var x := VisitFieldValue(fs[i]);
        r := r + [x];
        i := i + 1;
      }
      assert fs[..i] == fs;
    }

    method VisitFieldValue(f: FieldValue) returns (r: FieldValue)
      requires !collect && FieldValueIfLets(f, CountFits)
      modifies this, idents
      ensures Walked(r, State()) == WalkFieldValue(f, old(State()))
      decreases f, 3
    {
      var x := VisitExpr(f.expr);
      r := f.(expr := x);
    }

    /** `visit_block_mut`. */
    method VisitBlock(b: Block) returns (r: Block)
      requires !collect && BlockIfLets(b, CountFits)
      modifies this, idents
      ensures Walked(r, State()) == WalkBlock(b, old(State()))
      decreases b, 2
    {
      var stmts := VisitStmts(b.stmts);
      r := Block(stmts);
    }

    method VisitStmts(ss: seq<Stmt>) returns (r: seq<Stmt>)
      requires !collect && forall i | 0 <= i < |ss| :: StmtIfLets(ss[i], CountFits)
      modifies this, idents
      ensures Walked(r, State()) == WalkStmts(ss, old(State()))
      decreases ss, 0
    {
      r := [];
      var i := 0;
      while i < |ss|
        invariant 0 <= i <= |ss| && !collect
        invariant Walked(r, State()) == WalkStmts(ss[..i], old(State()))
      {
        assert ss[..i + 1][..i] == ss[..i];
        var x := VisitStmt(ss[i]);
        r := r + [x];
        i := i + 1;
      }
      assert ss[..i] == ss;
    }

    /** `visit_stmt_mut`. */
    method VisitStmt(st: Stmt) returns (r: Stmt)
      requires !collect && StmtIfLets(st, CountFits)
      modifies this, idents
      ensures Walked(r, State()) == WalkStmt(st, old(State()))
      decreases st, 3
    {
      match st
      case Local(p, init) =>
        var p' := VisitPat(p);
        if init.Some? {
          var x := VisitExpr(init.value);
          r := Local(p', Some(x));
        } else {
          r := Local(p', None);
        }
      case ItemStmt(_) =>
        r := st;
      case ExprStmt(x, semi) =>
        var x' := VisitExpr(x);
        r := ExprStmt(x', semi);
    }

    /** `visit_pat_mut`, dispatching bindings and fields to the overridden visits. */
    method VisitPat(p: Pat) returns (r: Pat)
      requires collect ==> idents.count + DerefCount(p) <= U64_MAX
      modifies this, idents
      ensures Walked(r, State()) == WalkPat(p, old(State()))
      decreases p, 1
    {
      match p
      case PIdent(_, _, _, _) =>
        r := VisitPatIdent(p);
      case PStruct(path, fields) =>
        var fields' := VisitFieldPats(fields);
        r := PStruct(path, fields');
      case PTuple(elems) =>
        var elems' := VisitPats(elems);
        r := PTuple(elems');
      case PTupleStruct(path, elems) =>
        var elems' := VisitPats(elems);
        r := PTupleStruct(path, elems');
      case PPath(_) =>
        r := p;
      case PLit(_) =>
        r := p;
      case PWild =>
        r := p;
    }

    method VisitPats(ps: seq<Pat>) returns (r: seq<Pat>)
      requires collect ==> idents.count + PatsDerefCount(ps) <= U64_MAX
      modifies this, idents
      ensures Walked(r, State()) == WalkPats(ps, old(State()))
      decreases ps, 0
    {
      r := [];
      var i := 0;
      while i < |ps|
        invariant 0 <= i <= |ps|
        invariant Walked(r, State()) == WalkPats(ps[..i], old(State()))
      {
        WalkPatsSnoc(ps, i, old(State()));
        PatsDerefCountPrefix(ps, i + 1);
        var x := VisitPat(ps[i]);
        r := r + [x];
        i := i + 1;
      }
      assert ps[..i] == ps;
    }

    method VisitFieldPats(fs: seq<FieldPat>) returns (r: seq<FieldPat>)
      requires collect ==> idents.count + FieldsDerefCount(fs) <= U64_MAX
      modifies this, idents
      ensures Walked(r, State()) == WalkFields(fs, old(State()))
      decreases fs, 0
    {
      r := [];
      var i := 0;
      while i < |fs|
        invariant 0 <= i <= |fs|
        invariant Walked(r, State()) == WalkFields(fs[..i], old(State()))
      {
        WalkFieldsSnoc(fs, i, old(State()));
        FieldsDerefCountPrefix(fs, i + 1);
        var x := VisitFieldPat(fs[i]);
        r := r + [x];
        i := i + 1;
      }
      assert fs[..i] == fs;
    }

    /**
     * `visit_field_pat_mut`: visit the sub-pattern, then, while collecting,
     * replace a `#[deref]` field's pattern by a fresh binding and queue the
     * displaced pattern.
     */
    method VisitFieldPat(f: FieldPat) returns (r: FieldPat)
      requires collect ==> idents.count + FieldDerefCount(f) <= U64_MAX
      modifies this, idents
      ensures Walked(r, State()) == WalkField(f, old(State()))
      decreases f, 3
    {
      var sub := VisitPat(f.pat);
      r := f.(pat := sub);
      if collect {
        var pos := DerefPosition(r.attrs);
        if pos.Some? {
          var attrs := RemoveAt(r.attrs, pos.value);
          var ident := idents.Next();
          var displaced := r.pat;
          r := FieldPat(attrs, r.member, PIdent(false, false, ident, None));
          derefPats := derefPats + [DerefPat(ident, displaced)];
        }
      }
    }

    /** `visit_pat_ident_mut`: record the binding while collecting, then visit its sub-pattern. */
    method VisitPatIdent(p: Pat) returns (r: Pat)
      requires p.PIdent?
      requires collect ==> idents.count + DerefCount(p) <= U64_MAX
      modifies this, idents
      ensures Walked(r, State()) == WalkPatIdent(p, old(State()))
      decreases p, 0
    {
      r := p;
      if collect {
        boundIdents := boundIdents + [p.name];
      }
      if p.subpat.Some? {
        var q := VisitPat(p.subpat.value);
        r := p.(subpat := Some(q));
      }
    }
  }

  /** `transform`: rewrite every `if let` carrying `#[deref]` fields. */
  method Transform(e: Expr) returns (r: Expr)
    requires AllIfLets(e, CountFits)
    ensures r == Desugar.Transform(e)
  {
    var t := new Transformer();
    r := t.VisitExpr(e);
  }
}
