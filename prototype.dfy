/**
 * The prototype's `Transformer`: the same visitor fields as the macro
 * crate's, with the prototype's overrides. Every visit method is proved to
 * compute the matching function of module `ProtoDesugar`.
 */
module Prototype {
  import opened Syntax
  import opened Idents
  import opened Util
  import opened Visit
  import opened ProtoDesugar

  class Transformer {
    const idents: IdentGen
    var collect: bool
    var derefPats: seq<DerefPat>
    var boundIdents: seq<Ident>

    /** The transformer's fields as a value. */
    function State(): St
      reads this, idents
    {
      St(idents.count, collect, derefPats, boundIdents)
    }

    /** `Transformer::default()`. */
    constructor ()
      ensures fresh(idents)
      ensures State() == INIT
    {
      idents := new IdentGen();
      collect := false;
      derefPats := [];
      boundIdents := [];
    }

    /** `gen_pat`: drain the recorded identifiers into `Some(x1, ..., xn)`. */
    method GenPat() returns (r: Pat)
      modifies this
      ensures r == ProtoDesugar.GenPat(old(boundIdents))
      ensures boundIdents == [] && collect == old(collect) && derefPats == old(derefPats)
    {
      var elems := BindingPats(boundIdents);
      boundIdents := [];
      r := PTupleStruct(CreatePath(SOME_SEGMENTS, true), elems);
    }

    /** `visit_expr_mut`, dispatching `if` expressions to `VisitExprIf`. */
    method VisitExpr(e: Expr) returns (r: Expr)
      requires !collect && AllIfLets(e, CountFits)
      modifies this, idents
      ensures Walked(r, State()) == WalkExpr(e, old(State()))
      decreases e, 2
    {
      match e
      case If(_, _, _) =>
        r := VisitExprIf(e);
      case Let(p, x) =>
        var p' := VisitPat(p);
        var x' := VisitExpr(x);
        r := Let(p', x');
      case BlockExpr(b) =>
        var b' := VisitBlock(b);
        r := BlockExpr(b');
      case Call(func, args) =>
        var func' := VisitExpr(func);
        var args' := VisitExprs(args);
        r := Call(func', args');
      case PathExpr(_) =>
        r := e;
      case Assign(left, right) =>
        var left' := VisitExpr(left);
        var right' := VisitExpr(right);
        r := Assign(left', right');
      case Tuple(elems) =>
        var elems' := VisitExprs(elems);
        r := Tuple(elems');
      case Struct(path, fields) =>
        var fields' := VisitFieldValues(fields);
        r := Struct(path, fields');
      case Lit(_) =>
        r := e;
    }

    /**
     * `visit_expr_if_mut`: an `if let` has its pattern collected (and, when the
     * queue is non-empty, its pattern and input replaced); any other condition
     * is visited as an expression. Both branches are visited after.
     */
    method VisitExprIf(e: Expr) returns (r: Expr)
      requires e.If?
      requires !collect && AllIfLets(e, CountFits)
      modifies this, idents
      ensures Walked(r, State()) == WalkExpr(e, old(State()))
      decreases e, 1
    {
      var cond := e.cond;
      if cond.Let? {
        var saved := collect;
        collect := true;
        idents.Reset();
        var pat := VisitPat(cond.pat);
        var input := cond.scrutinee;
        if derefPats != [] {
          pat := GenPat();
          input := GenExpr();
        }
        collect := saved;
        cond := Let(pat, input);
      } else {
        cond := VisitExpr(cond);
      }
      var thenBranch := VisitBlock(e.thenBranch);
      var elseBranch := e.elseBranch;
      if elseBranch.Some? {
        var x := VisitExpr(elseBranch.value);
        elseBranch := Some(x);
      }
      r := If(cond, thenBranch, elseBranch);
    }

    method VisitExprs(es: seq<Expr>) returns (r: seq<Expr>)
      requires !collect && forall i | 0 <= i < |es| :: AllIfLets(es[i], CountFits)
      modifies this, idents
      ensures Walked(r, State()) == WalkExprs(es, old(State()))
      decreases es, 0
    {
      r := [];
      var i := 0;
      while i < |es|
        invariant 0 <= i <= |es| && !collect
        invariant Walked(r, State()) == WalkExprs(es[..i], old(State()))
      {
        assert es[..i + 1][..i] == es[..i];
        var x := VisitExpr(es[i]);
        r := r + [x];
        i := i + 1;
      }
      assert es[..i] == es;
    }

    method VisitFieldValues(fs: seq<FieldValue>) returns (r: seq<FieldValue>)
      requires !collect && forall i | 0 <= i < |fs| :: FieldValueIfLets(fs[i], CountFits)
      modifies this, idents
      ensures Walked(r, State()) == WalkFieldValues(fs, old(State()))
      decreases fs, 0
    {
      r := [];
      var i := 0;
      while i < |fs|
        invariant 0 <= i <= |fs| && !collect
        invariant Walked(r, State()) == WalkFieldValues(fs[..i], old(State()))
      {
        assert fs[..i + 1][..i] == fs[..i];
        var x := VisitFieldValue(fs[i]);
        r := r + [x];
        i := i + 1;
      }
      assert fs[..i] == fs;
    }

    method VisitFieldValue(f: FieldValue) returns (r: FieldValue)
      requires !collect && FieldValueIfLets(f, CountFits)
      modifies this, idents
      ensures Walked(r, State()) == WalkFieldValue(f, old(State()))
      decreases f, 3
    {
      var x := VisitExpr(f.expr);
      r := f.(expr := x);
    }

    /** `visit_block_mut`. */
    method VisitBlock(b: Block) returns (r: Block)
      requires !collect && BlockIfLets(b, CountFits)
      modifies this, idents
      ensures Walked(r, State()) == WalkBlock(b, old(State()))
      decreases b, 2
    {
      var stmts := VisitStmts(b.stmts);
      r := Block(stmts);
    }

    method VisitStmts(ss: seq<Stmt>) returns (r: seq<Stmt>)
      requires !collect && forall i | 0 <= i < |ss| :: StmtIfLets(ss[i], CountFits)
      modifies this, idents
      ensures Walked(r, State()) == WalkStmts(ss, old(State()))
      decreases ss, 0
    {
      r := [];
      var i := 0;
      while i < |ss|
        invariant 0 <= i <= |ss| && !collect
        invariant Walked(r, State()) == WalkStmts(ss[..i], old(State()))
      {
        assert ss[..i + 1][..i] == ss[..i];
        var x := VisitStmt(ss[i]);
        r := r + [x];
        i := i + 1;
      }
      assert ss[..i] == ss;
    }

    /** `visit_stmt_mut`. */
    method VisitStmt(st: Stmt) returns (r: Stmt)
      requires !collect && StmtIfLets(st, CountFits)
      modifies this, idents
      ensures Walked(r, State()) == WalkStmt(st, old(State()))
      decreases st, 3
    {
      match st
      case Local(p, init) =>
        var p' := VisitPat(p);
        if init.Some? {
          var x := VisitExpr(init.value);
          r := Local(p', Some(x));
        } else {
          r := Local(p', None);
        }
      case ItemStmt(_) =>
        r := st;
      case ExprStmt(x, semi) =>
        var x' := VisitExpr(x);
        r := ExprStmt(x', semi);
    }

    /** `visit_pat_mut`, dispatching bindings and fields to the overridden visits. */
    method VisitPat(p: Pat) returns (r: Pat)
      requires collect ==> idents.count + DerefCount(p) <= U64_MAX
      modifies this, idents
      ensures Walked(r, State()) == WalkPat(p, old(State()))
      decreases p, 1
    {
      match p
      case PIdent(_, _, _, _) =>
        r := VisitPatIdent(p);
      case PStruct(path, fields) =>
        var fields' := VisitFieldPats(fields);
        r := PStruct(path, fields');
      case PTuple(elems) =>
        var elems' := VisitPats(elems);
        r := PTuple(elems');
      case PTupleStruct(path, elems) =>
        var elems' := VisitPats(elems);
        r := PTupleStruct(path, elems');
      case PPath(_) =>
        r := p;
      case PLit(_) =>
        r := p;
      case PWild =>
        r := p;
    }

    method VisitPats(ps: seq<Pat>) returns (r: seq<Pat>)
      requires collect ==> idents.count + PatsDerefCount(ps) <= U64_MAX
      modifies this, idents
      ensures Walked(r, State()) == WalkPats(ps, old(State()))
      decreases ps, 0
    {
      r := [];
      var i := 0;
      while i < |ps|
        invariant 0 <= i <= |ps|
        invariant Walked(r, State()) == WalkPats(ps[..i], old(State()))
      {
        WalkPatsSnoc(ps, i, old(State()));
        PatsDerefCountPrefix(ps, i + 1);
        var x := VisitPat(ps[i]);
        r := r + [x];
        i := i + 1;
      }
      assert ps[..i] == ps;
    }

    method VisitFieldPats(fs: seq<FieldPat>) returns (r: seq<FieldPat>)
      requires collect ==> idents.count + FieldsDerefCount(fs) <= U64_MAX
      modifies this, idents
      ensures Walked(r, State()) == WalkFields(fs, old(State()))
      decreases fs, 0
    {
      r := [];
      var i := 0;
      while i < |fs|
        invariant 0 <= i <= |fs|
        invariant Walked(r, State()) == WalkFields(fs[..i], old(State()))
      {
        WalkFieldsSnoc(fs, i, old(State()));
        FieldsDerefCountPrefix(fs, i + 1);
        var x := VisitFieldPat(fs[i]);
        r := r + [x];
        i := i + 1;
      }
      assert fs[..i] == fs;
    }

    /**
     * `visit_field_pat_mut`: while collecting, a `#[deref]` field has its
     * pattern replaced by a fresh binding and queued before anything inside
     * it is visited; the default visit then reaches only that binding, and
     * `visit_pat_ident_mut` records it. Other fields have their pattern visited.
     */
    method VisitFieldPat(f: FieldPat) returns (r: FieldPat)
      requires collect ==> idents.count + FieldDerefCount(f) <= U64_MAX
      modifies this, idents
      ensures Walked(r, State()) == WalkField(f, old(State()))
      decreases f, 3
    {
      if collect {
        var pos := DerefPosition(f.attrs);
        if pos.Some? {
          var attrs := RemoveAt(f.attrs, pos.value);
          var ident := idents.Next();
          var displaced := f.pat;
          r := FieldPat(attrs, f.member, PIdent(false, false, ident, None));
          derefPats := derefPats + [DerefPat(ident, displaced)];
          boundIdents := boundIdents + [ident];
          return;
        }
      }
      var sub := VisitPat(f.pat);
      r := f.(pat := sub);
    }

    /** `visit_pat_ident_mut`: record the binding while collecting; its sub-pattern is visited either way. */
    method VisitPatIdent(p: Pat) returns (r: Pat)
      requires p.PIdent?
      requires collect ==> idents.count + DerefCount(p) <= U64_MAX
      modifies this, idents
      ensures Walked(r, State()) == WalkPatIdent(p, old(State()))
      decreases p, 0
    {
      r := p;
      if collect {
        boundIdents := boundIdents + [p.name];
      }
      if p.subpat.Some? {
        var q := VisitPat(p.subpat.value);
        r := p.(subpat := Some(q));
      }
    }
  }

  /** The prototype's `transform`. */
  method Transform(e: Expr) returns (r: Expr)
    requires AllIfLets(e, CountFits)
    ensures r == ProtoDesugar.Transform(e)
  {
    var t := new Transformer();
    r := t.VisitExpr(e);
  }
}
