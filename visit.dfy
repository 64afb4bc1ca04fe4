/**
 * What the macro crate's `Transformer` and the prototype's share: the
 * visitor's fields as a value, how a walk over a pattern extends them, the
 * `#[deref]` attribute test, and conditions on every `if let` a walk reaches.
 */
module Visit {
  import opened Syntax
  import opened Idents
  import opened Util

  /** A queued step: the synthetic name and the sub-pattern it displaced (`DerefPat`). */
  datatype DerefPat = DerefPat(ident: Ident, pat: Pat)

  /**
   * The fields of `Transformer`: the name counter of `idents`, the `collect`
   * flag, the `deref_pats` queue (front first) and `bound_idents`.
   */
  datatype St = St(count: nat, collect: bool, derefPats: seq<DerefPat>, boundIdents: seq<Ident>)

  /** A rewritten node and the state after rewriting it. */
  datatype Walked<T> = Walked(node: T, st: St)

  /** The state `Transformer::default()` starts from. */
  const INIT: St := St(0, false, [], [])

  const SOME_SEGMENTS: seq<string> := ["core", "option", "Option", "Some"]
  const NONE_SEGMENTS: seq<string> := ["core", "option", "Option", "None"]

  // ---------------------------------------------------------------------------
  // Attributes

  /** `attr.path.is_ident("deref")`: the path is the single, relative segment `deref`. */
  predicate IsDeref(a: Attribute) {
    a.path == Path(false, ["deref"])
  }

  /** `attrs.iter().position(|attr| attr.path.is_ident("deref"))`. */
  function DerefPosition(attrs: seq<Attribute>): (r: Option<nat>)
    ensures r.Some? ==> r.value < |attrs| && IsDeref(attrs[r.value])
    ensures r.Some? ==> forall j :: 0 <= j < r.value ==> !IsDeref(attrs[j])
    ensures r.None? ==> forall j :: 0 <= j < |attrs| ==> !IsDeref(attrs[j])
  {
    if attrs == [] then None
    else if IsDeref(attrs[0]) then Some(0)
    else match DerefPosition(attrs[1..])
      case None => None
      case Some(i) => Some(i + 1)
  }

  /** `Vec::remove(pos)`: the sequence without its element at `pos`. */
  function RemoveAt<T>(xs: seq<T>, pos: nat): (r: seq<T>)
    requires pos < |xs|
    ensures |r| == |xs| - 1
    ensures forall j :: 0 <= j < pos ==> r[j] == xs[j]
    ensures forall j :: pos <= j < |r| ==> r[j] == xs[j + 1]
  {
    xs[..pos] + xs[pos + 1..]
  }

  /** Whether a field pattern carries `#[deref]`. */
  predicate Annotated(f: FieldPat) {
    DerefPosition(f.attrs).Some?
  }

  // ---------------------------------------------------------------------------
  // How a pattern walk changes the state

  /**
   * While collecting, a walk over a pattern with `n` annotations and bindings
   * `names` queues `n` steps named by the next `n` counter values, behind the
   * steps already queued, and records `names` after the identifiers already
   * recorded.
   */
  predicate Extends(s: St, t: St, n: nat, names: seq<Ident>) {
    && t.collect == s.collect
    && t.count == s.count + n
    && |t.derefPats| == |s.derefPats| + n
    && t.derefPats[..|s.derefPats|] == s.derefPats
    && (forall i :: |s.derefPats| <= i < |t.derefPats| ==> t.derefPats[i].ident == Name(s.count + (i - |s.derefPats|)))
    && t.boundIdents == s.boundIdents + names
  }

  lemma ExtendsTrans(s: St, t: St, u: St, n: nat, m: nat, a: seq<Ident>, b: seq<Ident>)
    requires Extends(s, t, n, a) && Extends(t, u, m, b)
    ensures Extends(s, u, n + m, a + b)
  {
    assert u.derefPats[..|s.derefPats|] == u.derefPats[..|t.derefPats|][..|s.derefPats|];
    forall i | |s.derefPats| <= i < |u.derefPats|
      ensures u.derefPats[i].ident == Name(s.count + (i - |s.derefPats|))
    {
      if i < |t.derefPats| {
        assert u.derefPats[i] == u.derefPats[..|t.derefPats|][i];
      }
    }
  }

  /** The plain bindings `x1, ..., xn` of the given names. */
  function BindingPats(names: seq<Ident>): (r: seq<Pat>)
    ensures |r| == |names|
    ensures forall i :: 0 <= i < |names| ==> r[i] == PIdent(false, false, names[i], None)
  {
    seq(|names|, i requires 0 <= i < |names| => PIdent(false, false, names[i], None))
  }

  /** The bindings bind the given names, in order. */
  lemma {:induction false} BindingPatsNames(names: seq<Ident>)
    ensures PatsNames(BindingPats(names)) == names
  {
    if names != [] {
      var n := |names|;
      BindingPatsNames(names[..n - 1]);
      assert BindingPats(names)[..n - 1] == BindingPats(names[..n - 1]);
      assert names == names[..n - 1] + [names[n - 1]];
    }
  }

  // ---------------------------------------------------------------------------
  // Conditions on every `if let` the walk rewrites

  /**
   * `ok` holds of the pattern of every `if let` the walk reaches. The walk
   * does not enter the input expression of an `if let`, nor items.
   */
  predicate AllIfLets(e: Expr, ok: Pat -> bool)
    decreases e, 1
  {
    match e
    case If(cond, thenBranch, elseBranch) =>
      && (if cond.Let? then ok(cond.pat) else AllIfLets(cond, ok))
      && BlockIfLets(thenBranch, ok)
      && (match elseBranch case None => true case Some(x) => AllIfLets(x, ok))
    case Let(_, x) => AllIfLets(x, ok)
    case BlockExpr(b) => BlockIfLets(b, ok)
    case Call(func, args) => AllIfLets(func, ok) && forall i | 0 <= i < |args| :: AllIfLets(args[i], ok)
    case PathExpr(_) => true
    case Assign(left, right) => AllIfLets(left, ok) && AllIfLets(right, ok)
    case Tuple(elems) => forall i | 0 <= i < |elems| :: AllIfLets(elems[i], ok)
    case Struct(_, fields) => forall i | 0 <= i < |fields| :: FieldValueIfLets(fields[i], ok)
    case Lit(_) => true
  }

  predicate FieldValueIfLets(f: FieldValue, ok: Pat -> bool)
    decreases f, 2
  {
    AllIfLets(f.expr, ok)
  }

  predicate BlockIfLets(b: Block, ok: Pat -> bool)
    decreases b, 1
  {
    forall i | 0 <= i < |b.stmts| :: StmtIfLets(b.stmts[i], ok)
  }

  predicate StmtIfLets(st: Stmt, ok: Pat -> bool)
    decreases st, 2
  {
    match st
    case Local(_, init) => (match init case None => true case Some(x) => AllIfLets(x, ok))
    case ItemStmt(_) => true
    case ExprStmt(x, _) => AllIfLets(x, ok)
  }

}
