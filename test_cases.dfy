/**
 * The `if let` of each crate's test, rewritten: the pattern
 * `Tree::Node { #[deref] left: Tree::Node { #[deref] left: leaf @ Tree::Leaf,
 * right: sibling }, right: other_tree }` under the macro, and
 * `Tree::Node { left, #[deref] right: Tree::Node { #[deref] left: leaf @
 * Tree::Leaf, right } }` under the prototype.
 */
module TestCases {
  import opened Syntax
  import opened Idents
  import opened Visit
  import Desugar
  import DesugarFacts
  import ProtoDesugar

  const NODE: Path := Path(false, ["Tree", "Node"])
  const LEAF: Path := Path(false, ["Tree", "Leaf"])
  const DEREF: Attribute := Attribute(Path(false, ["deref"]), "")

  function Bind(name: Ident): Pat {
    PIdent(false, false, name, None)
  }

  /** `leaf @ Tree::Leaf`. */
  function LeafPat(): Pat {
    PIdent(false, false, "leaf", Some(PPath(LEAF)))
  }

  // ---------------------------------------------------------------------------
  // The macro crate's test

  /** A field whose only attribute is `#[deref]`, walked while collecting. */
  lemma MacroDerefFieldWalk(member: Ident, p: Pat, s: St)
    requires s.collect
    ensures var sub := Desugar.WalkPat(p, s);
            var name := Name(sub.st.count);
            Desugar.WalkField(FieldPat([DEREF], member, p), s) ==
            Walked(FieldPat([], member, Bind(name)),
                   sub.st.(count := sub.st.count + 1, derefPats := sub.st.derefPats + [DerefPat(name, sub.node)]))
  {
    assert DerefPosition([DEREF]) == Some(0);
    assert RemoveAt([DEREF], 0) == [];
  }

  /** A field without attributes: only its pattern is walked. */
  lemma MacroPlainFieldWalk(member: Ident, p: Pat, s: St)
    ensures var sub := Desugar.WalkPat(p, s);
            Desugar.WalkField(FieldPat([], member, p), s) == Walked(FieldPat([], member, sub.node), sub.st)
  {
    assert DerefPosition([]) == None;
  }

  /** A two-field struct pattern is walked field by field, left to right. */
  lemma MacroPairWalk(path: Path, a: FieldPat, b: FieldPat, s: St)
    ensures var wa := Desugar.WalkField(a, s);
            var wb := Desugar.WalkField(b, wa.st);
            Desugar.WalkPat(PStruct(path, [a, b]), s) == Walked(PStruct(path, [wa.node, wb.node]), wb.st)
  {
    assert [a, b][..1] == [a] && [a][..0] == [];
    var wa := Desugar.WalkField(a, s);
    assert Desugar.WalkFields([a], s) == Walked([] + [wa.node], wa.st);
    assert [] + [wa.node] == [wa.node];
    var wb := Desugar.WalkField(b, wa.st);
    assert Desugar.WalkFields([a, b], s) == Walked([wa.node] + [wb.node], wb.st);
    assert [wa.node] + [wb.node] == [wa.node, wb.node];
  }

  function MacroInner(): Pat {
    PStruct(NODE, [FieldPat([DEREF], "left", LeafPat()), FieldPat([], "right", Bind("sibling"))])
  }

  function MacroPattern(): Pat {
    PStruct(NODE, [FieldPat([DEREF], "left", MacroInner()), FieldPat([], "right", Bind("other_tree"))])
  }

  /** The inner struct pattern after the walk: its annotated field binds `deref_pat_0`. */
  lemma MacroInnerWalk(s: St)
    requires s == St(0, true, [], [])
    ensures Desugar.WalkPat(MacroInner(), s) ==
            Walked(PStruct(NODE, [FieldPat([], "left", Bind(Name(0))), FieldPat([], "right", Bind("sibling"))]),
                   St(1, true, [DerefPat(Name(0), LeafPat())], ["leaf", "sibling"]))
  {
    var leafWalk := Desugar.WalkPat(LeafPat(), s);
    assert leafWalk == Walked(LeafPat(), St(0, true, [], ["leaf"]));
    MacroDerefFieldWalk("left", LeafPat(), s);
    var w0 := Desugar.WalkField(FieldPat([DEREF], "left", LeafPat()), s);
    assert w0.st == St(1, true, [DerefPat(Name(0), LeafPat())], ["leaf"]);
    MacroPlainFieldWalk("right", Bind("sibling"), w0.st);
    MacroPairWalk(NODE, FieldPat([DEREF], "left", LeafPat()), FieldPat([], "right", Bind("sibling")), s);
  }

  /** The outer annotated field: its inner pattern is walked first, then it binds `deref_pat_1`. */
  lemma MacroOuterLeftWalk(s: St)
    requires s == St(0, true, [], [])
    ensures var inner := PStruct(NODE, [FieldPat([], "left", Bind(Name(0))), FieldPat([], "right", Bind("sibling"))]);
            Desugar.WalkField(FieldPat([DEREF], "left", MacroInner()), s) ==
            Walked(FieldPat([], "left", Bind(Name(1))),
                   St(2, true, [DerefPat(Name(0), LeafPat()), DerefPat(Name(1), inner)], ["leaf", "sibling"]))
  {
    MacroInnerWalk(s);
    var inner := PStruct(NODE, [FieldPat([], "left", Bind(Name(0))), FieldPat([], "right", Bind("sibling"))]);
    DerefFieldAfter("left", MacroInner(), s, inner, St(1, true, [DerefPat(Name(0), LeafPat())], ["leaf", "sibling"]));
  }

  /** `MacroDerefFieldWalk` with the walk of the field's own pattern already known. */
  lemma DerefFieldAfter(member: Ident, p: Pat, s: St, node: Pat, t: St)
    requires s.collect && Desugar.WalkPat(p, s) == Walked(node, t)
    ensures Desugar.WalkField(FieldPat([DEREF], member, p), s) ==
            Walked(FieldPat([], member, Bind(Name(t.count))),
                   t.(count := t.count + 1, derefPats := t.derefPats + [DerefPat(Name(t.count), node)]))
  {
    MacroDerefFieldWalk(member, p, s);
  }

  /** The whole pattern of the test, walked while collecting. */
  lemma MacroPatternWalk(s: St)
    requires s == St(0, true, [], [])
    ensures var inner := PStruct(NODE, [FieldPat([], "left", Bind(Name(0))), FieldPat([], "right", Bind("sibling"))]);
            var top := PStruct(NODE, [FieldPat([], "left", Bind(Name(1))), FieldPat([], "right", Bind("other_tree"))]);
            Desugar.WalkPat(MacroPattern(), s) ==
            Walked(top, St(2, true, [DerefPat(Name(0), LeafPat()), DerefPat(Name(1), inner)], ["leaf", "sibling", "other_tree"]))
  {
    var f0 := FieldPat([DEREF], "left", MacroInner());
    var f1 := FieldPat([], "right", Bind("other_tree"));
    MacroOuterLeftWalk(s);
    MacroPairWalk(NODE, f0, f1, s);
    var w0 := Desugar.WalkField(f0, s);
    MacroPlainFieldWalk("right", Bind("other_tree"), w0.st);
  }

  /**
   * deref_pat/tests/test.rs: the rewritten `if let` binds
   * `Some((leaf, sibling, other_tree))`; its top pattern binds `deref_pat_1`
   * and `other_tree`; the first queued step (innermost) matches
   * `leaf @ Tree::Leaf` against `deref_pat_0`, the second (outermost)
   * matches the rewritten inner pattern against `deref_pat_1`.
   */
  lemma MacroTest(input: Expr)
    ensures var inner := PStruct(NODE, [FieldPat([], "left", Bind(Name(0))), FieldPat([], "right", Bind("sibling"))]);
            var top := PStruct(NODE, [FieldPat([], "left", Bind(Name(1))), FieldPat([], "right", Bind("other_tree"))]);
            var bound := ["leaf", "sibling", "other_tree"];
            var queue := [DerefPat(Name(0), LeafPat()), DerefPat(Name(1), inner)];
            Desugar.WalkLetGuard(MacroPattern(), input, INIT) ==
              Walked(Let(Desugar.GenPat(bound), Desugar.GenExpr(top, input, bound, queue)), St(2, false, [], []))
  {
    MacroPatternWalk(St(0, true, [], []));
  }

  // ---------------------------------------------------------------------------
  // The prototype's test

  function ProtoInner(): Pat {
    PStruct(NODE, [FieldPat([DEREF], "left", LeafPat()), FieldPat([], "right", Bind("right"))])
  }

  function ProtoPattern(): Pat {
    PStruct(NODE, [FieldPat([], "left", Bind("left")), FieldPat([DEREF], "right", ProtoInner())])
  }

  /**
   * tests/test.rs: the prototype rewrites the `if let` to bind
   * `Some(left, deref_pat_0)` against `{ let mut deref_pat_result = None;
   * deref_pat_result }`, drops the input, and queues the inner pattern
   * untouched, its own `#[deref]` included; `leaf` and `right` are not bound.
   */
  lemma ProtoTest(input: Expr)
    ensures ProtoDesugar.WalkLetGuard(ProtoPattern(), input, INIT) ==
            Walked(Let(ProtoDesugar.GenPat(["left", Name(0)]), ProtoDesugar.GenExpr()),
                   St(1, false, [DerefPat(Name(0), ProtoInner())], []))
    ensures Annotated(ProtoInner().fields[0])
  {
    var s := St(0, true, [], []);
    var f0 := FieldPat([], "left", Bind("left"));
    var f1 := FieldPat([DEREF], "right", ProtoInner());
    assert DerefPosition([]) == None;
    var w0 := ProtoDesugar.WalkField(f0, s);
    assert w0 == Walked(f0, St(0, true, [], ["left"]));
    assert [f0, f1][..1] == [f0] && [f0][..0] == [];
    assert ProtoDesugar.WalkFields([f0], s) == Walked([f0], w0.st);
    assert RemoveAt([DEREF], 0) == [];
    assert ProtoDesugar.WalkField(f1, w0.st) ==
           Walked(FieldPat([], "right", Bind(Name(0))), St(1, true, [DerefPat(Name(0), ProtoInner())], ["left", Name(0)]));
  }

  /** The synthetic names are the reserved prefix followed by the counter in decimal. */
  lemma FirstNames()
    ensures Name(0) == "deref_pat_0" && Name(1) == "deref_pat_1" && Name(10) == "deref_pat_10"
  {
    assert Decimal(10) == Decimal(1) + ['0'];
  }
}
