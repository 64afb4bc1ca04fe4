# deref_pat: the `if let` desugaring, modelled in Dafny

`deref_pat!` lets a struct pattern in an `if let` look through a `Box` (or any type with `Deref`): a
field pattern marked `#[deref]` is matched against the value the field
dereferences to. The macro rewrites each such `if let` into plain Rust:

- every annotated field binds a fresh name `deref_pat_<k>` instead of its pattern;
- the outer `if let` matches the rewritten pattern against the original input;
- nested `if let`s then match each displaced pattern against
  `PatDeref::pat_deref(deref_pat_<k>)`;
- the innermost one stores every name the pattern bound in a result slot;
- the original `if let` finally matches `Some((names...))` against that slot.

This project models the two versions of that rewrite found in the repository:

- the macro crate (`deref_pat_macro/src/transform.rs`, `ident.rs`, `util.rs`);
- the earlier prototype (`src/transform.rs`, `src/util.rs`).

For each version it has two layers:

- **Reference functions** (`Desugar`, `ProtoDesugar`). Each visit is a function
  from a node and the transformer's fields (`Visit.St`: counter, `collect`
  flag, queue of deref steps, recorded bindings) to the rewritten node and the
  fields afterwards. Fields are read and updated in the order the visitor uses them.
- **The visitor as a class** (`Transform.Transformer`, `Prototype.Transformer`).
  Its fields are changed by methods, one per `visit_*_mut` override and per
  default traversal the rewrite depends on. Each method is proved to return the
  reference function's node and to leave the reference function's state.

Facts proved about the reference functions:

- **Pattern walk** (`Desugar.WalkPat` and its family). While collecting, a
  pattern with `n` annotated fields:
  - queues exactly `n` steps, named by the next `n` counter values;
  - puts them behind the steps already queued;
  - records the pattern's bindings in source order.
  When not collecting, nothing changes.
- **Rewritten `if let`** (`DesugarFacts.LetGuardRewritten`, `GenExprShape`,
  `ChainIsNest`). The rewritten guard binds exactly the recorded names. The
  steps are named `deref_pat_0`, `deref_pat_1`, ... and are pairwise distinct. The
  nested `if let`s run last-queued outermost. Every step's name is bound either
  by the rewritten pattern or by a step outside it (`PatStepsScoped`).
- **Scoping** (`DesugarScope.TransformScoped`). The rewrite never produces a
  `pat_deref(x)` call whose `x` is not bound where the call stands.
- **Identity** (`DesugarFacts.TransformUnannotated`,
  `ProtoFacts.TransformUnannotated`). An expression with no `#[deref]` in any
  `if let` pattern is returned unchanged by both versions.
- **The repository's tests**
  (`TestCases.MacroTest`, `TestCases.ProtoTest`). The `if let` of each crate's
  test is rewritten to the concrete result stated in the lemma.

Consequences of the code as written, which the model keeps:

- **Recorded bindings leak between `if let`s.** The macro empties
  `bound_idents` only inside `gen_expr`, that is, only when an `if let` was
  rewritten. The bindings of an unannotated `if let` therefore stay recorded
  and reach the next rewritten one (for instance a later `else if let`).
  `DesugarFacts.LeakExample` shows `if let a = e1 {}` followed by an annotated
  `if let` whose rewritten pattern becomes `Some((a, b))`. `LetGuardRewritten`
  states this in general: the bound names are `s.boundIdents + Names(p)`.
- **The prototype never empties its queue** (`ProtoFacts.RewriteIsSticky`).
  Once one `if let` was rewritten, every later `if let` is rewritten too.
- **The prototype drops the input expression.** The rewritten guard's input is
  a block that yields `None`.
- **The prototype does not enter displaced patterns.** It displaces an
  annotated field's pattern before visiting the field, so a `#[deref]` nested
  inside an annotated field is not rewritten. It also records the synthetic
  binding in place of the displaced pattern's bindings (`ProtoTest`).

## Model

| member | source | states |
|---|---|---|
| Idents.Decimal | deref_pat_macro/src/ident.rs:17 | `count.to_string()`: at least one character, all decimal digits, no leading zero |
| Idents.DecimalRoundTrip | deref_pat_macro/src/ident.rs:17 | reading the decimal text back gives the counter value |
| Idents.DecimalInjective | deref_pat_macro/src/ident.rs:17 | different counter values have different decimal texts |
| Idents.Prefix | deref_pat_macro/src/ident.rs:22-24 | the name is `deref_pat_` followed by exactly the given text |
| Idents.NameInjective | deref_pat_macro/src/ident.rs:16-24 | different counter values give different synthetic names |
| Idents.NameRun | deref_pat_macro/src/ident.rs:16-20 | the run of names from counter value `from`: exactly `n` of them, the i-th being `deref_pat_` followed by the decimal form of `from + i` |
| Idents.IdentGen.NextRun | deref_pat_macro/src/ident.rs:16-20 | `n` calls of `next` in a row return `NameRun(old count, n)` and advance the counter by `n` |
| Idents.NameRunDistinct | deref_pat_macro/src/ident.rs:16-20 | the names of consecutive `next` calls are pairwise distinct |
| Idents.IdentGen.constructor | deref_pat_macro/src/ident.rs:4-7 | the default counter is 0 |
| Idents.IdentGen.Reset | deref_pat_macro/src/ident.rs:12-14 | `reset` zeroes the counter |
| Idents.IdentGen.Next | deref_pat_macro/src/ident.rs:16-20 | `next` returns `deref_pat_` + the old counter in decimal and advances the counter by one |
| TestCases.FirstNames | deref_pat_macro/src/ident.rs:10-24 | counters 0, 1 and 10 give `deref_pat_0`, `deref_pat_1` and `deref_pat_10` |
| Util.CreateIdent | deref_pat_macro/src/util.rs:6-8 | the identifier has exactly the given text |
| Util.CreatePath | deref_pat_macro/src/util.rs:12-27 | one segment per string in order; leading `::` exactly when `global` |
| Util.CreateIfLet | deref_pat_macro/src/util.rs:30-48 | an `if` whose condition is `let pat = input`, whose block is `body`, and whose `else` is present exactly when given |
| Util.CreateCall | deref_pat_macro/src/util.rs:51-58 | a call of `func` with `args` in order |
| Util.IdentIntoPath | deref_pat_macro/src/util.rs:85-91 | a relative path with the identifier as its only segment |
| Util.PathIntoExpr | deref_pat_macro/src/util.rs:71-79 | a path expression holding exactly the path |
| Util.IdentIntoExpr | deref_pat_macro/src/util.rs:65-69 | a one-segment relative path expression that refers back to the identifier |
| Util.IntoSemiStmt | deref_pat_macro/src/util.rs:101-103 | the expression as a statement with `;` |
| Util.IntoExprStmt | deref_pat_macro/src/util.rs:105-107 | the expression as a trailing statement without `;` |
| Util.StmtFormsDifferOnlyInSemicolon | deref_pat_macro/src/util.rs:100-108 | both conversions keep the expression and differ only in the semicolon |
| Visit.DerefPosition | deref_pat_macro/src/transform.rs:194-197 | the index of the first `#[deref]` attribute; `None` exactly when there is none |
| Visit.RemoveAt | deref_pat_macro/src/transform.rs:199 | `Vec::remove`: one element shorter, elements before `pos` kept, later ones shifted down by one |
| Visit.BindingPats | deref_pat_macro/src/transform.rs:63-75 | one plain binding per recorded identifier, in order |
| Visit.BindingPatsNames | deref_pat_macro/src/transform.rs:63-75 | those bindings bind exactly the recorded identifiers, in order |
| Desugar.WalkPat | deref_pat_macro/src/transform.rs:190-226 | not collecting: nothing changes; collecting: `DerefCount(p)` steps are queued behind the old ones, named by the next counter values, and the pattern's bindings are recorded in order; an unannotated pattern is unchanged |
| Desugar.WalkPatIdent | deref_pat_macro/src/transform.rs:217-226 | the binding is recorded before its sub-pattern's bindings and steps; the name is kept |
| Desugar.WalkPats | deref_pat_macro/src/transform.rs:190-226 | elements are walked left to right; the queue and the recorded names extend by the sum over the elements |
| Desugar.WalkField | deref_pat_macro/src/transform.rs:190-215 | the sub-pattern is walked first, then an annotated field adds one step; the member is kept; nothing changes when not collecting |
| Desugar.WalkFields | deref_pat_macro/src/transform.rs:190-215 | fields are walked left to right; the queue and the recorded names extend by the sum over the fields |
| Desugar.CreateImport | deref_pat_macro/src/transform.rs:35-51 | `create_import(c)` is the item `use ::c::PatDeref;` |
| Desugar.GenPat | deref_pat_macro/src/transform.rs:53-80 | `gen_pat` is the absolute path `::core::option::Option::Some` applied to a single tuple with one element per recorded name, binding exactly those names in order |
| Desugar.DerefPatToExpr | deref_pat_macro/src/transform.rs:235-246 | a queued step becomes `if let <pat> = PatDeref::pat_deref(<ident>) { <inner>; }` with no `else` |
| Desugar.Chain | deref_pat_macro/src/transform.rs:132-135 | an empty queue leaves the innermost expression alone; otherwise the outermost `if let` is the last queued step, matching its pattern on `PatDeref::pat_deref` of its name |
| Desugar.GenExpr | deref_pat_macro/src/transform.rs:82-152 | the replacement block has four statements: first `use ::deref_pat::PatDeref;`, third an `if let` of the rewritten pattern on the input with no `else`, last the result slot `_deref_pat_macro_result` as the block's value (the result-slot declaration second is stated by `DesugarFacts.GenExprShape`); a queue that is empty would make `pop_front().unwrap()` panic, so it is required non-empty |
| Desugar.IdentExprs | deref_pat_macro/src/transform.rs:118-122 | one reference per recorded identifier, referring back to it, in order |
| Desugar.WalkLetGuard | deref_pat_macro/src/transform.rs:157-179 | the guard stays a `let`; `collect` is restored; a state with an empty queue keeps an empty queue |
| Desugar.WalkExpr | deref_pat_macro/src/transform.rs:155-188 | path expressions are returned as they are; `collect` is kept; the queue is empty again after every visited expression |
| Desugar.WalkExprs | deref_pat_macro/src/transform.rs:155-188 | one rewritten expression per input; `collect` kept; queue stays empty |
| Desugar.WalkFieldValues | deref_pat_macro/src/transform.rs:155-188 | one rewritten field value per input; `collect` kept; queue stays empty |
| Desugar.WalkFieldValue | deref_pat_macro/src/transform.rs:155-188 | `collect` kept; queue stays empty |
| Desugar.WalkBlock | deref_pat_macro/src/transform.rs:184 | `collect` kept; queue stays empty |
| Desugar.WalkStmts | deref_pat_macro/src/transform.rs:155-188 | one rewritten statement per input; `collect` kept; queue stays empty |
| Desugar.WalkStmt | deref_pat_macro/src/transform.rs:155-188 | `collect` kept; queue stays empty |
| Transform.Transformer.constructor | deref_pat_macro/src/transform.rs:21-27 | `Transformer::default()`: counter 0, not collecting, empty queue, no recorded names |
| Transform.Transformer.GenExpr | deref_pat_macro/src/transform.rs:82-152 | returns `Desugar.GenExpr` of the old fields (loop invariant over the queue) and drains the queue and the recorded names |
| Transform.Transformer.VisitExpr | deref_pat_macro/src/transform.rs:155-188 | the rewritten expression and the new fields are those of `Desugar.WalkExpr` |
| Transform.Transformer.VisitExprIf | deref_pat_macro/src/transform.rs:156-188 | the rewritten `if` and the new fields are those of `Desugar.WalkExpr` |
| Transform.Transformer.VisitExprs | deref_pat_macro/src/transform.rs:155-188 | equals `Desugar.WalkExprs` |
| Transform.Transformer.VisitFieldValues | deref_pat_macro/src/transform.rs:155-188 | equals `Desugar.WalkFieldValues` |
| Transform.Transformer.VisitFieldValue | deref_pat_macro/src/transform.rs:155-188 | equals `Desugar.WalkFieldValue` |
| Transform.Transformer.VisitBlock | deref_pat_macro/src/transform.rs:184 | equals `Desugar.WalkBlock` |
| Transform.Transformer.VisitStmts | deref_pat_macro/src/transform.rs:155-188 | equals `Desugar.WalkStmts` |
| Transform.Transformer.VisitStmt | deref_pat_macro/src/transform.rs:155-188 | equals `Desugar.WalkStmt` |
| Transform.Transformer.VisitPat | deref_pat_macro/src/transform.rs:164 | equals `Desugar.WalkPat` |
| Transform.Transformer.VisitPats | deref_pat_macro/src/transform.rs:190-226 | equals `Desugar.WalkPats` |
| Transform.Transformer.VisitFieldPats | deref_pat_macro/src/transform.rs:190-215 | equals `Desugar.WalkFields` |
| Transform.Transformer.VisitFieldPat | deref_pat_macro/src/transform.rs:190-215 | equals `Desugar.WalkField` |
| Transform.Transformer.VisitPatIdent | deref_pat_macro/src/transform.rs:217-226 | equals `Desugar.WalkPatIdent` |
| Transform.Transform | deref_pat_macro/src/transform.rs:14-17 | the visitor started from `Transformer::default()` yields `Desugar.Transform(e)` |
| DesugarFacts.RemoveFirstDeref | deref_pat_macro/src/transform.rs:194-199 | removing the first `#[deref]` drops exactly one `#[deref]` and keeps every other attribute in order |
| DesugarFacts.AnnotatedField | deref_pat_macro/src/transform.rs:190-215 | an annotated field loses its first `#[deref]`, binds the name for the counter after its sub-pattern's steps, and queues its walked sub-pattern last |
| DesugarFacts.PatStepsScoped | deref_pat_macro/src/transform.rs:190-226 | every step a pattern walk queues is named by a binding of the rewritten pattern or of a step queued after it |
| DesugarFacts.PatIdentStepsScoped | deref_pat_macro/src/transform.rs:217-226 | the same for a binding with a sub-pattern |
| DesugarFacts.PatsStepsScoped | deref_pat_macro/src/transform.rs:190-226 | the same for a sequence of patterns |
| DesugarFacts.FieldStepsScoped | deref_pat_macro/src/transform.rs:190-215 | the same for one field |
| DesugarFacts.FieldsStepsScoped | deref_pat_macro/src/transform.rs:190-215 | the same for a sequence of fields |
| DesugarFacts.AssignMatchesGenPat | deref_pat_macro/src/transform.rs:103-130 | the assignment stores `Some { 0: (...) }` in the result slot; its i-th element refers to the i-th name `gen_pat` binds |
| DesugarFacts.ChainIsNest | deref_pat_macro/src/transform.rs:132-135 | the loop nests one `if let pat = PatDeref::pat_deref(name)` per queued step, last-queued outermost, with no `else` |
| DesugarFacts.GenExprShape | deref_pat_macro/src/transform.rs:82-152 | the block is: the `use` import, the result slot declaration, the `if let` of the rewritten pattern on the input around the step nest, and the slot as value |
| DesugarFacts.LetGuardRewritten | deref_pat_macro/src/transform.rs:157-179 | an annotated guard becomes `let Some((names)) = <gen_expr>`; steps are `deref_pat_0..n-1` and distinct; every step name is in scope; the queue and the recorded names are emptied and the counter is `n` |
| DesugarFacts.LetGuardPattern | deref_pat_macro/src/transform.rs:165-166 | the rewritten guard's pattern is `gen_pat` of the names recorded before and in the pattern |
| DesugarFacts.LetGuardUnannotated | deref_pat_macro/src/transform.rs:157-179 | an unannotated guard is kept, and its bindings stay recorded |
| DesugarFacts.LeakFirst | deref_pat_macro/src/transform.rs:157-179 | after `if let a = e1 {}` the name `a` stays recorded |
| DesugarFacts.LeakSecond | deref_pat_macro/src/transform.rs:165-176 | an annotated `if let` walked with `a` recorded gets the pattern `Some((a, b))` |
| DesugarFacts.LeakExample | deref_pat_macro/src/transform.rs:14-17 | `transform` of the two `if let`s in sequence keeps the first and gives the second the pattern `Some((a, b))` |
| DesugarFacts.ExprUnchanged | deref_pat_macro/src/transform.rs:155-188 | without `#[deref]` in any `if let` pattern, an expression is not changed |
| DesugarFacts.ExprsUnchanged | deref_pat_macro/src/transform.rs:155-188 | the same for a sequence of expressions |
| DesugarFacts.FieldValuesUnchanged | deref_pat_macro/src/transform.rs:155-188 | the same for struct literal fields |
| DesugarFacts.FieldValueUnchanged | deref_pat_macro/src/transform.rs:155-188 | the same for one struct literal field |
| DesugarFacts.BlockUnchanged | deref_pat_macro/src/transform.rs:184 | the same for a block |
| DesugarFacts.StmtsUnchanged | deref_pat_macro/src/transform.rs:155-188 | the same for a sequence of statements |
| DesugarFacts.StmtUnchanged | deref_pat_macro/src/transform.rs:155-188 | the same for one statement |
| DesugarFacts.TransformUnannotated | deref_pat_macro/src/transform.rs:14-17 | `transform` returns an expression with no `#[deref]` in its `if let` patterns unchanged |
| DesugarScope.AssignScoped | deref_pat_macro/src/transform.rs:103-130 | the result assignment contains no `pat_deref` call |
| DesugarScope.StepScoped | deref_pat_macro/src/transform.rs:235-246 | one step's `if let` is well scoped when its name is in scope and its body is well scoped with the step's bindings added |
| DesugarScope.ChainScoped | deref_pat_macro/src/transform.rs:132-135 | the step nest is well scoped when each step's name is bound by the scope or by an outer step |
| DesugarScope.GenChainScoped | deref_pat_macro/src/transform.rs:132-135 | the nest `gen_expr` builds is well scoped inside the rewritten pattern's bindings |
| DesugarScope.GenBlockScoped | deref_pat_macro/src/transform.rs:137-151 | the block is well scoped when the input is and the nest is within the pattern's bindings |
| DesugarScope.GenExprScoped | deref_pat_macro/src/transform.rs:82-152 | `gen_expr` is well scoped whenever its input is and each step is named by the pattern or an outer step |
| DesugarScope.ExprWalkScoped | deref_pat_macro/src/transform.rs:155-188 | the rewrite of a well-scoped expression is well scoped |
| DesugarScope.ExprsKeepPaths | deref_pat_macro/src/transform.rs:155-188 | path expressions in an argument list are returned as they are, and nothing else becomes one |
| DesugarScope.ExprsWalkScoped | deref_pat_macro/src/transform.rs:155-188 | the rewrite keeps a sequence of expressions well scoped |
| DesugarScope.FieldValuesWalkScoped | deref_pat_macro/src/transform.rs:155-188 | the rewrite keeps struct literal fields well scoped |
| DesugarScope.FieldValueWalkScoped | deref_pat_macro/src/transform.rs:155-188 | the rewrite keeps one struct literal field well scoped |
| DesugarScope.BlockWalkScoped | deref_pat_macro/src/transform.rs:184 | the rewrite keeps a block well scoped |
| DesugarScope.StmtsWalkScoped | deref_pat_macro/src/transform.rs:155-188 | the rewrite keeps a statement sequence well scoped |
| DesugarScope.StmtWalkScoped | deref_pat_macro/src/transform.rs:155-188 | the rewrite keeps one statement well scoped |
| DesugarScope.TransformScoped | deref_pat_macro/src/transform.rs:14-17 | `transform` never emits a `pat_deref(x)` with `x` unbound where it stands |
| ProtoDesugar.WalkPat | src/transform.rs:127-162 | not collecting: nothing changes; collecting: `DerefCount(p)` steps are queued behind the old ones under the next counter values, and the bindings of the rewritten pattern are recorded |
| ProtoDesugar.WalkPatIdent | src/transform.rs:153-162 | the binding is recorded before its sub-pattern's; the name is kept |
| ProtoDesugar.WalkPats | src/transform.rs:127-162 | elements are walked left to right; queue and recorded names extend by the sum over the elements |
| ProtoDesugar.WalkField | src/transform.rs:127-151 | an annotated field is displaced first and its synthetic binding is recorded; the displaced pattern is not entered; the member is kept |
| ProtoDesugar.WalkFields | src/transform.rs:127-151 | fields are walked left to right; queue and recorded names extend by the sum over the fields |
| ProtoDesugar.WalkLetGuard | src/transform.rs:94-116 | the guard stays a `let`; `collect` is restored; queued steps are never removed |
| ProtoDesugar.WalkExpr | src/transform.rs:93-125 | `collect` is kept; the queue only grows |
| ProtoDesugar.WalkExprs | src/transform.rs:92-125 | one rewritten expression per input; `collect` kept; the queue only grows |
| ProtoDesugar.WalkFieldValues | src/transform.rs:92-125 | one rewritten field per input; `collect` kept; the queue only grows |
| ProtoDesugar.WalkFieldValue | src/transform.rs:92-125 | `collect` kept; the queue only grows |
| ProtoDesugar.WalkBlock | src/transform.rs:121 | `collect` kept; the queue only grows |
| ProtoDesugar.WalkStmts | src/transform.rs:92-125 | one rewritten statement per input; `collect` kept; the queue only grows |
| ProtoDesugar.WalkStmt | src/transform.rs:92-125 | `collect` kept; the queue only grows |
| Prototype.Transformer.constructor | src/transform.rs:20-26 | `Transformer::default()`: counter 0, not collecting, empty queue, no recorded names |
| Prototype.Transformer.GenPat | src/transform.rs:31-53 | returns `ProtoDesugar.GenPat` of the recorded names and drains them; the queue is untouched |
| Prototype.Transformer.VisitExpr | src/transform.rs:92-125 | equals `ProtoDesugar.WalkExpr` |
| Prototype.Transformer.VisitExprIf | src/transform.rs:93-125 | equals `ProtoDesugar.WalkExpr` on an `if` |
| Prototype.Transformer.VisitExprs | src/transform.rs:92-125 | equals `ProtoDesugar.WalkExprs` |
| Prototype.Transformer.VisitFieldValues | src/transform.rs:92-125 | equals `ProtoDesugar.WalkFieldValues` |
| Prototype.Transformer.VisitFieldValue | src/transform.rs:92-125 | equals `ProtoDesugar.WalkFieldValue` |
| Prototype.Transformer.VisitBlock | src/transform.rs:121 | equals `ProtoDesugar.WalkBlock` |
| Prototype.Transformer.VisitStmts | src/transform.rs:92-125 | equals `ProtoDesugar.WalkStmts` |
| Prototype.Transformer.VisitStmt | src/transform.rs:92-125 | equals `ProtoDesugar.WalkStmt` |
| Prototype.Transformer.VisitPat | src/transform.rs:101 | equals `ProtoDesugar.WalkPat` |
| Prototype.Transformer.VisitPats | src/transform.rs:127-162 | equals `ProtoDesugar.WalkPats` |
| Prototype.Transformer.VisitFieldPats | src/transform.rs:127-151 | equals `ProtoDesugar.WalkFields` |
| Prototype.Transformer.VisitFieldPat | src/transform.rs:127-151 | equals `ProtoDesugar.WalkField` |
| Prototype.Transformer.VisitPatIdent | src/transform.rs:153-162 | equals `ProtoDesugar.WalkPatIdent` |
| Prototype.Transform | src/transform.rs:15-18 | the visitor started from `Transformer::default()` yields `ProtoDesugar.Transform(e)` |
| ProtoDesugar.GenPat | src/transform.rs:31-53 | `gen_pat` is the absolute path `::core::option::Option::Some` applied to one element per recorded name, binding exactly those names in order |
| ProtoDesugar.GenExpr | src/transform.rs:55-89 | the replacement block is `let mut deref_pat_result = ::core::option::Option::None;` followed by the result slot as its value |
| ProtoFacts.AnnotatedField | src/transform.rs:127-151 | while collecting, a `#[deref]` field loses its first `#[deref]` attribute, its pattern becomes the fresh binding `deref_pat_<count>`, the displaced pattern is queued under that name without being entered, the name is recorded and the counter moves on by one |
| ProtoFacts.PlainField | src/transform.rs:127-151 | a field without `#[deref]` keeps its attributes and member, and only its sub-pattern is walked |
| ProtoFacts.LetGuardRewritten | src/transform.rs:94-116 | with a non-empty queue, the guard becomes `let Some(names) = <block yielding None>`; the input is dropped; the new steps are `deref_pat_0..n-1` behind the old ones, and the queue is kept |
| ProtoFacts.LetGuardKept | src/transform.rs:94-116 | with an empty queue and no annotation the guard is kept, and its bindings stay recorded |
| ProtoFacts.RewriteIsSticky | src/transform.rs:102-113 | once a step is queued, every later `if let` is rewritten and loses its input |
| ProtoFacts.ExprUnchanged | src/transform.rs:92-125 | from an empty queue, an expression without `#[deref]` in its `if let` patterns is unchanged and the queue stays empty |
| ProtoFacts.ExprsUnchanged | src/transform.rs:92-125 | the same for a sequence of expressions |
| ProtoFacts.FieldValuesUnchanged | src/transform.rs:92-125 | the same for struct literal fields |
| ProtoFacts.FieldValueUnchanged | src/transform.rs:92-125 | the same for one struct literal field |
| ProtoFacts.BlockUnchanged | src/transform.rs:121 | the same for a block |
| ProtoFacts.StmtsUnchanged | src/transform.rs:92-125 | the same for a statement sequence |
| ProtoFacts.StmtUnchanged | src/transform.rs:92-125 | the same for one statement |
| ProtoFacts.TransformUnannotated | src/transform.rs:15-18 | the prototype's `transform` returns an unannotated expression unchanged |
| TestCases.MacroDerefFieldWalk | deref_pat_macro/src/transform.rs:190-215 | a field whose only attribute is `#[deref]` loses it, binds the next name and queues its walked pattern |
| TestCases.MacroPlainFieldWalk | deref_pat_macro/src/transform.rs:190-215 | a field without attributes only has its pattern walked |
| TestCases.MacroPairWalk | deref_pat_macro/src/transform.rs:190-215 | a two-field struct pattern is walked left field first |
| TestCases.DerefFieldAfter | deref_pat_macro/src/transform.rs:190-215 | an annotated field's step is named after the steps of its own sub-pattern |
| TestCases.MacroInnerWalk | deref_pat/tests/test.rs:32-36 | the inner struct pattern binds `deref_pat_0` for `leaf @ Tree::Leaf` and records `leaf`, `sibling` |
| TestCases.MacroOuterLeftWalk | deref_pat/tests/test.rs:29-37 | the outer annotated field binds `deref_pat_1` and queues the rewritten inner pattern after the inner step |
| TestCases.MacroPatternWalk | deref_pat/tests/test.rs:29-38 | the whole test pattern queues two steps and records `leaf`, `sibling`, `other_tree` |
| TestCases.MacroTest | deref_pat/tests/test.rs:28-45 | the test's `if let` becomes `let Some((leaf, sibling, other_tree)) = <gen_expr>` with steps `deref_pat_0` (`leaf @ Tree::Leaf`) then `deref_pat_1` (the inner pattern), and the fields are emptied |
| TestCases.ProtoTest | tests/test.rs:26-43 | the prototype turns the test's `if let` into `let Some(left, deref_pat_0) = <block yielding None>` and keeps one step whose pattern still carries `#[deref]` |

## Left out

- Spans and hygiene: `create_ident` gives identifiers a mixed-site span. An identifier is modelled by its text only.
- The procedural-macro entry points (`deref_pat_macro/src/lib.rs`, `src/lib.rs`): they parse and print token streams, so they are not part of this model.
- The runtime trait `PatDeref` (`deref_pat/src/lib.rs`) is not part of this model. The properties are about the syntax the rewrite emits, not about running it.
- Syntax coverage: `Syntax` holds only the expression, pattern and statement forms the rewrite reads or builds. `match` is absent; the source does not rewrite it either. Other items (`OtherItem`) are kept whole. syn's default visitor would enter the bodies of nested items.
- `Desugar.RESULT`: `concat!("_", env!("CARGO_PKG_NAME"), "_result")` depends on the crate manifest, which is not part of this model. The package name is taken to be `deref_pat_macro`.
- The conversion helpers: `deref_pat_macro/src/transform.rs` calls `to_expr`, `to_semi_stmt` and `to_expr_stmt` from `ToExpr`/`ToStmt`, while `util.rs` defines `into_expr`, `into_semi_stmt` and `into_expr_stmt` (`IntoExpr`/`IntoStmt`). The model takes them to be the same conversions.
- `src/ident.rs`, the prototype's `IdentGen`, is not part of this model. The prototype's counter is modelled by the macro crate's `IdentGen`, which has the same name and use.
- `src/util.rs` has the same `create_ident` and `create_path` as the macro crate's `util.rs`. Both are modelled once, by `Util`.
- Idents.IdentGen.Next: requires that the `u64` counter is below `u64::MAX`. The overflow (a panic, or wrap-around in release builds) is not modelled.
- Transform.Transform: requires every `if let` pattern to have at most `u64::MAX` annotations, for the same reason. The same holds for Prototype.Transform and the visit methods.
- Transform.Transformer.VisitExpr: requires `collect` to be false when an expression is visited. This always holds, because patterns contain no expressions. The same holds for the other expression and statement visits of both classes.
- DesugarScope.ExprWalkScoped: the scope it tracks grows only with `if let` patterns, not with `let` statements. It checks only `PatDeref::pat_deref` calls, not every name the emitted code uses.
- Attributes: `attr.path.is_ident("deref")` is modelled as the path being exactly the relative, one-segment path `deref`. An attribute's tokens are kept but not read.
