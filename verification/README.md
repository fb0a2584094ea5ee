# A model of the dep0 type-checker's term machinery

dep0 is a bootstrapping compiler for a dependently typed language with C-like syntax. Whether it accepts a program, and
which program it compiles, rests on a handful of algorithms over named terms. This project models those algorithms and
proves what they are for:

- **Binding** (`Ast`, `Binders`, `BoundNames`, `Nameless`, `Substitution`, `NamesApart`, `BetaLimits`,
  `AlphaEquivalence`, `Reasons`, `Unification`): named telescopes with shadowing, against nameless terms as the
  reference. Substitution is right if and only if every name chosen by renaming is fine. If it is for each argument of a
  beta step, the substitutions made one by one amount to instantiating all binders at once; conditions that can be
  checked before the step guarantee this, and without them the step goes wrong even on terms in which nothing has been
  renamed yet. Alpha-equivalence is equality of nameless terms, whatever the reasons, for exactly those terms in which no
  binder is referred to in reasons only; matching is sound, and complete on first-order patterns.
- **Normalising bodies** (`Semantics`, `Guarding`, `Judgements`, `MeaningOfBinding`, `SubstitutionMeaning`,
  `UnreachableCode`, `Normaliser`, `Legality`, `NormaliserTheorem`, `NormaliserLimits`, `Depth`, `Termination`,
  `SourceClasses`, `NormalForms`): in every environment that satisfies the hypotheses under which a body was typed, the normalised body returns the same and makes
  the same calls, and is again well typed in the sense that further normalisation relies on. Beta steps nest no deeper
  than a weight of the body, so normalisation ends, and then no beta step is left anywhere, in types and reasons
  included, no call without effects, no constant condition and no branch that is judged impossible. What is judged
  impossible, mutable, or to return in any case is said apart from the judgements. What the theorem asks of a run is guaranteed by conditions on the
  body as it was written. Two programs on which the normaliser goes wrong delimit the theorem.
- **Path conditions** (`Rewriting`, `RewritePlaces`, `PathConditions`, `PathFacts`, `PathLimits`): a body is accepted
  exactly when each of its statements is acceptable under the facts on the path to it. `impossible` is only accepted where no valuation
  satisfies the hypotheses and the branches taken, because rewriting the context and the goal preserves truth, also below
  the binders of types: a type with binders means whatever an interpretation makes of the family of its parts, and
  rewriting stops where it has to, and everywhere else it replaces what matches. With conditions that have effects acceptance is unsound, by an example.
- **Scopes, usages, contexts** (`ScopeMap`, `Usage`, `UsageTables`, `UsageRuns`, `Context`): the shared, growing frames of
  `scope_map` behave like immutable frames frozen at each `extend`; a rejected use leaves every lookup as it was; any
  sequence of `try_add`, `extend` and `merge` on objects that share frames accepts and rejects what exact counting does;
  the two tables of a context agree after any operation on it or beside it, so its assertions hold.
- **Quantities** (`Quantities`, `QuantitySoundness`, `QuantityExactness`): counting only one use for whatever a branch
  used decides like exact counting; no run uses a variable more often than declared; and code in which nothing else is
  wrong is rejected only if some run that is not cut short by leaving would.
- **Proof search** (`Planning`, `PlanNames`, `PlanExists`, `ProofSearch`, `SearchSoundness`, `UsageGrowth`,
  `SearchCompleteness`, `SearchLimits`): whatever the types and
  names, the tree of tasks shrinks in a fixed measure with every run, finished tasks do not change, and the search counts
  on usage objects extended from the caller's, which sees no difference if nothing is found. From the dependent rule of
  application it follows that results and cache entries have the types they were searched for, if every name chosen in a
  plan is fine and types were compared as they are meant. Both follow from what can be checked before the search, which
  allows parameters to be variables of the context, as in every recursive function; without them an argument can be
  searched for, or accepted, at the wrong type. If nothing is found, everything has been tried: at the end no variable of
  a fitting type may still be used, nothing is true or trivial, and each viable function has been attempted in vain, for
  reasons that are listed.
- **Arithmetic and array layout** (`Folding`, `Layout`): folding yields the exact value wrapped once; the addressing
  emitted for nested arrays writes and reads the elements meant.

Each module says at its head what it models. Where the source changes something in place, a class or a method does the
same here and is proved against a function of the old state: `ScopeMap`, `Usage`, `Context`, `ProofState` and
`SearchState` are classes with the source's fields, and the loops over statement vectors, telescopes, arguments,
ancestors, dimensions and memory are loops.

Conventions. A telescope is what is left of a signature: arguments still to be bound and what they scope over. A lemma
about expressions usually has siblings about sequences (`...Seq`), telescopes (`...Tele`, `...Run`, `...Signature`) and
statements (`...Stmts`, `...Stmt`, `...Exec`), proved by one mutual induction; the table names one or two of each family.

Findings about the source:

- Lifting the true-branch of an `if` without else when what follows is impossible
  (`beta_reduction.cpp:262-270`) may drop a terminator in code that cannot be reached. A constant condition further out
  then makes a reachable branch look impossible and it is removed, so the program returns something else
  (`LiftCanLoseABranch`).
- A call is erased when the call node is immutable, without looking at the expression in function position
  (`is_mutable.cpp:118-123`). Erasing is right exactly when computing that expression makes no call (`ErasedCall`); for
  `g(es)()` that is when `g` is immutable (`ErasedResult`).
- `check_stmt` records mutable conditions as hypotheses (`check.cpp:346-350`), and so accepts an `impossible` that
  execution can reach (`MutableConditionsUnsound`).
- The index chosen by `rename` is fresh for the rest of the telescope only (`rename_impl.hpp:30`), so it can capture a
  variable of the substituted term (`RenameCanCapture`). In a beta step this happens to terms as they were written:
  `(x, t). return x` applied to two copies of `(t) -> t` returns `(t:1) -> ((t) -> t)` (`BetaCanCapture`). For the same
  reason `try_apply` (`search_app.cpp:56-88`) searches for a proof of `P((t:1) -> ((t) -> t))` where one of
  `P((t) -> t)` is needed (`PlannedAtWrongType`).
- `unify` compares the declared type of a parameter with the type of a term by the names in them
  (`unification.cpp:95-101`), although the names of one are parameters and those of the other variables of the context:
  where `x` is both, a term of type `P(x)` is accepted for `t : P(x)` when something else is put in for the parameter
  (`ComparedByName`). Only the typing of the target can rule that out.
- What follows an `if` that may return is charged as if it always ran (`check.cpp:327-397`), so for a linear `x` the body
  `if (c) return x; return x;` is rejected although no run uses `x` twice (`UsedAfterLeaving`).
- Whether what follows an `if` is impossible is asked before conditions further down that have become constant are
  removed (`beta_reduction.cpp:222-277`), so `if (c) return 0; if (true) impossible;` is only lifted when it is normalised
  a second time (`LiftComesTooSoon`).
- A parameter that is referred to in a reason only makes two telescopes differ that alpha-equivalence should identify
  (`ReasonsCanSeparate`).

## Model

| member | source | states |
|---|---|---|
| `Nameless.FreeNameless` | dep0/lib/01_ast/include/dep0/ast/occurs_in_impl.hpp:68-170 | a variable occurs free exactly when it is a free name of the nameless term |
| `Nameless.FreeIsAnywhere` | dep0/lib/01_ast/include/dep0/ast/occurs_in_impl.hpp:172-218 | a free occurrence is an occurrence anywhere |
| `Nameless.IndexAboveMax` | dep0/lib/01_ast/include/dep0/ast/max_index_impl.hpp:69-177 | a variable with an index above the maximum occurs nowhere, bound or free |
| `Nameless.ReplaceNameless` | dep0/lib/01_ast/include/dep0/ast/replace_impl.hpp:61-168 | replacing a visible binder's name by one that occurs nowhere leaves the nameless term alone |
| `Nameless.ReplaceFree` | dep0/lib/01_ast/include/dep0/ast/replace_impl.hpp:61-168 | exactly how the free variables change when one is replaced |
| `Nameless.ReplaceGone` | dep0/lib/01_ast/include/dep0/ast/replace_impl.hpp:180-231 | the replaced variable occurs nowhere afterwards |
| `Nameless.RenameKeepsMeaning` | dep0/lib/01_ast/include/dep0/ast/rename_impl.hpp:22-60 | renaming a binder to the chosen name changes no telescope, and the name is new to it |
| `Binders.ReplaceInTelescope` | dep0/lib/01_ast/include/dep0/ast/replace_impl.hpp:180-197 | the loop that edits types and names of a telescope in place equals the recursive replacement |
| `Binders.Rename` | dep0/lib/01_ast/include/dep0/ast/rename_impl.hpp:22-60 | picks an index above every index of the rest and replaces there |
| `Binders.SubstituteInTelescope` | dep0/lib/03_typecheck/src/substitute.cpp:200-232 | the loop over a telescope, stopping at a rebinding and renaming as it goes, equals the recursive substitution |
| `Substitution.SubstitutionTheorem` | dep0/lib/03_typecheck/src/substitute.cpp:52-160 | substitution commutes with translation to nameless terms if and only if every name chosen on the way is fine |
| `Substitution.SubstitutionTheoremTele` | dep0/lib/03_typecheck/src/substitute.cpp:200-232 | the same for a telescope with its return type and body |
| `Substitution.SubstCommutes` | dep0/lib/03_typecheck/src/substitute.cpp:52-160 | substitution commutes below any scope that hides none of the variables involved |
| `Substitution.SubstCommutesStmts` | dep0/lib/03_typecheck/src/substitute.cpp:24-50 | the same for the statements of a body |
| `Substitution.SubstNoop` | dep0/lib/03_typecheck/src/substitute.cpp:52-160 | substituting for a variable that is not free changes nothing, although binders may be renamed |
| `Substitution.CommutesOnlyIf` | dep0/lib/03_typecheck/src/substitute.cpp:52-160 | if substitution commutes, the names chosen were fine |
| `Substitution.RenamedToTarget` | dep0/lib/01_ast/include/dep0/ast/rename_impl.hpp:22-34 | a used binder renamed to the variable being substituted loses its occurrences |
| `Substitution.RenamedIntoCapture` | dep0/lib/01_ast/include/dep0/ast/rename_impl.hpp:22-34 | a binder renamed to a free variable of the substituted term captures it |
| `Substitution.UnrenamedIsOk` | dep0/lib/03_typecheck/src/substitute.cpp:200-232 | substituting for a variable of index 0 a term whose free variables have index 0 is always fine, whatever is bound in it |
| `Substitution.RenameCanCapture` | dep0/lib/01_ast/include/dep0/ast/rename_impl.hpp:30 | a concrete substitution in which the chosen name captures |
| `Substitution.BetaSubstitute` | dep0/lib/03_typecheck/src/beta_reduction.cpp:113-153 | the loop over the arguments of an applied abstraction equals substituting one after the other |
| `Substitution.BetaIsSimultaneous` | dep0/lib/03_typecheck/src/beta_reduction.cpp:113-153 | if every substitution of the step is fine, substituting the arguments one by one, with later binders renamed on the way, is instantiating all binders at once |
| `Substitution.BetaStepsExact` | dep0/lib/03_typecheck/src/beta_reduction.cpp:126-143 | each substitution of the step instantiates its binder in what is left if and only if every name chosen on the way is fine |
| `Substitution.FreshIsOk` | dep0/lib/03_typecheck/src/beta_reduction.cpp:126-143 | that is so if parameters and free variables of the arguments have index 0 and no parameter occurs in an earlier argument, free or bound |
| `BetaLimits.BetaCanCapture` | dep0/lib/03_typecheck/src/beta_reduction.cpp:126-143 | with all indexes 0, `(x, t). return x` applied to two copies of `(t) -> t` does not return it |
| `BetaLimits.CaptureCanBeDropped` | dep0/lib/03_typecheck/src/beta_reduction.cpp:126-143 | a wrong substitution in the type of a parameter is dropped with the parameter, so the whole step can still be right |
| `BoundNames.SubstBinders` | dep0/lib/03_typecheck/src/substitute.cpp:200-232 | whatever a substituted term binds was bound in the term or in the argument, up to the index that renaming changes |
| `NamesApart.StemsApartOk` | dep0/lib/03_typecheck/src/substitute.cpp:200-232 | a substitution is fine if the variable, under whatever index, is not bound in the term and free variables of the argument have index 0 |
| `NamesApart.ApartIsOk` | dep0/lib/03_typecheck/src/beta_reduction.cpp:126-143 | every substitution of a beta step is fine if parameters differ in more than an index and none is bound in the types, the body or the arguments; they may occur free in the arguments |
| `AlphaEquivalence.AlphaEquivalentTelescopes` | dep0/lib/01_ast/include/dep0/ast/alpha_equivalence_impl.hpp:350-481 | the loop that renames both telescopes in place in lock-step decides the recursive definition |
| `AlphaEquivalence.AlignKeepsMeaning` | dep0/lib/01_ast/include/dep0/ast/alpha_equivalence_impl.hpp:398-433 | lock-step renaming gives two binders one name without changing either telescope |
| `AlphaEquivalence.AlphaSound` | dep0/lib/01_ast/include/dep0/ast/alpha_equivalence_impl.hpp:317-330 | accepted terms are the same nameless term, up to quantities, reasons and scope ids |
| `AlphaEquivalence.AlphaExact` | dep0/lib/01_ast/include/dep0/ast/alpha_equivalence_impl.hpp:317-330 | where no binder is referred to in reasons only, accepted if and only if the nameless terms are equal |
| `AlphaEquivalence.AlphaExactWithoutReasons` | dep0/lib/01_ast/include/dep0/ast/alpha_equivalence_impl.hpp:317-330 | on terms without reasons, accepted if and only if the nameless terms are equal |
| `AlphaEquivalence.AlphaIsEquivalence` | dep0/lib/01_ast/include/dep0/ast/alpha_equivalence_impl.hpp:507-520 | reflexive, symmetric and transitive on terms in which no binder is referred to in reasons only |
| `AlphaEquivalence.AlphaIffNameless` | dep0/lib/01_ast/include/dep0/ast/alpha_equivalence_impl.hpp:57-330 | below any scope, accepted terms are the same nameless term, and conversely where no binder is referred to in reasons only |
| `AlphaEquivalence.AlphaIffNamelessTele` | dep0/lib/01_ast/include/dep0/ast/alpha_equivalence_impl.hpp:350-481 | both for telescopes, with anonymous and unused binders |
| `AlphaEquivalence.ReasonsCanSeparate` | dep0/lib/01_ast/include/dep0/ast/alpha_equivalence_impl.hpp:434-470 | with reasons the converse fails: a name used only in a reason counts as used |
| `Reasons.AlphaStrip` | dep0/lib/01_ast/include/dep0/ast/alpha_equivalence_impl.hpp:317-330 | every term is equivalent to itself without any reason, asked either way round |
| `Reasons.AlphaIgnoresReasons` | dep0/lib/01_ast/include/dep0/ast/alpha_equivalence_impl.hpp:317-330 | where no binder is referred to in reasons only, the test answers as it does without reasons, and that is equality of nameless terms |
| `Reasons.FairIff` | dep0/lib/01_ast/include/dep0/ast/alpha_equivalence_impl.hpp:434-470 | that condition is exact: for any other term there is one with the same nameless term that the test rejects |
| `Unification.MatchOperands` | dep0/lib/03_typecheck/src/unification.cpp:20-162 | the loop over operands, accumulating bindings and stopping at a mismatch, equals the recursion |
| `Unification.UnifySound` | dep0/lib/03_typecheck/src/unification.cpp:164-170 | the bindings returned turn the pattern into a term that the alpha-equivalence test accepts, and that is the same nameless term |
| `Unification.UnifyComplete` | dep0/lib/03_typecheck/src/unification.cpp:20-170 | if any well-sorted substitution matches a simple pattern, one is found and it is that one up to alpha |
| `Unification.MatchComplete` | dep0/lib/03_typecheck/src/unification.cpp:20-162 | the same with bindings already found |
| `Semantics.ImmutableIsPure` | dep0/lib/03_typecheck/src/is_mutable.cpp:110-125 | an expression that is not mutable makes no calls, and its value does not depend on earlier calls |
| `Semantics.QuietExec` | dep0/lib/03_typecheck/src/is_mutable.cpp:110-123 | neither does a body without calls to mutable functions |
| `Guarding.ScanImpossible` | dep0/lib/03_typecheck/src/is_impossible.cpp:193-209 | the scan with its early exit decides the recursive definition |
| `Guarding.AllBranchesReturn` | dep0/lib/03_typecheck/src/returns_from_all_branches.cpp:15-23 | returning from all branches implies it modulo constant conditions |
| `Guarding.TerminatorReturns` | dep0/lib/03_typecheck/src/is_terminator.cpp:15-28 | so does being a terminator |
| `Guarding.GuardedNeverAbsurd` | dep0/lib/03_typecheck/src/check.cpp:386-447 | a guarded body never runs into `impossible`, and returns if it returns modulo constant conditions |
| `Guarding.ImpossibleUnguarded` | dep0/lib/03_typecheck/src/is_impossible.cpp:86-186 | no environment guards an expression that is judged impossible |
| `Guarding.ImpossibleStmtUnguarded` | dep0/lib/03_typecheck/src/is_impossible.cpp:64-84 | nor a statement |
| `Guarding.ImpossibleRangeUnguarded` | dep0/lib/03_typecheck/src/is_impossible.cpp:188-209 | nor a body: if it is well typed under hypotheses, these are unsatisfiable |
| `Guarding.ImpossibleMayReturn` | dep0/lib/03_typecheck/src/is_impossible.cpp:188-209 | about execution alone the judgement is false |
| `Judgements.ReturnsIff` | dep0/lib/03_typecheck/src/returns_from_all_branches.cpp:15-23 | a body returns from all branches if and only if no choice of branches comes to its end |
| `Judgements.ImpossibleIff` | dep0/lib/03_typecheck/src/is_impossible.cpp:86-186 | an expression is impossible if and only if something it evaluates in any case applies an abstraction with an impossible body |
| `Judgements.ImpossibleStmtIff` | dep0/lib/03_typecheck/src/is_impossible.cpp:64-84 | a statement is if and only if it says so, or something it evaluates in any case is, or both of two branches are |
| `Judgements.ImpossibleRangeIff` | dep0/lib/03_typecheck/src/is_impossible.cpp:193-209 | a body is if and only if some statement is and no `if` without else that can be entered stands before it |
| `Judgements.PartGuarded` | dep0/lib/03_typecheck/src/is_impossible.cpp:86-186 | what an expression evaluates in any case is guarded somewhere if the expression is |
| `Judgements.MutableIff` | dep0/lib/03_typecheck/src/is_mutable.cpp:18-123 | an expression is mutable if and only if it is, or has as an operand or argument at some depth, a call to a mutable function |
| `MeaningOfBinding.AlphaEval` | dep0/lib/01_ast/include/dep0/ast/alpha_equivalence_impl.hpp:317-330 | terms with the same nameless form have the same value and effects |
| `MeaningOfBinding.AlphaGuarded` | dep0/lib/01_ast/include/dep0/ast/alpha_equivalence_impl.hpp:317-330 | and are guarded in the same environments |
| `SubstitutionMeaning.SubstEval` | dep0/lib/03_typecheck/src/substitute.cpp:52-160 | substituting an immutable argument is evaluating with its value bound, and keeps terms guarded |
| `SubstitutionMeaning.SubstExec` | dep0/lib/03_typecheck/src/substitute.cpp:24-50 | the same for statements |
| `SubstitutionMeaning.BetaMeaning` | dep0/lib/03_typecheck/src/beta_reduction.cpp:113-153 | if every substitution of the step is fine, running what a beta step leaves is running the abstraction on the values of its arguments |
| `UnreachableCode.DropUnreachable` | dep0/lib/03_typecheck/src/drop_unreachable_stmts.cpp:16-68 | the three loops compute the recursive definition, and the flag is true exactly when the body changed |
| `UnreachableCode.Truncate` | dep0/lib/03_typecheck/src/drop_unreachable_stmts.cpp:29-36 | keeps the statements up to the first terminator |
| `UnreachableCode.CutConstants` | dep0/lib/03_typecheck/src/drop_unreachable_stmts.cpp:37-58 | removes the branches that constants exclude, one `if` at a time |
| `UnreachableCode.DropInBranches` | dep0/lib/03_typecheck/src/drop_unreachable_stmts.cpp:59-66 | descends into the branches that are left |
| `UnreachableCode.DropKeepsExec` | dep0/lib/03_typecheck/src/drop_unreachable_stmts.cpp:16-68 | execution is the same in every environment, with no assumption about typing |
| `UnreachableCode.DropIdempotent` | dep0/lib/03_typecheck/src/drop_unreachable_stmts.cpp:16-68 | dropping twice is dropping once |
| `UnreachableCode.DropsNothingIff` | dep0/lib/03_typecheck/src/drop_unreachable_stmts.cpp:16-68 | a body is left alone if and only if, at every depth, nothing follows a terminator and no constant excludes a branch |
| `UnreachableCode.LeanAfterwards` | dep0/lib/03_typecheck/src/drop_unreachable_stmts.cpp:16-68 | so it is afterwards |
| `UnreachableCode.DropKeepsGuarded` | dep0/lib/03_typecheck/src/drop_unreachable_stmts.cpp:42-48 | what was guarded stays guarded, and bodies return modulo constants just as before |
| `UnreachableCode.ReturnsStop` | dep0/lib/03_typecheck/src/returns_from_all_branches.cpp:15-23 | a body that returns from all branches never comes to its end |
| `Normaliser.VectorSplice` | dep0/lib/00_core/include/dep0/vector_splice.hpp:32-52 | replaces the element at a position by the given ones, in order, and points at the first of them |
| `Normaliser.ReplaceWith` | dep0/lib/03_typecheck/src/beta_reduction.cpp:209-217 | what precedes the statement is kept; what follows is dropped where the splice made it unreachable |
| `Normaliser.FirstPass` | dep0/lib/03_typecheck/src/beta_reduction.cpp:218-221 | unreachable statements are dropped and the others normalised |
| `Normaliser.Visit` | dep0/lib/03_typecheck/src/beta_reduction.cpp:225-274 | one iteration keeps the statement or restarts on the statements that replace it, leaving the prefix alone |
| `Normaliser.BetaNormalizeBody` | dep0/lib/03_typecheck/src/beta_reduction.cpp:207-277 | both passes compute the recursive definition; nested beta steps are bounded by `fuel`, and `Termination.NormalisationEnds` says which bound is none |
| `Legality.NormaliseLegal` | dep0/lib/03_typecheck/src/beta_reduction.cpp:279-302 | normalising keeps terms legal and makes no immutable expression mutable |
| `Legality.SubstLegal` | dep0/lib/03_typecheck/src/substitute.cpp:52-160 | so does substituting an immutable argument |
| `NormaliserTheorem.NormalForm` | dep0/lib/03_typecheck/src/beta_reduction.cpp:222-277 | no immutable call and no constant condition is left at the top, no constant condition at any depth |
| `NormaliserTheorem.SecondPassMeaning` | dep0/lib/03_typecheck/src/beta_reduction.cpp:222-276 | removing calls and branches keeps execution and guardedness wherever the body is guarded |
| `NormaliserTheorem.LiftLosesTerminator` | dep0/lib/03_typecheck/src/beta_reduction.cpp:262-270 | a step loses a terminator exactly when it lifts a branch that does not return |
| `NormaliserTheorem.BodyReturns` | dep0/lib/03_typecheck/src/beta_reduction.cpp:207-277 | a body that returns modulo constants still does after normalisation |
| `NormaliserTheorem.NormaliseMeaning` | dep0/lib/03_typecheck/src/beta_reduction.cpp:279-302 | a guarded expression keeps its value and effects and stays guarded |
| `NormaliserTheorem.NormaliseMeaningApp` | dep0/lib/03_typecheck/src/beta_reduction.cpp:113-153 | so does an application, whether or not the beta step is taken |
| `NormaliserTheorem.NormaliseMeaningBody` | dep0/lib/03_typecheck/src/beta_reduction.cpp:207-277 | so does a body, in each environment in which it is guarded |
| `NormaliserTheorem.NormaliserTheorem` | dep0/lib/03_typecheck/src/beta_reduction.cpp:207-277 | for every bound on the nesting of beta steps, over any hypotheses: equal outcome and effects wherever they hold, guarded there, legal, and returning as before |
| `NormaliserLimits.LiftCanLoseABranch` | dep0/lib/03_typecheck/src/beta_reduction.cpp:262-270 | a legal body, guarded in its environment, that returns 1 and after normalisation returns 0 |
| `NormaliserLimits.LiftComesTooSoon` | dep0/lib/03_typecheck/src/beta_reduction.cpp:222-277 | `if (c) return 0; if (true) impossible;` is lifted by the second normalisation only |
| `NormaliserLimits.ErasedCall` | dep0/lib/03_typecheck/src/is_mutable.cpp:118-123 | a call whose node is immutable is erased, and that is right exactly when computing the function to be called makes no call |
| `NormaliserLimits.ErasedResult` | dep0/lib/03_typecheck/src/is_mutable.cpp:118-123 | erasing `g(es)()` is right exactly when `g` is immutable |
| `Termination.RedexLighter` | dep0/lib/03_typecheck/src/beta_reduction.cpp:126-148 | the body that a beta step with fine names leaves to be normalised weighs strictly less than the application |
| `Termination.NormaliseLighterBody` | dep0/lib/03_typecheck/src/beta_reduction.cpp:207-277 | normalising makes no body heavier |
| `Termination.StableBody` | dep0/lib/03_typecheck/src/beta_reduction.cpp:207-277 | a bound above the weight of a body changes nothing when it is raised |
| `Termination.NormalisationEnds` | dep0/lib/03_typecheck/src/beta_reduction.cpp:207-302 | there is a bound, computed from the body, beyond which every bound gives the same result |
| `SourceClasses.ApartOk` | dep0/lib/03_typecheck/src/substitute.cpp:52-160 | a substitution is fine if the argument uses no name that is bound in the term |
| `SourceClasses.NormaliseTameBody` | dep0/lib/03_typecheck/src/beta_reduction.cpp:207-277 | if arguments of applied abstractions bind nothing and use no name bound in the abstraction, no beta step of any run renames; if also nothing is `impossible`, or every `if` has an else or a branch that returns, no lift goes wrong |
| `SourceClasses.EarlyReturn` | dep0/lib/03_typecheck/src/beta_reduction.cpp:262-270 | `if (c) return e; impossible;` is such a body; it is lifted and becomes `return e;` |
| `SourceClasses.TameEnds` | dep0/lib/03_typecheck/src/beta_reduction.cpp:207-302 | normalisation of such bodies ends |
| `SourceClasses.LimitTheorem` | dep0/lib/03_typecheck/src/beta_reduction.cpp:207-302 | the result that no larger bound changes means what the body means, wherever the hypotheses hold |
| `SourceClasses.TameTheorem` | dep0/lib/03_typecheck/src/beta_reduction.cpp:207-302 | so it does for every body that meets these conditions as written, with nothing asked of the run |
| `NormalForms.NormaliseNormal` | dep0/lib/03_typecheck/src/beta_reduction.cpp:279-302 | with a bound that is not below its weight, a normalised expression allows no beta step at any position, nor is a parameterless abstraction that only returns an expression left applied |
| `NormalForms.NormaliseNormalApp` | dep0/lib/03_typecheck/src/beta_reduction.cpp:113-153 | so it is for an application: the step is taken whenever it can be |
| `NormalForms.BetaNormalStep` | dep0/lib/03_typecheck/src/beta_reduction.cpp:126-143 | the return type that a step leaves needs no further normalisation |
| `NormalForms.NoStepLeft` | dep0/lib/03_typecheck/src/beta_reduction.cpp:207-302 | for all bounds from the weight of a body on, no beta step is left in the normalised body |
| `NormalForms.NoStepLeftInTame` | dep0/lib/03_typecheck/src/beta_reduction.cpp:207-302 | so it is for bodies whose names are checked as written, with nothing asked of the run |
| `NormalForms.TrimLeft` | dep0/lib/03_typecheck/src/beta_reduction.cpp:222-277 | for every bound and whatever the names, no call without effects, no constant condition and no impossible branch of an immutable condition is left, at any depth of branches |
| `NormalForms.LiftsAll` | dep0/lib/03_typecheck/src/beta_reduction.cpp:262-270 | if no condition becomes a constant, no `if` without else and with an immutable condition is left before something impossible |
| `NormalForms.UnreachableIgnored` | dep0/lib/03_typecheck/src/beta_reduction.cpp:218-221 | what follows a body that returns from all branches makes no difference to the result |
| `Rewriting.RewriteTelescope` | dep0/lib/03_typecheck/src/rewrite.cpp:138-197 | the loop with its stop flag equals the recursive definition |
| `Rewriting.AlphaSameValue` | dep0/lib/03_typecheck/src/rewrite.cpp:199-202 | alpha-equivalent immutable terms have the same value, types with binders included, whatever the test ignores |
| `Rewriting.RewriteEval` | dep0/lib/03_typecheck/src/rewrite.cpp:199-342 | rewriting by a rule whose sides are equal here preserves the value of every immutable term, past dropped results and below binders |
| `Rewriting.RewriteTypes` | dep0/lib/03_typecheck/src/rewrite.cpp:138-197 | for every choice of values for its arguments, each type in a telescope keeps its value: below a binder that occurs in neither side the rule still holds, below any other nothing is rewritten |
| `Rewriting.RewriteExec` | dep0/lib/03_typecheck/src/rewrite.cpp:67-124 | the same for bodies |
| `Rewriting.RewriteLegal` | dep0/lib/03_typecheck/src/rewrite.cpp:199-342 | rewriting keeps terms legal and makes none mutable |
| `RewritePlaces.RewritesIff` | dep0/lib/03_typecheck/src/rewrite.cpp:199-342 | a term is changed if and only if, outside dropped results, `because` and what is below a match or a binder that stops it, it has a sub-term alpha-equivalent to the left side that is not the right side already |
| `RewritePlaces.WhatIsLeft` | dep0/lib/03_typecheck/src/rewrite.cpp:199-342 | a match that is left is part of the right side or arose from a term that was no match but was changed |
| `RewritePlaces.PartlessIsGone` | dep0/lib/03_typecheck/src/rewrite.cpp:199-342 | if the left side is a variable or a constant, none arises |
| `RewritePlaces.MatchCanArise` | dep0/lib/03_typecheck/src/rewrite.cpp:199-342 | rewriting `not x` to `x` leaves `not x` of `not not x` |
| `PathConditions.ProofState.Rewrite` | dep0/lib/03_typecheck/src/proof_state.cpp:19-27 | the types of the context and the goal are rewritten in place |
| `PathConditions.ProofState.Check` | dep0/lib/03_typecheck/src/check.cpp:277-297 | statements are checked one after the other in a state that they change |
| `PathConditions.ProofState.CheckStatement` | dep0/lib/03_typecheck/src/check.cpp:299-447 | branches are checked in fresh states; what follows an `if` whose branch returns is checked under the negated condition |
| `PathConditions.FindProofOfFalse` | dep0/lib/03_typecheck/src/check.cpp:424-432 | the scan over the declarations finds a proof of false if there is one |
| `PathConditions.LearnSound` | dep0/lib/03_typecheck/src/check.cpp:343-364 | what a branch learns is satisfied wherever the branch is taken, and the goal means the same |
| `PathConditions.PathSound` | dep0/lib/03_typecheck/src/check.cpp:277-447 | where the entry hypotheses hold, every accepted `impossible` stands below a branch not taken; conditions have to be boolean in the environment at hand only |
| `PathConditions.PathSoundStmt` | dep0/lib/03_typecheck/src/check.cpp:299-447 | the same for one statement, after which the new state is satisfied unless execution has left |
| `PathConditions.AcceptedRuns` | dep0/lib/03_typecheck/src/check.cpp:277-447 | an accepted body never runs into `impossible`, returns if all its branches do, and keeps its meaning when normalised |
| `PathFacts.CheckedIff` | dep0/lib/03_typecheck/src/check.cpp:277-447 | a body is accepted if and only if each statement in it is acceptable in the entry state under the facts on the path to it |
| `PathFacts.AcceptedIff` | dep0/lib/03_typecheck/src/check.cpp:277-447 | so it is below any facts, and what follows the body is checked under these and the facts known behind it |
| `PathFacts.AcceptedStmtIff` | dep0/lib/03_typecheck/src/check.cpp:299-447 | the same for one statement: after an `if` without else whose branch returns, its negated condition is known |
| `PathFacts.UnderLast` | dep0/lib/03_typecheck/src/check.cpp:343-364 | learning one fact more is rewriting what was known by it and then adding its hypothesis |
| `PathFacts.ImpliedElse` | dep0/lib/03_typecheck/src/check.cpp:386-394 | where `true_t(c)` is known, `impossible` is accepted after `if (c) t` for every `t` that returns |
| `PathLimits.MutableConditionsUnsound` | dep0/lib/03_typecheck/src/check.cpp:346-350 | with a mutable condition an `impossible` that execution reaches is accepted |
| `PathLimits.StopMatters` | dep0/lib/03_typecheck/src/rewrite.cpp:138-197 | where `b` is true, rewriting `b` to `true` leaves `(b) -> true_t(b)` alone, which differs from `(b) -> true_t(true)` |
| `ScopeMaps.ScopeMap.Extend` | dep0/lib/00_core/include/dep0/scope_map.hpp:303-307 | a new scope sees what the old one sees, frozen |
| `ScopeMaps.ScopeMap.InnermostCopy` | dep0/lib/00_core/include/dep0/scope_map.hpp:250-254 | a copy of the innermost scope over the same parents sees the same |
| `ScopeMaps.ScopeMap.DeepCopy` | dep0/lib/00_core/include/dep0/scope_map.hpp:228-260 | a copy all of whose frames are new sees the same |
| `ScopeMaps.ScopeMap.TryEmplace` | dep0/lib/00_core/include/dep0/scope_map.hpp:309-324 | inserts if and only if the innermost scope has no such key, and no other handle sees a difference |
| `ScopeMaps.ScopeMap.Assign` | dep0/lib/03_typecheck/src/usage.cpp:80-82 | overwriting a value changes no key seen anywhere and no other value of any handle, and nothing at all for handles that are not descendants |
| `ScopeMaps.ScopeMap.Lookup` | dep0/lib/00_core/include/dep0/scope_map.hpp:332-346 | the walk up the parents is innermost-first search of what can be seen |
| `ScopeMaps.ScopeMap.MapValues` | dep0/lib/03_typecheck/src/context.cpp:66-70 | changes every value that can be seen, and nothing for handles with other frames |
| `ScopeMaps.ScopeMap.CBegin` | dep0/lib/00_core/include/dep0/scope_map.hpp:262-281 | iterates over all visible entries, outermost scope first, in insertion order |
| `ScopeMaps.ScopeMap.RBegin` | dep0/lib/00_core/include/dep0/scope_map.hpp:283-301 | iterates over exactly the reverse of that |
| `ScopeMaps.LevelsIterator.Next` | dep0/lib/00_core/include/dep0/scope_map.hpp:67-100 | yields the first of the remaining entries and leaves the others |
| `ScopeMaps.ForwardOrder` | dep0/lib/00_core/include/dep0/scope_map.hpp:262-281 | the levels gathered on the way up, reversed, are the entries in order |
| `ScopeMaps.BackwardOrder` | dep0/lib/00_core/include/dep0/scope_map.hpp:283-301 | the reversed levels gathered on the way up are the entries in reverse |
| `ScopeMaps.StillSeen` | dep0/lib/00_core/include/dep0/scope_map.hpp:207-226 | appending to one frame changes no prefix that any handle can see |
| `Usages.Usage.Extend` | dep0/lib/03_typecheck/src/usage.cpp:41-44 | a new object starts from the counts of the old one |
| `Usages.Usage.Get` | dep0/lib/03_typecheck/src/usage.cpp:46-50 | the innermost count of a variable, zero if there is none |
| `Usages.Usage.TryAddDecl` | dep0/lib/03_typecheck/src/usage.cpp:52-85 | accepts a use exactly when the new total does not exceed the declared quantity, and otherwise changes nothing; other handles see at most a total overwritten, and only of a variable that may be used any number of times |
| `Usages.Usage.TryAddTerm` | dep0/lib/03_typecheck/src/usage.cpp:87-211 | adds every use in a term; if one is too much, every lookup through the object is as before; other handles keep what decides |
| `Usages.Usage.TryAddUsage` | dep0/lib/03_typecheck/src/usage.cpp:213-230 | adds one use for each variable another object counted directly, all or none |
| `Usages.MergeUsages` | dep0/lib/03_typecheck/src/usage.cpp:24-39 | a new object with the direct counts of both, the larger where they conflict |
| `UsageTables.KeptAddExpr` | dep0/lib/03_typecheck/src/usage.cpp:87-211 | totals of variables that may be used any number of times decide nothing: counts that differ in them accept and reject the same terms |
| `UsageTables.KeptAddAll` | dep0/lib/03_typecheck/src/usage.cpp:213-230 | nor do they for the direct uses of another object |
| `UsageTables.UsageTable.TryAdd` | dep0/lib/03_typecheck/src/usage.cpp:52-230 | among objects that share frames, one accepts a use just when values that share nothing would, and all go on seeing what the values say |
| `UsageTables.UsageTable.Extend` | dep0/lib/03_typecheck/src/usage.cpp:41-44 | so does extending one of them |
| `UsageTables.UsageTable.Merge` | dep0/lib/03_typecheck/src/usage.cpp:24-39 | so does merging two |
| `UsageRuns.UsageMatches` | dep0/lib/03_typecheck/src/usage.cpp:213-230 | adding one use for each variable of another object is accepted just when adding all its uses is, and stays in agreement with it |
| `UsageRuns.MergeMatches` | dep0/lib/03_typecheck/src/usage.cpp:24-39 | merging agrees with taking the larger of the exact counts |
| `UsageRuns.ValuesDecide` | dep0/lib/03_typecheck/src/usage.cpp:24-230 | over any list of operations, saturating values accept and reject what exact counting does |
| `UsageRuns.PerformAll` | dep0/lib/03_typecheck/src/usage.cpp:24-230 | so do the objects, whatever is extended, added, merged, accepted or rejected on the way |
| `UsageGrowth.StillTooMuch` | dep0/lib/03_typecheck/src/usage.cpp:52-230 | a use that is too much is too much ever after, whatever is counted in between |
| `UsageGrowth.ExtensionFits` | dep0/lib/03_typecheck/src/usage.cpp:213-230 | the direct uses of an object can always be added to the one it was extended from, if nothing was counted there meanwhile |
| `Quantities.CheckTerm` | dep0/lib/03_typecheck/src/type_assign.cpp:76-95 | the checker, threading one usage object, charges what the recursive definition charges |
| `Quantities.CheckPair` | dep0/lib/03_typecheck/src/type_assign.cpp:146-176 | two operands: uses made while assigning a type are committed only if that succeeds |
| `Quantities.CheckTerms` | dep0/lib/03_typecheck/src/type_assign.cpp:659-681 | arguments are charged from left to right |
| `Quantities.CheckBlock` | dep0/lib/03_typecheck/src/check.cpp:277-297 | so are statements |
| `Quantities.CheckBranches` | dep0/lib/03_typecheck/src/check.cpp:327-397 | both branches start from the outer counts, and the larger direct use of the two is added outside |
| `QuantitySoundness.LossyIsExact` | dep0/lib/03_typecheck/src/usage.cpp:213-230 | the lossy counts of nested objects make the same decision as exact counting, and stay in agreement with it |
| `QuantitySoundness.LossyDecidesAsExact` | dep0/lib/03_typecheck/src/usage.cpp:219 | a body is accepted if and only if exact counting accepts it |
| `QuantitySoundness.CountCovers` | dep0/lib/03_typecheck/src/check.cpp:327-397 | exact counts cover the weighted uses along every choice of branches |
| `QuantitySoundness.QuantitiesSound` | dep0/lib/03_typecheck/src/check.cpp:277-447 | in an accepted body, along every choice of branches, the uses of each variable stay within its quantity |
| `QuantityExactness.QuantitiesExact` | dep0/lib/03_typecheck/src/check.cpp:277-447 | where nothing else is wrong and nothing follows a statement that may leave, a body is accepted if and only if no choice of branches uses a variable too often |
| `QuantityExactness.QuantitiesExactThrough` | dep0/lib/03_typecheck/src/check.cpp:277-447 | where nothing else is wrong, a body is accepted if and only if no choice of branches does when it is not cut short by leaving |
| `QuantityExactness.UsedAfterLeaving` | dep0/lib/03_typecheck/src/check.cpp:327-397 | `if (c) return x; return x;` is rejected for a linear `x`, although each run uses it once |
| `QuantityExactness.NoSecondChance` | dep0/lib/03_typecheck/src/type_assign.cpp:162-174 | an operand whose uses are too many is not rescued by checking it last |
| `Contexts.NamesResolve` | dep0/lib/03_typecheck/src/context.cpp:82-91 | a bound name resolves to its declaration with the largest visible shadow id |
| `Contexts.NamedAdded` | dep0/lib/03_typecheck/src/context.cpp:108-116 | the variable chosen for a name is new, and adding it keeps the tables in agreement |
| `Contexts.UnnamedAdded` | dep0/lib/03_typecheck/src/context.cpp:96-103 | so is the variable numbered by the counter |
| `Contexts.ExtendedConsistent` | dep0/lib/03_typecheck/src/context.cpp:49-62 | extending either table keeps them in agreement |
| `Contexts.TypesRewritten` | dep0/lib/03_typecheck/src/context.cpp:64-72 | so does rewriting types |
| `Contexts.LaterConsistent` | dep0/lib/03_typecheck/src/context.cpp:98-100 | a context is not disturbed when another one numbers a variable |
| `Contexts.Context.Extend` | dep0/lib/03_typecheck/src/context.cpp:49-62 | a new scope one deeper that sees the same declarations |
| `Contexts.Context.Rewrite` | dep0/lib/03_typecheck/src/context.cpp:64-72 | a context with fresh values in which only types differ |
| `Contexts.Context.LookupVar` | dep0/lib/03_typecheck/src/context.cpp:82-85 | finds the innermost declaration of a variable |
| `Contexts.Context.LookupName` | dep0/lib/03_typecheck/src/context.cpp:87-91 | finds a declaration exactly when the name is bound |
| `Contexts.Context.TryEmplace` | dep0/lib/03_typecheck/src/context.cpp:105-129 | declares a name once per scope with the next shadow id; the asserted inner insertion never fails; other contexts see no difference |
| `Contexts.Context.AddUnnamed` | dep0/lib/03_typecheck/src/context.cpp:96-103 | adds a variable that no context has, and counts on |
| `Contexts.Context.TryEmplaceAmong` | dep0/lib/03_typecheck/src/context.cpp:105-129 | all other contexts stay in agreement when a name is declared in one |
| `Contexts.Context.AddUnnamedAmong` | dep0/lib/03_typecheck/src/context.cpp:96-103 | and when a variable is numbered in one, which moves the counter of all |
| `Planning.MatchFinds` | dep0/lib/03_typecheck/src/unification.cpp:20-170 | exactly the variables of the pattern outside reasons are bound, to parts of the target whose sorts agree |
| `Planning.UnifyInstance` | dep0/lib/03_typecheck/src/unification.cpp:20-170 | an instance of a pattern without binders outside reasons is matched, and what is found for each variable is what was put in |
| `Planning.PlanStepsExact` | dep0/lib/03_typecheck/src/tactics/search_app.cpp:56-88 | each substitution made while planning instantiates its binder in what is left of the signature if and only if every name chosen on the way is fine |
| `Planning.PatternInst` | dep0/lib/03_typecheck/src/tactics/search_app.cpp:47-49 | the return type with the bindings found is the return type with its binders instantiated by the arguments planned, up to what alpha-equivalence ignores |
| `Planning.PlanTakes` | dep0/lib/03_typecheck/src/tactics/search_app.cpp:50-107 | if the names are fine, arguments that fill the plan have, one after the other, the types that the dependent rule of application asks for after the arguments before them |
| `Planning.PlannedHasType` | dep0/lib/03_typecheck/src/tactics/search_app.cpp:43-164 | under that rule and conversion up to alpha, an application planned for a target has the target type, if the names are fine and a parameter that a matched type shares with the context stands for itself |
| `PlanNames.ApartPlan` | dep0/lib/03_typecheck/src/tactics/search_app.cpp:50-107 | every name chosen in a plan is fine if parameters differ in more than an index and none is bound in a type; what is left open is as clear as what was matched |
| `PlanNames.ApartIsFine` | dep0/lib/03_typecheck/src/tactics/search_app.cpp:43-150 | such a function is planned rightly for every target that binds none of the parameters, although it may mention them, and so on for the types left open |
| `PlanExists.PlanIff` | dep0/lib/03_typecheck/src/tactics/search_app.cpp:50-107 | if the names are fine, there is a plan for a target that unifies if and only if every parameter is mentioned by the return type, outside reasons, or by the type of no later parameter, as declared |
| `PlanExists.ApartPlanIff` | dep0/lib/03_typecheck/src/tactics/search_app.cpp:50-107 | so it is under conditions that can be checked before the search |
| `SearchLimits.PlannedAtWrongType` | dep0/lib/03_typecheck/src/tactics/search_app.cpp:56-88 | for `f : (x, t, P(x)) -> Q(x, t)` and the target `Q(ID, ID)` with `ID` for `(t) -> t`, all indexes 0, the third argument is searched for at `P((t:1) -> ID)` |
| `SearchLimits.AskedFor` | dep0/lib/03_typecheck/src/tactics/search_app.cpp:56-88 | where the dependent rule asks for `P(ID)` |
| `SearchLimits.ComparedByName` | dep0/lib/03_typecheck/src/unification.cpp:95-101 | for `g : (x, t : P(x)) -> Q(x, t)` and the target `Q(true, y)`, a `y` whose type is compared equal by name is planned, with fine names |
| `SearchLimits.AskedByType` | dep0/lib/03_typecheck/src/unification.cpp:95-101 | where the dependent rule asks for a `y` of type `P(true)` |
| `SearchLimits.RecursiveSearch` | dep0/lib/03_typecheck/src/type_assign.cpp:695-711 | a function searched for in its own body, whose parameter is the variable of the context, meets the conditions, with a target that mentions it |
| `SearchLimits.RecursivePlan` | dep0/lib/03_typecheck/src/tactics/search_app.cpp:50-107 | the call planned passes on the argument in the target and leaves open the proof for that argument |
| `ProofSearch.RanKeeps` | dep0/lib/03_typecheck/src/proof_search.cpp:185-235 | with no assumption about types or names, one run of an unfinished task lowers its measure, changes no finished task, and keeps the tree well formed |
| `ProofSearch.RanUntilKeeps` | dep0/lib/03_typecheck/src/proof_search.cpp:203-223 | so does running the sub-tasks up to the first that decides |
| `ProofSearch.AnyKeeps` | dep0/lib/03_typecheck/src/proof_search.cpp:203-214 | an any-task succeeds with its first success, fails when all have failed, and waits only for unfinished sub-tasks |
| `ProofSearch.AllKeep` | dep0/lib/03_typecheck/src/proof_search.cpp:215-234 | an all-task fails with its first failure, finishes when all have succeeded, and waits only for unfinished sub-tasks |
| `ProofSearch.ByAllKeeps` | dep0/lib/03_typecheck/src/proof_search.cpp:312-342 | the cache, the loop check and spawning sub-tasks keep the tree well formed and lower the measure |
| `ProofSearch.ByApplyingKeeps` | dep0/lib/03_typecheck/src/tactics/search_app.cpp:43-164 | so does trying to apply a function, even when it fails after using something |
| `ProofSearch.SpawnLighter` | dep0/lib/03_typecheck/src/proof_search.cpp:328-340 | what a tactic spawns weighs less than the tactic |
| `ProofSearch.SearchState.Run` | dep0/lib/03_typecheck/src/proof_search.cpp:185-235 | the run method computes the recursive definition of one run |
| `ProofSearch.SearchState.SearchByAll` | dep0/lib/03_typecheck/src/proof_search.cpp:312-342 | cached value if affordable, failure on a loop, otherwise three or four sub-tasks |
| `ProofSearch.SearchState.SetResult` | dep0/lib/03_typecheck/src/proof_search.cpp:178-183 | a first result for a target is cached, and the task has succeeded |
| `ProofSearch.SearchState.DetectLoop` | dep0/lib/03_typecheck/src/proof_search.cpp:300-310 | true if and only if some ancestor searches for the same target up to alpha, by the walk from the parent to the root |
| `ProofSearch.SearchState.SearchContext` | dep0/lib/03_typecheck/src/tactics/search_var.cpp:14-22 | the first declaration of a fitting type whose use is accepted |
| `ProofSearch.SearchState.SearchGlobals` | dep0/lib/03_typecheck/src/tactics/search_app.cpp:191-249 | one sub-task for every viable function |
| `ProofSearch.SearchState.Arguments` | dep0/lib/03_typecheck/src/tactics/search_app.cpp:50-107 | the loop over the arguments, using up the substitution and rewriting later types as it goes |
| `ProofSearch.SearchState.TryApply` | dep0/lib/03_typecheck/src/tactics/search_app.cpp:43-164 | applies a function at once or through sub-tasks for its irrelevant arguments, which count on an object extended from the one of the task |
| `ProofSearch.SearchState.TrySpend` | dep0/lib/03_typecheck/src/usage.cpp:52-230 | uses go through the usage object of the task, and are accepted as the values of the specification say |
| `ProofSearch.SearchState.Finish` | dep0/lib/03_typecheck/src/proof_search.cpp:223-233 | the direct uses of the extended object are added to those of the task before the result is built |
| `ProofSearch.SearchState.RunToEnd` | dep0/lib/03_typecheck/src/proof_search.cpp:271-273 | running a task again and again ends without the deadline, with a finished task, whatever the types and names |
| `ProofSearch.SearchFor` | dep0/lib/03_typecheck/src/proof_search.cpp:253-273 | the search counts on objects of its own, extended from the usage of the caller, and changes nothing that was there before |
| `ProofSearch.Commit` | dep0/lib/03_typecheck/src/proof_search.cpp:274-279 | the direct uses of the main task are added to those of the caller before the proof is returned; if they are too much there is no proof |
| `ProofSearch.SearchProof` | dep0/lib/03_typecheck/src/proof_search.cpp:253-279 | the search ends; proof and counts are those that running the main task until it has finished determines, and the usage object of the caller sees what it saw if there is no proof |
| `SearchSoundness.BuildFills` | dep0/lib/03_typecheck/src/tactics/search_app.cpp:145-162 | the results of the sub-tasks go to the arguments they were searched for |
| `SearchSoundness.ByApplyingTyped` | dep0/lib/03_typecheck/src/tactics/search_app.cpp:43-164 | an application built at once has the type searched for, and sub-tasks search for targets that can be planned for again |
| `SearchSoundness.RanTyped` | dep0/lib/03_typecheck/src/proof_search.cpp:185-235 | one run keeps every result and every cache entry of the type it was searched for, if all plans for targets reached have fine names |
| `SearchSoundness.RanTimesTyped` | dep0/lib/03_typecheck/src/proof_search.cpp:271-273 | so does any number of runs |
| `SearchSoundness.FreshIsFine` | dep0/lib/03_typecheck/src/tactics/search_app.cpp:43-150 | what can be checked before the search guarantees that of every target reached |
| `SearchSoundness.ProofHasType` | dep0/lib/03_typecheck/src/proof_search.cpp:253-279 | whatever `search_proof` returns has the target type |
| `SearchSoundness.FreshProofHasType` | dep0/lib/03_typecheck/src/proof_search.cpp:253-279 | so it does under the conditions that can be checked before the search |
| `SearchCompleteness.RanTraced` | dep0/lib/03_typecheck/src/proof_search.cpp:185-235 | one run keeps what is said of each task: the tactics its sub-tasks began with, why it has failed, that a result is cached |
| `SearchCompleteness.RanUntilTraced` | dep0/lib/03_typecheck/src/proof_search.cpp:203-223 | so does running the sub-tasks up to the first that decides |
| `SearchCompleteness.FailureExplained` | dep0/lib/03_typecheck/src/proof_search.cpp:312-345 | a search that failed neither at the depth limit nor in a loop found no variable that may still be used, nothing true and nothing trivial; a full one has attempted every viable function in vain |
| `SearchCompleteness.AttemptExplained` | dep0/lib/03_typecheck/src/tactics/search_app.cpp:43-164 | an attempt is in vain only if no plan with allowed uses exists, or the search for an open argument failed, or what the arguments used is too much |
| `SearchCompleteness.QuickSearchApplies` | dep0/lib/03_typecheck/src/proof_search.cpp:336-345 | a quick search attempts no function |
| `SearchCompleteness.ViableIff` | dep0/lib/03_typecheck/src/tactics/search_app.cpp:199-224 | attempted is what returns a unifiable type, makes the term mutable only where allowed, and is an axiom only in erased contexts and no absurd one |
| `SearchCompleteness.FoundAgain` | dep0/lib/03_typecheck/src/proof_search.cpp:312-323 | what was found once answers every later search for it, as far as its uses allow |
| `SearchCompleteness.ProofIffSuccess` | dep0/lib/03_typecheck/src/proof_search.cpp:274-279 | there is a proof if and only if the main task succeeds: adding its uses to those of the caller never fails |
| `SearchCompleteness.NoProofExplained` | dep0/lib/03_typecheck/src/proof_search.cpp:253-279 | if there is no proof, everything has been tried in vain, with what may still be used at the end |
| `SearchCompleteness.EvidentIsFound` | dep0/lib/03_typecheck/src/proof_search.cpp:253-279 | a target that is true, trivial, the type of a variable that may be used, or returned by a viable function without parameters has a proof |
| `Folding.ArithWraps` | dep0/lib/03_typecheck/src/cpp_int_mult.cpp:11-149 | computing on the bits gives the exact result wrapped, and wrapping the operands first makes no difference; likewise for addition and subtraction |
| `Folding.WrapInRange` | dep0/lib/03_typecheck/src/cpp_int_add.cpp:11-149 | the wrapped integer is in range, differs by a multiple of two to the width, and is the integer itself if that is in range |
| `Folding.StepNum` | dep0/lib/03_typecheck/src/delta_unfold.cpp:499-522 | a step exists unless the expression is a constant; it shrinks the expression and keeps its wrapped value |
| `Folding.StepBool` | dep0/lib/03_typecheck/src/delta_unfold.cpp:448-498 | the same for truth values of boolean expressions and relations |
| `Folding.FoldConstants` | dep0/lib/03_typecheck/src/delta_unfold.cpp:83-98 | a relation or connective of constants folds to its truth |
| `Folding.FoldUntilStuck` | dep0/lib/03_typecheck/src/beta_delta_reduction.cpp:110-119 | repeated folding ends in one in-range constant: the exact value wrapped once |
| `Layout.GetProperties` | dep0/lib/05_llvmgen/src/gen_array.cpp:23-43 | the innermost element type and all dimensions, outermost first |
| `Layout.TotalSize` | dep0/lib/05_llvmgen/src/gen_array.cpp:45-59 | the number of innermost elements |
| `Layout.StrideIfNeeded` | dep0/lib/05_llvmgen/src/gen_array.cpp:61-77 | the number of innermost elements in one row, absent for one dimension |
| `Layout.ElementAddress` | dep0/lib/05_llvmgen/src/gen_val.cpp:147-161 | an index advances by whole rows |
| `Layout.StoreInit` | dep0/lib/05_llvmgen/src/gen_val.cpp:755-773 | a nested initialiser list fills each flattened position exactly once and touches nothing else |
| `Layout.Address` | dep0/lib/05_llvmgen/src/gen_val.cpp:147-161 | a chain of subscripts adds up to the offset of the element |
| `Layout.SubscriptsRead` | dep0/lib/05_llvmgen/src/gen_val.cpp:147-161 | in-range subscripts stay inside the array and read the element they name |
| `Layout.StoredReads` | dep0/lib/05_llvmgen/src/gen_val.cpp:755-773 | what was stored is what is read back |
| `Layout.SubscriptsDistinct` | dep0/lib/05_llvmgen/src/gen_val.cpp:147-161 | different elements do not overlap |
| `Layout.SliceAddress` | dep0/lib/05_llvmgen/src/gen_builtin.cpp:20-39 | a slice points whole rows further on |
| `Layout.SliceReads` | dep0/lib/03_typecheck/src/delta_unfold.cpp:558-591 | `slice(xs, k)[i]` is `xs[k + i]`, as addresses and as lists without their first values |

## Left out

- NormaliserTheorem: the conditions on names (`BetaOk`) and lifts (`LiftOk`) are sufficient and evaluated on the run; conditions on the source that imply them are proved (`TameTheorem`). That a step loses a terminator exactly when the one on lifts is violated is proved (`LiftLosesTerminator`); whether a lost terminator goes on to change the meaning depends on which conditions are satisfiable together.
- NormaliseMeaning: `fuel` bounds how deeply beta steps nest, so that the definition is total on untyped terms; from `Enough` on it bounds nothing (`NormalisationEnds`).
- NormalisationEnds: beta steps whose chosen names are fine. A captured variable stands for another argument, and the weight does not bound what that does.
- LimitTheorem: under conditions on the run; `TameTheorem` has conditions on the body as written instead.
- Termination.StableBody: like NormalisationEnds, for runs whose chosen names are fine.
- Termination.NormaliseLighterBody: like NormalisationEnds, for runs whose chosen names are fine.
- FirstPass: for every bound on the nesting of beta steps, the ones that bound nothing included.
- NormaliseLegal: for every such bound.
- BodyReturns: for every such bound, under the condition on the run that `NormaliserTheorem` has.
- NormaliseMeaningApp: like NormaliseMeaning, under `CleanApp`.
- NormaliseMeaningBody: like NormaliseMeaning, under `CleanBody`.
- BetaMeaning: like BetaIsSimultaneous, if every substitution of the step is right.
- SecondPassMeaning: where no lift goes wrong (`LiftOk`).
- NormalForm: at the top of a body only; `NormalForms.TrimLeft` is about every depth.
- LiftsAll: false where a condition becomes a constant (`LiftComesTooSoon`); the normaliser is not idempotent.
- NoStepLeft: like NormalisationEnds, for runs whose chosen names are fine.
- BetaNormalizeBody: for every bound on the nesting of beta steps; the `changed` result of the source is not exact and is not modelled.
- BetaIsSimultaneous: if every substitution of the step is right. Exactness holds for the substitutions one by one (`BetaStepsExact`); for the step as a whole it cannot, since a wrong substitution may be dropped later (`CaptureCanBeDropped`), so an exact condition would have to follow each occurrence through all later steps.
- PathSound: conditions are immutable, and boolean in the environment at hand; beta-delta equality, the typing of single terms and the types of reasons are parameters with the soundness they need. A term that applies an abstraction on the spot is assumed guarded when accepted, all other terms are shown to be.
- QuantityExactness.QuantitiesExact: blocks in which nothing follows a statement that may leave, since what follows is checked but need not run; `QuantitiesExactThrough` says what is decided for all others.
- LossyDecidesAsExact: over the operations in the order and nesting in which the checker makes them; `UsageRuns.PerformAll` is about arbitrary ones. An object is not added to itself.
- Quantities.CheckTerm: terms are reduced to their uses, multipliers and the positions where a type is assigned or expected; lambdas are charged where they stand, and proof searches inside terms are not charged.
- SearchSoundness.ProofHasType: the typing judgement, conversion, delta-equivalence, the comparison of sorts and the search for trivial values are parameters with the rules they need; array targets of trivial values, which get an empty list whatever their length, are excluded by those rules. The sort that the cache also compares is not represented.
- SearchSoundness.FreshProofHasType: the conditions are not necessary, as for beta steps: a parameter may be bound in a type where no renaming reaches it, and a type that comes out wrong may be dropped by a later substitution. Types of matched parameters that mention a parameter named like a variable of the context are outside `PlainSorts`; `ProofHasType` covers them where that parameter stands for the variable. Whether a well-typed target can be matched otherwise depends on the typing of the function it applies, which is not modelled.
- ProofSearch.SearchState.RunToEnd: the deadline and tracing are left out.
- UnifyComplete: patterns without binders and reasons; sorts are a parameter.
- RewriteEval: preservation of values only; results below initialiser lists, members, subscripts and `because` are dropped by the source, so not every occurrence is replaced.
- AlphaExactWithoutReasons: `AlphaExact` covers terms with reasons, on the condition that is exact by `FairIff`.
- WhatIsLeft: that no match is left at all is false (`MatchCanArise`).
- PlanIff: like PlanTakes, if the names chosen are fine.
- FailureExplained: the deadline is left out; at the depth limit and in a loop a search fails whatever there is.
- FoldUntilStuck: division is not folded, since the signed one divides the unsigned images; C++ integer promotion is not represented; calls and other unfoldings, which need not terminate, are not part of the expressions.
- Layout.StoreInit: tuples, structs and strings; 64-bit products are taken not to overflow.
- Semantics.ImmutableIsPure: terms are first-order, with abstractions applied on the spot and never passed around, so the value of an abstraction says nothing about its body; an immutable expression stands in function position. So it is in all theorems about the normaliser.
- Contexts.Context.Rewrite: source locations of declarations are not represented.
- Edits in place of terms by `substitute`, `replace`, `rename`, alpha-equivalence and the normaliser are modelled on values, with the loops of the source as methods that return the edited term; aliasing of terms cannot be observed in the source either, as every node has one owner.
- Sorts, derivations and source locations of terms, error messages, and the hash of a term, which does not agree with alpha-equivalence.
- Parsing, pretty printing, modules and linking, LLVM code generation other than array addressing, the prelude, tracing and the command line.
