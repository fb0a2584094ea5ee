/** Two inputs on which the normaliser changes what a body does. */
module NormaliserLimits {
  import opened Ast
  import opened Semantics
  import opened Guarding
  import opened UnreachableCode
  import opened Normaliser

  function Named(name: string): Expr {
    VarE(Var(name, 0, 0))
  }

  function Num(n: int): Stmt {
    Return(Some(Atom(NumConst(n))))
  }

  // if (d) { if (true) { if (a) return 1; else { if (b) f(); impossible; } } impossible; } return 0;
  const LOST_BRANCH: seq<Stmt> := [IfElse(Named("d"), Body(UNDER_D), None), Num(0)]
  const UNDER_D: seq<Stmt> := [IfElse(Atom(BoolConst(true)), Body(UNDER_TRUE), None), Impossible(None)]
  const UNDER_TRUE: seq<Stmt> := [IfElse(Named("a"), Body([Num(1)]), Some(Body(UNDER_NOT_A)))]
  const UNDER_NOT_A: seq<Stmt> := [IfElse(Named("b"), Body([EFFECT]), None), Impossible(None)]
  const EFFECT: Stmt := Call(true, Atom(Global(None, "f")), [])

  // One or two statements, unfolded.
  lemma Single(s: Stmt)
    ensures [s][1..] == [] && Drop([s]) == [DropInStmt(s)]
    ensures forall fuel :: NormaliseStmts([s], fuel) == [NormaliseStmt(s, fuel)]
    ensures Look(s, []).Keep? ==> SecondPass([s]) == [s]
    ensures LegalStmts([s]) == LegalStmt(s) && Returns([s]) == ReturnsStmt(s)
    ensures ReturnsFromAllBranches([s]) == IsTerminator(s) && ImpossibleRange([s]) == ImpossibleStmt(s)
    ensures forall I, env :: GuardedStmts(I, [s], env) == GuardedStmt(I, s, env)
    ensures forall I, env, tr :: Exec(I, [s], env, tr) == ExecStmt(I, s, env, tr)
  {
  }

  lemma Pair(s: Stmt, z: Stmt)
    ensures [s, z][1..] == [z] && (!IsTerminator(s) ==> Drop([s, z]) == [DropInStmt(s), DropInStmt(z)])
    ensures forall fuel :: NormaliseStmts([s, z], fuel) == [NormaliseStmt(s, fuel), NormaliseStmt(z, fuel)]
    ensures LegalStmts([s, z]) == (LegalStmt(s) && LegalStmt(z))
            && Returns([s, z]) == (ReturnsStmt(s) || ReturnsStmt(z))
    ensures ReturnsFromAllBranches([s, z]) == (IsTerminator(s) || IsTerminator(z))
    ensures forall I, env :: GuardedStmts(I, [s, z], env) ==
                             (GuardedStmt(I, s, env) && (Excused(I, s, env) || GuardedStmt(I, z, env)))
  {
    assert [s, z][0] == s && [s, z][1..] == [z];
    Single(z);
    DropUnfolds([s, z]);
  }

  lemma SplitPair(s: Stmt, z: Stmt)
    ensures Look(s, [z]).Keep? && Look(z, []).Keep? ==> SecondPass([s, z]) == [s, z]
    ensures forall next :: Look(s, [z]) == Restart(next) ==> SecondPass([s, z]) == SecondPass(next)
  {
    assert [s, z][0] == s && [s, z][1..] == [z];
    Single(z);
  }

  lemma Names(s: string, fuel: nat)
    ensures Legal(Named(s)) && !IsAbs(Named(s)) && !IsMutable(Named(s)) && !IsImpossible(Named(s))
    ensures Normalise(Named(s), fuel) == Named(s)
    ensures forall I, env :: Guarded(I, Named(s), env)
    ensures forall I, env, tr :: Eval(I, Named(s), env, tr) == Res(Lookup(I, Var(s, 0, 0), env), tr)
  {
  }

  lemma Leaves(n: int, fuel: nat)
    ensures LegalStmt(Num(n)) && !ImpossibleStmt(Num(n)) && NormaliseStmt(Num(n), fuel) == Num(n)
    ensures forall I, env :: GuardedStmt(I, Num(n), env)
    ensures forall I, env, tr :: ExecStmt(I, Num(n), env, tr) == Run(Returned(I.atom(NumConst(n))), tr)
    ensures LegalStmt(EFFECT) && !ImpossibleStmt(EFFECT) && NormaliseStmt(EFFECT, fuel) == EFFECT
    ensures NormaliseBody([Num(n)], fuel) == [Num(n)] && NormaliseBody([EFFECT], fuel) == [EFFECT]
    ensures !ImpossibleRange([]) && !ImpossibleRange([Num(n)]) && !ImpossibleRange([EFFECT])
  {
    var f := Atom(Global(None, "f"));
    assert Normalise(f, fuel) == f && NormaliseSeq([], fuel) == [] && !IsImpossible(f) && !AnyImpossible([]);
    assert LegalSeq([]) && Legal(f) && !IsMutable(f);
    Single(Num(n));
    Single(EFFECT);
  }

  // The lift: `if (b) f(); impossible` becomes `f()`.
  lemma LiftedUnderNotA(fuel: nat)
    ensures NormaliseBody(UNDER_NOT_A, fuel) == [EFFECT] && Drop(UNDER_NOT_A) == UNDER_NOT_A
    ensures LegalStmts(UNDER_NOT_A) && ReturnsFromAllBranches(UNDER_NOT_A) && Returns(UNDER_NOT_A)
  {
    var s := UNDER_NOT_A[0];
    Names("b", fuel);
    Leaves(0, fuel);
    Single(EFFECT);
    Single(Impossible(None));
    Pair(s, Impossible(None));
    SplitPair(s, Impossible(None));
    assert NormaliseStmt(s, fuel) == s && DropInStmt(s) == s;
    assert Look(s, [Impossible(None)]) == Restart([EFFECT]);
  }

  lemma UnderTrue(fuel: nat)
    ensures NormaliseBody(UNDER_TRUE, fuel) == [IfElse(Named("a"), Body([Num(1)]), Some(Body([EFFECT])))]
    ensures LegalStmts(UNDER_TRUE) && Returns(UNDER_TRUE) && Drop(UNDER_TRUE) == UNDER_TRUE
  {
    Names("a", fuel);
    Leaves(1, fuel);
    LiftedUnderNotA(fuel);
    var s, r := UNDER_TRUE[0], IfElse(Named("a"), Body([Num(1)]), Some(Body([EFFECT])));
    Single(Num(1));
    Single(s);
    Single(r);
    assert DropInStmt(s) == s && NormaliseStmt(s, fuel) == r;
  }

  lemma UnderD(fuel: nat)
    ensures NormaliseBody(UNDER_D, fuel) == [IfElse(Named("a"), Body([Num(1)]), Some(Body([EFFECT]))), Impossible(None)]
    ensures ImpossibleRange(NormaliseBody(UNDER_D, fuel))
    ensures LegalStmts(UNDER_D) && Returns(UNDER_D) && Drop(UNDER_D) == UNDER_D
  {
    UnderTrue(fuel);
    Names("a", fuel);
    Leaves(1, fuel);
    Single(EFFECT);
    var s, z, r := UNDER_D[0], Impossible(None), IfElse(Named("a"), Body([Num(1)]), Some(Body([EFFECT])));
    Single(z);
    Pair(s, z);
    Pair(r, z);
    assert !IsTerminator(r) && DropInStmt(r) == r && DropInStmt(s) == s;
    var n := NormaliseStmt(s, fuel);
    assert Normalise(Atom(BoolConst(true)), fuel) == Atom(BoolConst(true));
    assert n == IfElse(Atom(BoolConst(true)), Body([r]), None);
    SplitPair(n, z);
    SplitPair(r, z);
    assert [r] + [z] == [r, z];
    assert [r, z][0] == r && [r, z][1..] == [z];
  }

  /** Without `LiftOk` the normaliser miscompiles. Under the hypothesis `a`, `if (b) f(); impossible` is well typed in
      the else-branch; it is lifted to `f()`, which no longer ends the branch; splicing `if (true)` then puts an
      `impossible` after it, the whole branch of `d` is judged impossible, and `return 0` is all that is left. */
  lemma LiftCanLoseABranch(I: Interp, env: Env, fuel: nat, tr: Trace)
    requires Lookup(I, Var("a", 0, 0), env) == VBool(true) && Lookup(I, Var("d", 0, 0), env) == VBool(true)
    ensures LegalStmts(LOST_BRANCH) && GuardedStmts(I, LOST_BRANCH, env)
    ensures Exec(I, LOST_BRANCH, env, tr) == Run(Returned(I.atom(NumConst(1))), tr)
    ensures Exec(I, NormaliseBody(LOST_BRANCH, fuel), env, tr) == Run(Returned(I.atom(NumConst(0))), tr)
  {
    LostBranchNormal(fuel);
    Leaves(0, fuel);
    Single(Num(0));
    LostBranchRun(I, env, tr);
    LostBranchGuarded(I, env);
  }

  lemma LostBranchNormal(fuel: nat)
    ensures NormaliseBody(LOST_BRANCH, fuel) == [Num(0)] && LegalStmts(LOST_BRANCH)
  {
    UnderD(fuel);
    Names("d", fuel);
    Leaves(0, fuel);
    var s := LOST_BRANCH[0];
    Single(Num(0));
    Pair(s, Num(0));
    var n := NormaliseStmt(s, fuel);
    SplitPair(n, Num(0));
    assert DropInStmt(s) == s && Look(n, [Num(0)]) == Restart([Num(0)]);
  }

  lemma LostBranchRun(I: Interp, env: Env, tr: Trace)
    requires Lookup(I, Var("a", 0, 0), env) == VBool(true) && Lookup(I, Var("d", 0, 0), env) == VBool(true)
    ensures Exec(I, LOST_BRANCH, env, tr) == Run(Returned(I.atom(NumConst(1))), tr)
  {
    Names("a", 0);
    Names("d", 0);
    Leaves(1, 0);
    var one := Run(Returned(I.atom(NumConst(1))), tr);
    Single(Num(1));
    Single(UNDER_TRUE[0]);
    assert Exec(I, [Num(1)], env, tr) == one;
    assert ExecStmt(I, UNDER_TRUE[0], env, tr) == one;
    assert Exec(I, UNDER_TRUE, env, tr) == one;
    assert ExecStmt(I, UNDER_D[0], env, tr) == one;
    assert Exec(I, UNDER_D, env, tr) == one;
    assert ExecStmt(I, LOST_BRANCH[0], env, tr) == one;
  }

  lemma LostBranchGuarded(I: Interp, env: Env)
    requires Lookup(I, Var("a", 0, 0), env) == VBool(true) && Lookup(I, Var("d", 0, 0), env) == VBool(true)
    ensures GuardedStmts(I, LOST_BRANCH, env)
  {
    UnderD(0);
    UnderDGuarded(I, env);
    Names("d", 0);
    Leaves(0, 0);
    var s := LOST_BRANCH[0];
    Pair(s, Num(0));
    assert Eval(I, Named("d"), env, []).v == VBool(true);
    assert GuardedStmt(I, s, env);
  }

  lemma UnderDGuarded(I: Interp, env: Env)
    requires Lookup(I, Var("a", 0, 0), env) == VBool(true)
    ensures GuardedStmts(I, UNDER_D, env)
  {
    UnderTrue(0);
    Names("a", 0);
    Leaves(1, 0);
    Single(Num(1));
    var s, z := UNDER_TRUE[0], UNDER_D[0];
    Single(s);
    assert s == IfElse(Named("a"), Body([Num(1)]), Some(Body(UNDER_NOT_A)));
    assert Holds(I, Named("a"), env) && GuardedStmts(I, [Num(1)], env);
    assert GuardedStmt(I, s, env);
    assert GuardedStmts(I, UNDER_TRUE, env);
    Pair(z, UNDER_D[1]);
    assert Guarded(I, Atom(BoolConst(true)), env);
    assert Eval(I, Atom(BoolConst(true)), env, []).v == VBool(true);
    assert GuardedStmt(I, z, env) && Excused(I, z, env);
  }

  /** A call whose node is immutable is erased; that is right exactly when computing the function to be called has no
      effect here, which an immutable function position guarantees. */
  lemma ErasedCall(I: Interp, f: Expr, es: seq<Expr>, env: Env, tr: Trace)
    requires LegalSeq(es) && !AnyMutable(es) && !IsAbs(f)
    ensures var call := Call(false, f, es);
            && SecondPass([call]) == []
            && (Exec(I, SecondPass([call]), env, tr) == Exec(I, [call], env, tr) <==> Eval(I, f, env, tr).tr == tr)
            && (Legal(f) && !IsMutable(f) ==> Exec(I, SecondPass([call]), env, tr) == Exec(I, [call], env, tr))
  {
    var call, e := Call(false, f, es), Eval(I, f, env, tr);
    Single(call);
    assert SecondPass([]) == [] && Look(call, []) == Restart([]);
    ImmutableIsPureSeq(I, es, env, e.tr);
    assert Eval(I, App(false, f, es), env, tr).tr == e.tr;
    assert ExecStmt(I, call, env, tr) == Run(Fell, e.tr);
    if Legal(f) && !IsMutable(f) { ImmutableIsPure(I, f, env, tr); }
  }

  /** So erasing `g(es)()` is right exactly when `g` is immutable. */
  lemma ErasedResult(I: Interp, m: bool, g: AtomKind, es: seq<Expr>, env: Env, tr: Trace)
    requires LegalSeq(es) && !AnyMutable(es)
    ensures var call := Call(false, App(m, Atom(g), es), []);
            Exec(I, SecondPass([call]), env, tr) == Exec(I, [call], env, tr) <==> !m
  {
    ErasedCall(I, App(m, Atom(g), es), [], env, tr);
    ImmutableIsPureSeq(I, es, env, tr);
    assert Eval(I, Atom(g), env, tr).tr == tr;
    assert m ==> |Eval(I, App(m, Atom(g), es), env, tr).tr| == |tr| + 1;
  }

  // if (c) return 0; if (true) impossible;
  const HIDDEN: seq<Stmt> := [IfElse(Named("c"), Body([Num(0)]), None), IfElse(TRUE, Body([Impossible(None)]), None)]
  const TRUE: Expr := Atom(BoolConst(true))

  /** An `impossible` below a constant comes to light too late for the lift: normalising again would lift. */
  lemma LiftComesTooSoon(fuel: nat)
    ensures NormaliseBody(HIDDEN, fuel) == [IfElse(Named("c"), Body([Num(0)]), None), Impossible(None)]
    ensures NormaliseBody(NormaliseBody(HIDDEN, fuel), fuel) == [Num(0)]
  {
    var s, z, last := HIDDEN[0], HIDDEN[1], Impossible(None);
    Names("c", fuel);
    Leaves(0, fuel);
    Single(last);
    Single(z);
    Single(Num(0));
    Pair(s, z);
    Pair(s, last);
    SplitPair(s, last);
    assert [last] + [] == [last] && [s, z][1..] == [z] && [z][1..] == [];
    assert NormaliseBody([last], fuel) == [last] && NormaliseStmt(z, fuel) == z && NormaliseStmt(s, fuel) == s;
    assert DropInStmt(s) == s && DropInStmt(z) == z;
    assert Look(z, []) == Restart([last]);
    assert SecondPass([z]) == [last];
    assert Look(s, [z]).Keep?;
    assert SecondPass([s, z]) == [s] + [last];
    assert Look(s, [last]) == Restart([Num(0)]);
  }
}
