/** A mutable condition on which checking is unsound, and a binder at which rewriting has to stop. */
module PathLimits {
  import opened Ast
  import opened AlphaEquivalence
  import opened Binders
  import opened Semantics
  import opened Rewriting
  import opened PathConditions

  const COIN := App(true, Atom(Global(None, "coin")), [])

  // if (coin()) {} else { if (coin()) impossible; }
  const TOSS_TWICE: seq<Stmt> := [IfElse(COIN, Body([]), Some(Body(TOSS_AGAIN)))]
  const TOSS_AGAIN: seq<Stmt> := [IfElse(COIN, Body([Impossible(None)]), None)]

  // Heads is false on the first toss and true afterwards.
  const TOSSES: Interp := Interp(
    _ => VUnit, _ => VUnit, (_, _) => VUnit,
    (op: Op, vs: seq<Value>) => if op == Not && |vs| == 1 && vs[0].VBool? then VBool(!vs[0].b) else VUnit,
    (g: Value, vs: seq<Value>) => if |vs| == 1 then vs[0] else VUnit,
    (tr: Trace, g: Value, vs: seq<Value>) => VBool(|tr| > 0))

  const HEADS: Value -> bool := v => v == VBool(true)

  const SYNTACTIC: Checks := Checks(
    (context: seq<Expr>, e: Expr) => Direct(e),
    (context: seq<Expr>, goal: Expr, e: Option<Expr>) => e.Some? ==> Direct(e.value),
    (context: seq<Expr>, r: Expr) => Rejected,
    ty => ty == TrueOf(FALSE) || ty == TrueOf(Negated(TRUE)))

  lemma TossesStandard(env: Env)
    ensures Standard(TOSSES, HEADS) && SoundChecks(TOSSES, HEADS, SYNTACTIC, env)
  {
    NegationStandard();
    TruthStandard();
    forall ty | SYNTACTIC.isFalse(ty) ensures Pure(TOSSES, ty, env) == Pure(TOSSES, TrueOf(FALSE), env) {
      FoldedFalse(env);
    }
  }

  lemma NegationStandard()
    ensures ScopeBlind(TOSSES) && forall b :: TOSSES.prim(Not, [VBool(b)]) == VBool(!b)
  {
  }

  lemma TruthStandard()
    ensures forall b :: HEADS(TOSSES.call(TOSSES.atom(TrueT), [VBool(b)])) == b
  {
  }

  lemma FoldedFalse(env: Env)
    ensures Pure(TOSSES, TrueOf(FALSE), env) == Pure(TOSSES, TrueOf(Negated(TRUE)), env) == VBool(false)
  {
  }

  lemma TossAgainAccepted(goal: Expr)
    ensures CheckBody(SYNTACTIC, Known([], goal).UnderFalse(COIN), TOSS_AGAIN).Some?
  {
    var outer := Known([], goal).UnderFalse(COIN);
    ContextOfInner(outer);
    ImpossibleAccepted(outer.UnderTrue(COIN));
    Accepts(outer, TOSS_AGAIN[0]);
  }

  lemma ContextOfInner(outer: Known)
    requires outer.context == [TrueOf(Negated(COIN))]
    ensures outer.UnderTrue(COIN).context == [TrueOf(Negated(TRUE)), TrueOf(COIN)]
  {
    RewritesToFalse();
  }

  lemma ImpossibleAccepted(inner: Known)
    requires inner.context == [TrueOf(Negated(TRUE)), TrueOf(COIN)]
    ensures CheckBody(SYNTACTIC, inner, [Impossible(None)]).Some?
  {
    assert SYNTACTIC.isFalse(inner.context[0]);
    Accepts(inner, Impossible(None));
  }

  lemma RewritesToFalse()
    ensures RewriteSeq(COIN, TRUE, [TrueOf(Negated(COIN))]) == [TrueOf(Negated(TRUE))]
  {
    assert RewriteSeq(COIN, TRUE, []) == [];
    assert [COIN][0] == COIN && [COIN][1..] == [] && AlphaEqSeq([], []);
    assert AlphaEq(COIN, COIN);
    assert RewriteSeq(COIN, TRUE, [COIN]) == [TRUE];
    var n := Negated(COIN);
    assert Rewrite(COIN, TRUE, n) == Negated(TRUE);
    assert [n][0] == n && [n][1..] == [];
    assert RewriteSeq(COIN, TRUE, [n]) == [Negated(TRUE)];
    var t := TrueOf(n);
    assert !AlphaEq(t, COIN) && !AlphaEq(Atom(TrueT), COIN);
    assert Rewrite(COIN, TRUE, t) == TrueOf(Negated(TRUE));
    assert [t][0] == t && [t][1..] == [];
  }

  lemma Accepts(st: Known, s: Stmt)
    ensures CheckBody(SYNTACTIC, st, [s]) == CheckStmt(SYNTACTIC, st, s)
  {
  }

  lemma TossAgainAbsurd()
    ensures var tossed := [Event(VUnit, [])]; Exec(TOSSES, TOSS_AGAIN, map[], tossed).out == Absurd
  {
  }

  /** Conditions are recorded even when they are mutable. The second toss need not repeat the first, so an `impossible`
      that execution reaches is accepted. */
  lemma MutableConditionsUnsound(goal: Expr)
    ensures Standard(TOSSES, HEADS) && SoundChecks(TOSSES, HEADS, SYNTACTIC, map[])
    ensures LegalStmts(TOSS_TWICE) && CheckBody(SYNTACTIC, Known([], goal), TOSS_TWICE).Some?
    ensures Exec(TOSSES, TOSS_TWICE, map[], []).out == Absurd
  {
    TossTwiceLegal();
    TossesStandard(map[]);
    TossTwiceAccepted(goal);
    TossTwiceAbsurd();
  }

  lemma TossTwiceLegal()
    ensures LegalStmts(TOSS_TWICE)
  {
    assert LegalSeq([]) && Legal(COIN) && !IsAbs(COIN);
    assert LegalStmts([]) && LegalStmt(TOSS_AGAIN[0]) && TOSS_AGAIN[1..] == [];
    assert LegalStmt(TOSS_TWICE[0]) && TOSS_TWICE[1..] == [];
  }

  lemma TossTwiceAccepted(goal: Expr)
    ensures CheckBody(SYNTACTIC, Known([], goal), TOSS_TWICE).Some?
  {
    TossAgainAccepted(goal);
    Accepts(Known([], goal), TOSS_TWICE[0]);
    assert CheckBody(SYNTACTIC, Known([], goal).UnderTrue(COIN), []).Some?;
  }

  lemma TossTwiceAbsurd()
    ensures Exec(TOSSES, TOSS_TWICE, map[], []).out == Absurd
  {
    TossAgainAbsurd();
    var r := Eval(TOSSES, COIN, map[], []);
    assert EvalSeq(TOSSES, [], map[], []).vs == [];
    assert r == Res(VBool(false), [Event(VUnit, [])]);
    assert ExecStmt(TOSSES, TOSS_TWICE[0], map[], []).out == Absurd;
  }

  // ---- why rewriting stops at binders ----

  const B := Var("b", 0, 0)

  // (b) -> true_t(b), and with `true` written for `b` below the binder
  const EACH_HOLDS := Bind(Cons(Arg(Many, Atom(BoolT), Some(B)), Tele([], PiEnd(false, TrueOf(VarE(B))))))
  const TRUE_HOLDS := Bind(Cons(Arg(Many, Atom(BoolT), Some(B)), Tele([], PiEnd(false, TrueOf(TRUE)))))

  // What a type with one argument says for the argument `false`.
  ghost function SaidOfFalse(f: Family): Value {
    if [VBool(false)] in f && |f[[VBool(false)]]| == 2 then f[[VBool(false)]][1] else VUnit
  }

  lemma SaidByType(I: Interp, c: Expr, env: Env)
    ensures var t := Cons(Arg(Many, Atom(BoolT), Some(B)), Tele([], PiEnd(false, TrueOf(c))));
            SaidOfFalse(FamilyOf(I, t, env)) == I.call(I.atom(TrueT), [Pure(I, c, env[B := VBool(false)])])
  {
    var end := Tele([], PiEnd(false, TrueOf(c)));
    var t, vs := Cons(Arg(Many, Atom(BoolT), Some(B)), end), [VBool(false)];
    TruthOf(I, c, env[B := VBool(false)]);
    assert Rest(t) == end && t.args[0].name == Some(B);
    assert TypesOf(I, end, Others(vs), env[B := VBool(false)]) == [Pure(I, TrueOf(c), env[B := VBool(false)])];
    assert FamilyOf(I, t, env)[vs] == TypesOf(I, t, vs, env);
  }

  // An interpretation that tells the two types apart, where `b` is true.
  ghost const SAYING: Interp := TOSSES.(binder := (shape, f) => SaidOfFalse(f))
  const B_TRUE: Env := map[B := VBool(true)]

  lemma StopsThere()
    ensures Rewrite(VarE(B), TRUE, EACH_HOLDS) == EACH_HOLDS
  {
    var t := Cons(Arg(Many, Atom(BoolT), Some(B)), Tele([], PiEnd(false, TrueOf(VarE(B)))));
    assert t.args[0] == Arg(Many, Atom(BoolT), Some(B)) && OccursIn(B, VarE(B), false);
    assert RewriteTele(VarE(B), TRUE, t) == Cons(t.args[0], Rest(t));
  }

  /** Where `b` is true, `b` may be rewritten to `true`, but not below a binder of the same name: types that differ
      there can be told apart. Rewriting stops there. */
  lemma StopMatters()
    ensures Rewrite(VarE(B), TRUE, EACH_HOLDS) == EACH_HOLDS
    ensures ScopeBlind(SAYING) && Rule(SAYING, VarE(B), TRUE, B_TRUE)
    ensures Pure(SAYING, EACH_HOLDS, B_TRUE) != Pure(SAYING, TRUE_HOLDS, B_TRUE)
  {
    StopsThere();
    SaidByType(SAYING, VarE(B), B_TRUE);
    SaidByType(SAYING, TRUE, B_TRUE);
  }
}
