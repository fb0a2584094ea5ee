/** Applying an abstraction to arguments whose binders are named like a later parameter. */
module BetaLimits {
  import opened Ast
  import opened Binders
  import opened Nameless
  import opened Substitution

  const X := Var("x", 0, 0)
  const T := Var("t", 0, 0)
  const T1 := Var("t", 1, 0)
  const BOOL := Atom(BoolT)

  function Pi(v: Var, r: Expr): Expr {
    Bind(Cons(Arg(Many, BOOL, Some(v)), Result(r)))
  }

  function Result(r: Expr): Tele {
    Tele([], PiEnd(false, r))
  }

  function Returning(e: Expr): Tele {
    Tele([], AbsEnd(false, BOOL, Body([Return(Some(e))])))
  }

  // (t) -> t, and a function that returns it
  const IDENTITY := Pi(T, VarE(T))
  const CONSTANT := Pi(T1, IDENTITY)

  // (x, t). return x
  const FIRST := Cons(Arg(Many, BOOL, Some(X)), Cons(Arg(Many, BOOL, Some(T)), Returning(VarE(X))))

  // ---- the functions involved, unfolded ----

  lemma OneReturn(e: Expr)
    ensures MaxIndexTele(Returning(e)) == MaxIndex(e)
    ensures forall x, y :: SubstTele(x, y, Returning(e)) == Returning(Subst(x, y, e))
    ensures forall x, y :: ReplaceTele(x, y, Returning(e)) == Returning(Replace(x, y, e))
    ensures forall sc :: ToNamelessTele(Returning(e), sc) == Below(ToNameless(e, sc))
  {
    var s := Return(Some(e));
    assert [s][0] == s && [s][1..] == [];
    assert MaxIndexStmts([s]) == MaxIndex(e);
    assert forall x, y :: SubstStmts(x, y, [s]) == [Return(Some(Subst(x, y, e)))];
    assert forall x, y :: ReplaceStmts(x, y, [s]) == [Return(Some(Replace(x, y, e)))];
    assert forall sc :: ToNamelessStmts([s], sc) == [NReturn(Some(ToNameless(e, sc)))];
  }

  lemma InstBelow(us: seq<NExpr>, e: NExpr)
    ensures NInstTele(us, 0, Below(e)) == Below(NInst(us, 0, e))
  {
    var n := NReturn(Some(e));
    assert [n][0] == n && [n][1..] == [];
    assert NInstStmts(us, 0, [n]) == [NReturn(Some(NInst(us, 0, e)))];
    assert NInst(us, 0, NAtom(BoolT)) == NAtom(BoolT);
  }

  function Below(e: NExpr): NTele {
    NAbsEnd(false, NAtom(BoolT), NBody([NReturn(Some(e))]))
  }

  lemma PiUnfolds(v: Var, r: Expr)
    ensures MaxIndex(Pi(v, r)) == Max(v.idx, MaxIndex(r)) && OccursIn(v, Pi(v, r), true)
    ensures ToNameless(Pi(v, r), []) == NBind(NArg(Many, NAtom(BoolT), NPiEnd(false, ToNameless(r, [Some(v)]))))
  {
    var t := Cons(Arg(Many, BOOL, Some(v)), Result(r));
    assert Rest(t) == Result(r) && t.args[0] == Arg(Many, BOOL, Some(v));
    assert MaxIndex(BOOL) == 0 && MaxIndexTele(Result(r)) == MaxIndex(r);
    assert Push(Some(v), []) == [Some(v)];
    assert ToNamelessTele(Result(r), [Some(v)]) == NPiEnd(false, ToNameless(r, [Some(v)]));
    assert ToNameless(BOOL, []) == NAtom(BoolT);
    assert ToNamelessTele(t, []) == NArg(Many, NAtom(BoolT), NPiEnd(false, ToNameless(r, [Some(v)])));
  }

  // ---- the two steps ----

  // The first substitution renames the parameter `t`, which occurs in the argument.
  lemma FirstStep()
    ensures SubstTele(X, IDENTITY, Rest(FIRST)) == Cons(Arg(Many, BOOL, Some(T1)), Returning(IDENTITY))
  {
    PiUnfolds(T, VarE(T));
    OneReturn(VarE(X));
    assert FreshVar(T, Returning(VarE(X))) == T1;
  }

  // The second renames the binder of the argument to the same name, and substitutes for it.
  lemma SecondStep()
    ensures Subst(T1, IDENTITY, IDENTITY) == CONSTANT
  {
    PiUnfolds(T, VarE(T));
    assert FreshVar(T, Result(VarE(T))) == T1;
    assert ReplaceTele(T, T1, Result(VarE(T))) == Result(VarE(T1));
    assert SubstTele(T1, IDENTITY, Result(VarE(T1))) == Result(IDENTITY);
    var t := IDENTITY.tele;
    assert Rest(t) == Result(VarE(T)) && t.args[0] == Arg(Many, BOOL, Some(T));
    assert SubstTele(T1, IDENTITY, t) == Cons(Arg(Many, BOOL, Some(T1)), Result(IDENTITY));
  }

  lemma BothSteps()
    ensures BetaTele(FIRST, [IDENTITY, IDENTITY]) == Returning(CONSTANT)
  {
    FirstStep();
    SecondStep();
    OneReturn(IDENTITY);
    assert [IDENTITY, IDENTITY][1..] == [IDENTITY] && [IDENTITY][1..] == [];
    assert BetaTele(Returning(CONSTANT), []) == Returning(CONSTANT);
    assert BetaTele(Cons(Arg(Many, BOOL, Some(T1)), Returning(IDENTITY)), [IDENTITY]) == Returning(CONSTANT);
  }

  // What instantiating both binders at once gives.
  lemma AtOnce(u: NExpr)
    ensures NInstTele(Reversed([u, u]), 0, NLast(ToNamelessTele(FIRST, []))) == Below(u)
  {
    OneReturn(VarE(X));
    InstBelow([u, u], NBound(1));
    var inner := Cons(Arg(Many, BOOL, Some(T)), Returning(VarE(X)));
    assert Push(Some(T), Push(Some(X), [])) == [Some(T), Some(X)] && Find([Some(T), Some(X)], X) == Some(1);
    assert NLast(ToNamelessTele(inner, [Some(X)])) == Below(NBound(1));
    assert [u, u][1..] == [u] && [u][1..] == [] && Reversed([u]) == [u] && Reversed([u, u]) == [u, u];
  }

  /** With all indexes 0, `(x, t). return x` applied to two copies of `(t) -> t` does not return it. */
  lemma BetaCanCapture()
    ensures MaxIndexTele(FIRST) == 0 && MaxIndex(IDENTITY) == 0
    ensures var vs := [IDENTITY, IDENTITY];
            && BetaTele(FIRST, vs) == Returning(CONSTANT) && ToNameless(CONSTANT, []) != ToNameless(IDENTITY, [])
            && !BetaOk(FIRST, vs)
  {
    PiUnfolds(T, VarE(T));
    PiUnfolds(T1, IDENTITY);
    OneReturn(VarE(X));
    BothSteps();
    assert ToNameless(VarE(T), [Some(T)]) == NBound(0);
    var u, vs := ToNameless(IDENTITY, []), [IDENTITY, IDENTITY];
    assert vs[1..] == [IDENTITY] && [IDENTITY][1..] == [] && ToNamelessSeq(vs, []) == [u, u];
    AtOnce(u);
    OneReturn(CONSTANT);
    if BetaOk(FIRST, vs) { BetaIsSimultaneous(FIRST, vs); }
  }

  // (x, (t) -> x). return bool
  const DROPPED := Cons(Arg(Many, BOOL, Some(X)), Cons(Arg(Many, Pi(T, VarE(X)), None), Returning(BOOL)))
  const SUM := Node(Plus, [VarE(T), VarE(T1)])

  lemma DroppedNotOk()
    ensures !BetaOk(DROPPED, [SUM, BOOL])
  {
    assert SUM.operands[0] == VarE(T) && SUM.operands[1..] == [VarE(T1)];
    assert OccursIn(T, SUM, true);
    assert OccursIn(T1, SUM, false) by { assert OccursInSeq(T1, SUM.operands[1..], false); }
    var t := Cons(Arg(Many, BOOL, Some(T)), Result(VarE(X)));
    assert MaxIndexTele(Result(VarE(X))) == 0 && FreshVar(T, Result(VarE(X))) == T1;
    assert Rest(t) == Result(VarE(X)) && !SubstOkTele(X, SUM, t);
    var rest := Cons(Arg(Many, Pi(T, VarE(X)), None), Returning(BOOL));
    assert Rest(DROPPED) == rest && !SubstOkTele(X, SUM, rest);
  }

  lemma DroppedLast()
    ensures NLast(ToNamelessTele(DROPPED, [])) == Below(NAtom(BoolT))
  {
    OneReturn(BOOL);
    var sc := Push(Some(X), []);
    var rest := Cons(Arg(Many, Pi(T, VarE(X)), None), Returning(BOOL));
    assert Rest(rest) == Returning(BOOL) && Rest(DROPPED) == rest;
    assert NLast(ToNamelessTele(rest, sc)) == NLast(ToNamelessTele(Returning(BOOL), Push(None, sc)));
  }

  lemma DroppedSteps()
    ensures BetaTele(DROPPED, [SUM, BOOL]) == Returning(BOOL)
  {
    OneReturn(BOOL);
    var rest := Cons(Arg(Many, Pi(T, VarE(X)), None), Returning(BOOL));
    assert Rest(DROPPED) == rest && Rest(rest) == Returning(BOOL);
    assert [SUM, BOOL][1..] == [BOOL] && [BOOL][1..] == [];
    var next := SubstTele(X, SUM, rest);
    var a := rest.args[0];
    assert a == Arg(Many, Pi(T, VarE(X)), None) && a.name != Some(X);
    assert SubstTele(X, SUM, Returning(BOOL)) == Returning(Subst(X, SUM, BOOL)) == Returning(BOOL);
    assert next == Cons(Arg(a.qty, Subst(X, SUM, a.ty), a.name), SubstTele(X, SUM, Rest(rest)));
    assert BetaTele(Returning(BOOL), []) == Returning(BOOL);
    assert BetaTele(next, [BOOL]) == Returning(BOOL);
  }

  /** The converse fails: a capture in the type of a parameter is dropped with the parameter. */
  lemma CaptureCanBeDropped()
    ensures var vs := [SUM, BOOL];
            && !BetaOk(DROPPED, vs)
            && ToNamelessTele(BetaTele(DROPPED, vs), [])
               == NInstTele(Reversed(ToNamelessSeq(vs, [])), 0, NLast(ToNamelessTele(DROPPED, [])))
  {
    DroppedNotOk();
    DroppedLast();
    DroppedSteps();
    OneReturn(BOOL);
    InstBelow(Reversed(ToNamelessSeq([SUM, BOOL], [])), NAtom(BoolT));
  }
}
