/** Substitution means evaluation in an extended environment: for immutable arguments, and whenever the renames made on
    the way are fine (`SubstOk`), a term with `y` put in for `x` runs as the term itself with `x` bound to the value of
    `y`. */
module SubstitutionMeaning {
  import opened Ast
  import opened Binders
  import opened Nameless
  import opened Substitution
  import opened Semantics
  import opened Guarding
  import opened MeaningOfBinding

  // What may be pushed into a body.
  ghost predicate Argument(I: Interp, y: Expr, env: Env) {
    Legal(y) && !IsMutable(y) && !IsAbs(y) && Guarded(I, y, env)
  }

  lemma SingleFind(v: Var, u: Var)
    ensures Find([Some(v)], u) == if u == v then Some(0) else None
  {
    assert [Some(v)][1..] == [];
  }

  // A binding that is not used changes nothing.
  lemma UnusedBinding(I: Interp, y: Expr, env: Env, name: Option<Var>, w: Value)
    requires Argument(I, y, env) && (name.Some? ==> !OccursIn(name.value, y, false))
    ensures Argument(I, y, Extend(name, w, env)) && Pure(I, y, Extend(name, w, env)) == Pure(I, y, env)
  {
    if name.Some? {
      var sc: Scope := [name];
      forall u ensures Find(sc, u) == if u == name.value then Some(0) else None { SingleFind(name.value, u); }
      Coincidence(y, sc, []);
      assert EnvMatch(I, sc, Extend(name, w, env), [], env);
      AlphaEval(I, y, sc, Extend(name, w, env), y, [], env, []);
      AlphaGuarded(I, y, sc, Extend(name, w, env), y, [], env);
    }
  }

  // The first telescope means and runs as the second does, and is guarded if the second is.
  ghost predicate SameTele(I: Interp, t: Tele, env: Env, u: Tele, fnv: Env) {
    && ShapeOf(t) == ShapeOf(u) && (forall vs :: TypesOf(I, t, vs, env) == TypesOf(I, u, vs, fnv))
    && (forall vs, tr :: RunTele(I, t, vs, env, tr) == RunTele(I, u, vs, fnv, tr))
    && (forall vs :: GuardedRun(I, u, vs, fnv) ==> GuardedRun(I, t, vs, env))
    && (GuardedSignature(I, u, fnv) ==> GuardedSignature(I, t, env))
  }

  lemma AlphaSameTele(I: Interp, t: Tele, sc: Scope, env: Env, u: Tele, sd: Scope, fnv: Env)
    requires ToNamelessTele(t, sc) == ToNamelessTele(u, sd) && EnvMatch(I, sc, env, sd, fnv)
    ensures SameTele(I, t, env, u, fnv)
  {
    AlphaShape(t, sc, u, sd);
    forall vs ensures TypesOf(I, t, vs, env) == TypesOf(I, u, vs, fnv) {
      AlphaTypes(I, t, sc, env, u, sd, fnv, vs);
    }
    forall vs, tr ensures RunTele(I, t, vs, env, tr) == RunTele(I, u, vs, fnv, tr) {
      AlphaRunTele(I, t, sc, env, u, sd, fnv, vs, tr);
    }
    forall vs ensures GuardedRun(I, u, vs, fnv) ==> GuardedRun(I, t, vs, env) {
      AlphaGuardedRun(I, t, sc, env, u, sd, fnv, vs);
    }
    AlphaGuardedSignature(I, t, sc, env, u, sd, fnv);
  }

  lemma RenamedEnv(I: Interp, x: Var, name: Var, z: Var, env: Env, v: Value, w: Value)
    requires name != x
    ensures EnvMatch(I, Push(Some(z), []), env[z := w], Push(Some(name), Push(Some(x), [])), env[x := v][name := w])
  {
    var sc, sd: Scope := Push(Some(z), []), Push(Some(name), Push(Some(x), []));
    forall u ensures Find(sc, u) == (if u == z then Some(0) else None) {}
    forall u ensures Find(sd, u) == (if u == name then Some(0) else if u == x then Some(1) else None) {}
  }

  // Below a binder that was renamed, when the target of the substitution does not occur there.
  lemma RenamedNoop(I: Interp, x: Var, y: Expr, name: Var, rest: Tele, env: Env, v: Value, w: Value)
    requires name != x && !OccursInTele(x, rest, false)
    requires var z := FreshVar(name, rest);
             (z == x ==> !OccursInTele(name, rest, false)) && SubstOkTele(x, y, ReplaceTele(name, z, rest))
    ensures var z := FreshVar(name, rest);
            SameTele(I, SubstTele(x, y, ReplaceTele(name, z, rest)), env[z := w], rest, env[x := v][name := w])
  {
    var z := FreshVar(name, rest);
    var renamed := ReplaceTele(name, z, rest);
    RenameKeepsMeaning(name, rest, []);
    ReplaceFreeTele(rest, name, z, x);
    SubstNoopTele(renamed, x, y, Push(Some(z), []));
    var sd := Push(Some(name), Push(Some(x), []));
    CoincidenceTele(rest, Push(Some(name), []), sd);
    RenamedEnv(I, x, name, z, env, v, w);
    AlphaSameTele(I, SubstTele(x, y, renamed), Push(Some(z), []), env[z := w], rest, sd, env[x := v][name := w]);
  }

  // Below a binder that was renamed, before substituting.
  lemma RenamedSame(I: Interp, x: Var, name: Var, rest: Tele, env: Env, v: Value, w: Value)
    requires name != x && FreshVar(name, rest) != x
    ensures var z := FreshVar(name, rest);
            SameTele(I, ReplaceTele(name, z, rest), env[z := w][x := v], rest, env[x := v][name := w])
  {
    var z := FreshVar(name, rest);
    RenameKeepsMeaning(name, rest, []);
    var sc, sd := Push(Some(z), []), Push(Some(name), []);
    assert EnvMatch(I, sc, env[z := w][x := v], sd, env[x := v][name := w]);
    AlphaSameTele(I, ReplaceTele(name, z, rest), sc, env[z := w][x := v], rest, sd, env[x := v][name := w]);
  }

  lemma {:induction false} SubstMutable(e: Expr, x: Var, y: Expr)
    requires !IsMutable(y) && !IsAbs(y)
    ensures IsMutable(Subst(x, y, e)) == IsMutable(e) && IsAbs(Subst(x, y, e)) == IsAbs(e)
    decreases Size(e), 0
  {
    match e
    case Atom(_) =>
    case VarE(_) =>
    case Node(_, es) => SubstAnyMutable(es, x, y);
    case App(_, _, es) => SubstAnyMutable(es, x, y);
    case Because(v, _) => SubstMutable(v, x, y);
    case Bind(t) => SubstEnd(t, x, y);
  }

  lemma {:induction false} SubstAnyMutable(es: seq<Expr>, x: Var, y: Expr)
    requires !IsMutable(y) && !IsAbs(y)
    ensures AnyMutable(SubstSeq(x, y, es)) == AnyMutable(es)
    decreases SizeSeq(es), 1
  {
    if es != [] { SubstMutable(es[0], x, y); SubstAnyMutable(es[1..], x, y); }
  }

  lemma {:induction false} SubstEnd(t: Tele, x: Var, y: Expr)
    ensures SubstTele(x, y, t).end.AbsEnd? == t.end.AbsEnd?
    decreases |t.args|
  {
    if t.args != [] {
      var name, rest := t.args[0].name, Rest(t);
      if name == Some(x) {
      } else if name.Some? && OccursIn(name.value, y, true) {
        var z := FreshVar(name.value, rest);
        ReplaceEnd(rest, name.value, z);
        SubstEnd(ReplaceTele(name.value, z, rest), x, y);
      } else {
        SubstEnd(rest, x, y);
      }
    }
  }

  lemma {:induction false} ReplaceEnd(t: Tele, from: Var, to: Var)
    ensures ReplaceTele(from, to, t).end.AbsEnd? == t.end.AbsEnd?
    decreases |t.args|
  {
    if t.args != [] { ReplaceEnd(Rest(t), from, to); }
  }

  lemma {:induction false} SubstEval(I: Interp, e: Expr, x: Var, y: Expr, env: Env)
    requires Argument(I, y, env) && SubstOk(x, y, e)
    ensures forall tr :: Eval(I, Subst(x, y, e), env, tr) == Eval(I, e, env[x := Pure(I, y, env)], tr)
    ensures Guarded(I, e, env[x := Pure(I, y, env)]) ==> Guarded(I, Subst(x, y, e), env)
    decreases Size(e), 0
  {
    match e
    case Atom(_) =>
    case VarE(v) =>
      if v == x {
        forall tr ensures Eval(I, y, env, tr) == Res(Pure(I, y, env), tr) { ImmutableIsPure(I, y, env, tr); }
      }
    case Node(_, es) => SubstEvalSeq(I, es, x, y, env);
    case App(m, f, es) =>
      SubstEval(I, f, x, y, env);
      SubstEvalSeq(I, es, x, y, env);
      SubstMutable(f, x, y);
      if IsAbs(f) {
        assert Size(f) == 1 + SizeTele(f.tele);
        SubstRun(I, f.tele, x, y, env);
        SubstEvalApp(I, m, f, es, x, y, env);
      }
    case Because(v, _) => SubstEval(I, v, x, y, env);
    case Bind(t) =>
      SubstRun(I, t, x, y, env);
      SameFamily(I, SubstTele(x, y, t), env, t, env[x := Pure(I, y, env)]);
  }

  // An applied abstraction, from what is known of its arguments and of its telescope.
  lemma SubstEvalApp(I: Interp, m: bool, f: Expr, es: seq<Expr>, x: Var, y: Expr, env: Env)
    requires IsAbs(f) && IsAbs(Subst(x, y, f))
    requires var fnv := env[x := Pure(I, y, env)];
             && (forall tr :: EvalSeq(I, SubstSeq(x, y, es), env, tr) == EvalSeq(I, es, fnv, tr))
             && (GuardedSeq(I, es, fnv) ==> GuardedSeq(I, SubstSeq(x, y, es), env))
             && (Guarded(I, f, fnv) ==> Guarded(I, Subst(x, y, f), env))
             && SameTele(I, SubstTele(x, y, f.tele), env, f.tele, fnv)
    ensures forall tr ::
            Eval(I, Subst(x, y, App(m, f, es)), env, tr)
            == Eval(I, App(m, f, es), env[x := Pure(I, y, env)], tr)
    ensures Guarded(I, App(m, f, es), env[x := Pure(I, y, env)]) ==> Guarded(I, Subst(x, y, App(m, f, es)), env)
  {
  }

  lemma {:induction false} SubstEvalSeq(I: Interp, es: seq<Expr>, x: Var, y: Expr, env: Env)
    requires Argument(I, y, env) && SubstOkSeq(x, y, es)
    ensures forall tr :: EvalSeq(I, SubstSeq(x, y, es), env, tr) == EvalSeq(I, es, env[x := Pure(I, y, env)], tr)
    ensures GuardedSeq(I, es, env[x := Pure(I, y, env)]) ==> GuardedSeq(I, SubstSeq(x, y, es), env)
    decreases SizeSeq(es), 1
  {
    if es != [] { SubstEval(I, es[0], x, y, env); SubstEvalSeq(I, es[1..], x, y, env); }
  }

  // What substitution makes of a binder and of the telescope below it.
  function UnderBinder(x: Var, y: Expr, name: Option<Var>, rest: Tele): (Option<Var>, Tele) {
    if name == Some(x) then (name, rest)
    else if name.Some? && OccursIn(name.value, y, true) then
      var z := FreshVar(name.value, rest);
      (Some(z), SubstTele(x, y, ReplaceTele(name.value, z, rest)))
    else (name, SubstTele(x, y, rest))
  }

  lemma SameTeleCons(I: Interp, a: Arg, t: Tele, env: Env, b: Arg, u: Tele, fnv: Env)
    requires Guarded(I, b.ty, fnv) ==> Guarded(I, a.ty, env)
    requires Eval(I, a.ty, env, []) == Eval(I, b.ty, fnv, [])
    requires forall w: Value :: SameTele(I, t, Extend(a.name, w, env), u, Extend(b.name, w, fnv))
    ensures SameTele(I, Cons(a, t), env, Cons(b, u), fnv)
  {
    assert SameTele(I, t, Extend(a.name, VUnit, env), u, Extend(b.name, VUnit, fnv));
    forall vs ensures TypesOf(I, Cons(a, t), vs, env) == TypesOf(I, Cons(b, u), vs, fnv) {
      assert SameTele(I, t, Extend(a.name, First(vs), env), u, Extend(b.name, First(vs), fnv));
    }
    forall vs, tr ensures RunTele(I, Cons(a, t), vs, env, tr) == RunTele(I, Cons(b, u), vs, fnv, tr) {
      assert SameTele(I, t, Extend(a.name, First(vs), env), u, Extend(b.name, First(vs), fnv));
    }
    forall vs ensures GuardedRun(I, Cons(b, u), vs, fnv) ==> GuardedRun(I, Cons(a, t), vs, env) {
      assert SameTele(I, t, Extend(a.name, First(vs), env), u, Extend(b.name, First(vs), fnv));
    }
    forall w: Value
      ensures GuardedSignature(I, u, Extend(b.name, w, fnv)) ==> GuardedSignature(I, t, Extend(a.name, w, env))
    {
      assert SameTele(I, t, Extend(a.name, w, env), u, Extend(b.name, w, fnv));
    }
  }

  lemma {:induction false} SubstRun(I: Interp, t: Tele, x: Var, y: Expr, env: Env)
    requires Argument(I, y, env) && SubstOkTele(x, y, t)
    ensures SameTele(I, SubstTele(x, y, t), env, t, env[x := Pure(I, y, env)])
    decreases SizeTele(t), 2
  {
    if t.args == [] {
      SubstRunEnd(I, t, x, y, env);
    } else {
      var a, rest, under := t.args[0], Rest(t), UnderBinder(x, y, t.args[0].name, Rest(t));
      SubstEval(I, a.ty, x, y, env);
      forall w: Value
        ensures SameTele(I, under.1, Extend(under.0, w, env), rest, Extend(a.name, w, env[x := Pure(I, y, env)]))
      {
        if a.name == Some(x) { assert env[x := Pure(I, y, env)][x := w] == env[x := w]; }
        else if a.name.Some? && OccursIn(a.name.value, y, true) {
          SubstRenamedBinder(I, a.name.value, rest, x, y, env, w);
        }
        else { SubstPlainBinder(I, a.name, rest, x, y, env, w); }
      }
      var b := Arg(a.qty, Subst(x, y, a.ty), under.0);
      SameTeleCons(I, b, under.1, env, a, rest, env[x := Pure(I, y, env)]);
      assert SubstTele(x, y, t) == Cons(b, under.1);
      assert t == Cons(a, rest);
    }
  }

  lemma {:induction false} SubstRunEnd(I: Interp, t: Tele, x: Var, y: Expr, env: Env)
    requires Argument(I, y, env) && SubstOkTele(x, y, t) && t.args == []
    ensures SameTele(I, SubstTele(x, y, t), env, t, env[x := Pure(I, y, env)])
    decreases SizeTele(t), 1
  {
    match t.end
    case SigmaEnd =>
    case PiEnd(m, r) =>
      SubstEval(I, r, x, y, env);
      var u, fnv := SubstTele(x, y, t), env[x := Pure(I, y, env)];
      assert u == Tele([], PiEnd(m, Subst(x, y, r)));
      forall vs ensures TypesOf(I, u, vs, env) == TypesOf(I, t, vs, fnv) {
        assert TypesOf(I, u, vs, env) == [Eval(I, Subst(x, y, r), env, []).v];
      }
    case AbsEnd(m, r, b) =>
      SubstEval(I, r, x, y, env);
      SubstExec(I, b.stmts, x, y, env);
      var u, fnv := SubstTele(x, y, t), env[x := Pure(I, y, env)];
      assert u == Tele([], AbsEnd(m, Subst(x, y, r), Body(SubstStmts(x, y, b.stmts))));
      forall vs ensures TypesOf(I, u, vs, env) == TypesOf(I, t, vs, fnv) {
        assert TypesOf(I, u, vs, env) == [Eval(I, Subst(x, y, r), env, []).v];
      }
      forall vs, tr ensures RunTele(I, u, vs, env, tr) == RunTele(I, t, vs, fnv, tr) {
        assert RunTele(I, u, vs, env, tr) == Exec(I, SubstStmts(x, y, b.stmts), env, tr);
      }
      forall vs ensures GuardedRun(I, t, vs, fnv) ==> GuardedRun(I, u, vs, env) {
        assert GuardedRun(I, u, vs, env) <==> GuardedStmts(I, SubstStmts(x, y, b.stmts), env);
      }
  }

  lemma {:induction false} SubstRenamedBinder(I: Interp, name: Var, rest: Tele, x: Var, y: Expr, env: Env, w: Value)
    requires Argument(I, y, env) && name != x
    requires var z := FreshVar(name, rest);
             RenameOk(x, y, name, z, rest) && SubstOkTele(x, y, ReplaceTele(name, z, rest))
    ensures var z := FreshVar(name, rest);
            SameTele(I, SubstTele(x, y, ReplaceTele(name, z, rest)), env[z := w], rest,
              env[x := Pure(I, y, env)][name := w])
    decreases SizeTele(rest), 3
  {
    var z := FreshVar(name, rest);
    if OccursIn(z, y, false) || z == x {
      RenameKeepsMeaning(name, rest, []);
      FreeIsAnywhereTele(rest, x);
      RenamedNoop(I, x, y, name, rest, env, Pure(I, y, env), w);
    } else {
      UnusedBinding(I, y, env, Some(z), w);
      SubstRun(I, ReplaceTele(name, z, rest), x, y, env[z := w]);
      RenamedSame(I, x, name, rest, env, Pure(I, y, env), w);
    }
  }

  lemma {:induction false} SubstPlainBinder(I: Interp, name: Option<Var>, rest: Tele, x: Var, y: Expr, env: Env,
        w: Value)
    requires Argument(I, y, env) && name != Some(x) && SubstOkTele(x, y, rest)
    requires name.Some? ==> !OccursIn(name.value, y, true)
    ensures SameTele(I, SubstTele(x, y, rest), Extend(name, w, env), rest, Extend(name, w, env[x := Pure(I, y, env)]))
    decreases SizeTele(rest), 3
  {
    if name.Some? { FreeIsAnywhere(y, name.value); }
    UnusedBinding(I, y, env, name, w);
    SubstRun(I, rest, x, y, Extend(name, w, env));
    assert Extend(name, w, env)[x := Pure(I, y, env)] == Extend(name, w, env[x := Pure(I, y, env)]);
  }

  lemma {:induction false} SubstExec(I: Interp, ss: seq<Stmt>, x: Var, y: Expr, env: Env)
    requires Argument(I, y, env) && SubstOkStmts(x, y, ss)
    ensures forall tr :: Exec(I, SubstStmts(x, y, ss), env, tr) == Exec(I, ss, env[x := Pure(I, y, env)], tr)
    ensures GuardedStmts(I, ss, env[x := Pure(I, y, env)]) ==> GuardedStmts(I, SubstStmts(x, y, ss), env)
    ensures Returns(ss) ==> Returns(SubstStmts(x, y, ss))
    decreases SizeStmts(ss), 2
  {
    if ss != [] { SubstExecStmt(I, ss[0], x, y, env); SubstExec(I, ss[1..], x, y, env); }
  }

  // An `if`, from what is known of its condition and branches.
  lemma SubstExecIf(I: Interp, s: Stmt, x: Var, y: Expr, env: Env)
    requires s.IfElse? && IsMutable(Subst(x, y, s.cond)) == IsMutable(s.cond)
    requires var fnv, c, t := env[x := Pure(I, y, env)], s.cond, s.thenB.stmts;
             && (forall tr :: Eval(I, Subst(x, y, c), env, tr) == Eval(I, c, fnv, tr))
             && (Guarded(I, c, fnv) ==> Guarded(I, Subst(x, y, c), env))
             && (forall tr :: Exec(I, SubstStmts(x, y, t), env, tr) == Exec(I, t, fnv, tr))
             && (GuardedStmts(I, t, fnv) ==> GuardedStmts(I, SubstStmts(x, y, t), env))
             && (Returns(t) ==> Returns(SubstStmts(x, y, t)))
             && (s.elseB.Some? ==> var e := s.elseB.value.stmts;
                   && (forall tr :: Exec(I, SubstStmts(x, y, e), env, tr) == Exec(I, e, fnv, tr))
                   && (GuardedStmts(I, e, fnv) ==> GuardedStmts(I, SubstStmts(x, y, e), env))
                   && (Returns(e) ==> Returns(SubstStmts(x, y, e))))
    ensures forall tr :: ExecStmt(I, SubstStmt(x, y, s), env, tr) == ExecStmt(I, s, env[x := Pure(I, y, env)], tr)
    ensures GuardedStmt(I, s, env[x := Pure(I, y, env)]) ==> GuardedStmt(I, SubstStmt(x, y, s), env)
    ensures ReturnsStmt(s) ==> ReturnsStmt(SubstStmt(x, y, s))
    ensures Excused(I, s, env[x := Pure(I, y, env)]) ==> Excused(I, SubstStmt(x, y, s), env)
  {
  }

  lemma {:induction false} SubstExecStmt(I: Interp, s: Stmt, x: Var, y: Expr, env: Env)
    requires Argument(I, y, env) && SubstOkStmt(x, y, s)
    ensures forall tr :: ExecStmt(I, SubstStmt(x, y, s), env, tr) == ExecStmt(I, s, env[x := Pure(I, y, env)], tr)
    ensures GuardedStmt(I, s, env[x := Pure(I, y, env)]) ==> GuardedStmt(I, SubstStmt(x, y, s), env)
    ensures ReturnsStmt(s) ==> ReturnsStmt(SubstStmt(x, y, s))
    ensures Excused(I, s, env[x := Pure(I, y, env)]) ==> Excused(I, SubstStmt(x, y, s), env)
    decreases SizeStmt(s), 1
  {
    match s
    case Call(m, f, es) =>
      SubstEval(I, App(m, f, es), x, y, env);
      assert Subst(x, y, App(m, f, es)) == App(m, Subst(x, y, f), SubstSeq(x, y, es));
    case IfElse(c, t, e) =>
      SubstMutable(c, x, y);
      SubstEval(I, c, x, y, env);
      SubstExec(I, t.stmts, x, y, env);
      if e.Some? { SubstExec(I, e.value.stmts, x, y, env); }
      SubstExecIf(I, s, x, y, env);
    case Return(e) => if e.Some? { SubstEval(I, e.value, x, y, env); }
    case Impossible(_) =>
  }

  // ---- the beta step ----

  ghost predicate Arguments(I: Interp, values: seq<Expr>, env: Env) {
    LegalSeq(values) && !AnyMutable(values) && GuardedSeq(I, values, env)
  }

  // Running what the beta step leaves is running the abstraction with the values of its arguments.
  lemma {:induction false} BetaMeaning(I: Interp, t: Tele, values: seq<Expr>, env: Env)
    requires |values| == |t.args| && BetaOk(t, values) && Arguments(I, values, env)
    ensures forall tr :: RunTele(I, BetaTele(t, values), [], env, tr) == RunTele(I, t, PureSeq(I, values, env), env, tr)
    ensures GuardedRun(I, t, PureSeq(I, values, env), env) ==> GuardedRun(I, BetaTele(t, values), [], env)
    ensures GuardedSignature(I, t, env) ==> GuardedSignature(I, BetaTele(t, values), env)
    decreases |t.args|
  {
    if t.args == [] {
      assert values == [] && PureSeq(I, values, env) == [];
    } else {
      var name, rest, v, vs := t.args[0].name, Rest(t), Pure(I, values[0], env), PureSeq(I, values[1..], env);
      var next := if name.Some? then SubstTele(name.value, values[0], rest) else rest;
      ImmutableIsPure(I, values[0], env, []);
      assert PureSeq(I, values, env) == [v] + vs;
      assert Others([v] + vs) == vs;
      BetaMeaning(I, next, values[1..], env);
      if name.Some? {
        SubstRun(I, rest, name.value, values[0], env);
      }
      assert SameTele(I, next, env, rest, Extend(name, v, env));
    }
  }
}
