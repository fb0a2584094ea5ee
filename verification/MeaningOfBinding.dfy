/** The semantics looks at binders only through nameless terms: alpha-equivalent terms mean the same, and substitution
    means evaluation in an extended environment. */
module MeaningOfBinding {
  import opened Ast
  import opened Nameless
  import opened Substitution
  import opened Semantics
  import opened Guarding

  // Corresponding binders have the same value, and so has every variable bound by neither scope.
  ghost predicate EnvMatch(I: Interp, sc: Scope, env: Env, sd: Scope, fnv: Env) {
    && (forall u, w :: Find(sc, u).Some? && Find(sc, u) == Find(sd, w) ==> Lookup(I, u, env) == Lookup(I, w, fnv))
    && (forall u :: Find(sc, u).None? && Find(sd, u).None? ==> Lookup(I, u, env) == Lookup(I, u, fnv))
  }

  lemma EnvMatchPush(I: Interp, m: Option<Var>, sc: Scope, env: Env, n: Option<Var>, sd: Scope, fnv: Env, v: Value)
    requires EnvMatch(I, sc, env, sd, fnv)
    ensures EnvMatch(I, Push(m, sc), Extend(m, v, env), Push(n, sd), Extend(n, v, fnv))
  {
    var sc', sd', env', fnv' := Push(m, sc), Push(n, sd), Extend(m, v, env), Extend(n, v, fnv);
    forall u, w | Find(sc', u).Some? && Find(sc', u) == Find(sd', w)
      ensures Lookup(I, u, env') == Lookup(I, w, fnv')
    {
      if m == Some(u) {
        assert n == Some(w);
      } else {
        assert Find(sc, u).Some? && Find(sc, u) == Find(sd, w) && n != Some(w);
      }
    }
    forall u | Find(sc', u).None? && Find(sd', u).None?
      ensures Lookup(I, u, env') == Lookup(I, u, fnv')
    {
      assert m != Some(u) && n != Some(u) && Find(sc, u).None? && Find(sd, u).None?;
    }
  }

  lemma {:induction false} AlphaMutable(p: Expr, sc: Scope, q: Expr, sd: Scope)
    requires ToNameless(p, sc) == ToNameless(q, sd)
    ensures IsMutable(p) == IsMutable(q) && IsAbs(p) == IsAbs(q)
    decreases Size(p), 1
  {
    match p
    case Atom(_) =>
    case VarE(_) =>
    case Node(_, es) => AlphaMutableSeq(es, sc, q.operands, sd);
    case App(_, _, es) => AlphaMutableSeq(es, sc, q.args, sd);
    case Because(v, _) => AlphaMutable(v, sc, q.value, sd);
    case Bind(t) => AlphaShape(t, sc, q.tele, sd);
  }

  lemma {:induction false} AlphaMutableSeq(es: seq<Expr>, sc: Scope, fs: seq<Expr>, sd: Scope)
    requires ToNamelessSeq(es, sc) == ToNamelessSeq(fs, sd)
    ensures AnyMutable(es) == AnyMutable(fs)
    decreases SizeSeq(es), 2
  {
    if es != [] && fs != [] {
      SameHeadAndTail(ToNameless(es[0], sc), ToNamelessSeq(es[1..], sc), ToNameless(fs[0], sd),
        ToNamelessSeq(fs[1..], sd));
      AlphaMutable(es[0], sc, fs[0], sd);
      AlphaMutableSeq(es[1..], sc, fs[1..], sd);
    }
  }

  lemma {:induction false} AlphaShape(t: Tele, sc: Scope, u: Tele, sd: Scope)
    requires ToNamelessTele(t, sc) == ToNamelessTele(u, sd)
    ensures ShapeOf(t) == ShapeOf(u)
    decreases |t.args|
  {
    if t.args != [] { AlphaShape(Rest(t), Push(t.args[0].name, sc), Rest(u), Push(u.args[0].name, sd)); }
  }

  // ---- evaluation ----

  lemma {:induction false} AlphaEval(I: Interp, p: Expr, sc: Scope, env: Env, q: Expr, sd: Scope, fnv: Env, tr: Trace)
    requires ToNameless(p, sc) == ToNameless(q, sd) && EnvMatch(I, sc, env, sd, fnv)
    ensures Eval(I, p, env, tr) == Eval(I, q, fnv, tr)
    decreases Size(p), 1
  {
    match p
    case Atom(_) =>
    case VarE(v) =>
    case Node(op, es) => if !op.ScopeOf? { AlphaEvalSeq(I, es, sc, env, q.operands, sd, fnv, tr); }
    case App(_, f, es) => AlphaEvalApp(I, p, sc, env, q, sd, fnv, tr);
    case Because(v, _) => AlphaEval(I, v, sc, env, q.value, sd, fnv, tr);
    case Bind(t) =>
      AlphaShape(t, sc, q.tele, sd);
      forall vs ensures TypesOf(I, t, vs, env) == TypesOf(I, q.tele, vs, fnv) {
        AlphaTypes(I, t, sc, env, q.tele, sd, fnv, vs);
      }
      SameFamily(I, t, env, q.tele, fnv);
  }

  lemma {:induction false} AlphaTypes(I: Interp, t: Tele, sc: Scope, env: Env, u: Tele, sd: Scope, fnv: Env,
        vs: seq<Value>)
    requires ToNamelessTele(t, sc) == ToNamelessTele(u, sd) && EnvMatch(I, sc, env, sd, fnv)
    ensures TypesOf(I, t, vs, env) == TypesOf(I, u, vs, fnv)
    decreases SizeTele(t), 3
  {
    if t.args == [] {
      match t.end
      case SigmaEnd =>
      case PiEnd(_, r) => AlphaEval(I, r, sc, env, u.end.ret, sd, fnv, []);
      case AbsEnd(_, r, _) => AlphaEval(I, r, sc, env, u.end.ret, sd, fnv, []);
    } else {
      var m, n, rest := t.args[0].name, u.args[0].name, Rest(t);
      AlphaEval(I, t.args[0].ty, sc, env, u.args[0].ty, sd, fnv, []);
      EnvMatchPush(I, m, sc, env, n, sd, fnv, First(vs));
      AlphaTypes(I, rest, Push(m, sc), Extend(m, First(vs), env), Rest(u), Push(n, sd), Extend(n, First(vs), fnv),
        Others(vs));
    }
  }

  lemma {:induction false} AlphaEvalApp(I: Interp, p: Expr, sc: Scope, env: Env, q: Expr, sd: Scope, fnv: Env,
        tr: Trace)
    requires p.App? && ToNameless(p, sc) == ToNameless(q, sd) && EnvMatch(I, sc, env, sd, fnv)
    ensures Eval(I, p, env, tr) == Eval(I, q, fnv, tr)
    decreases Size(p), 0
  {
    AlphaMutable(p.func, sc, q.func, sd);
    if IsAbs(p.func) {
      assert Size(p.func) == 1 + SizeTele(p.func.tele);
      AlphaEvalSeq(I, p.args, sc, env, q.args, sd, fnv, tr);
      var r := EvalSeq(I, p.args, env, tr);
      AlphaRunTele(I, p.func.tele, sc, env, q.func.tele, sd, fnv, r.vs, r.tr);
    } else {
      AlphaEval(I, p.func, sc, env, q.func, sd, fnv, tr);
      AlphaEvalSeq(I, p.args, sc, env, q.args, sd, fnv, Eval(I, p.func, env, tr).tr);
    }
  }

  lemma {:induction false} AlphaEvalSeq(I: Interp, es: seq<Expr>, sc: Scope, env: Env, fs: seq<Expr>, sd: Scope,
        fnv: Env, tr: Trace)
    requires ToNamelessSeq(es, sc) == ToNamelessSeq(fs, sd) && EnvMatch(I, sc, env, sd, fnv)
    ensures EvalSeq(I, es, env, tr) == EvalSeq(I, fs, fnv, tr)
    decreases SizeSeq(es), 2
  {
    if es != [] && fs != [] {
      SameHeadAndTail(ToNameless(es[0], sc), ToNamelessSeq(es[1..], sc), ToNameless(fs[0], sd),
        ToNamelessSeq(fs[1..], sd));
      AlphaEval(I, es[0], sc, env, fs[0], sd, fnv, tr);
      AlphaEvalSeq(I, es[1..], sc, env, fs[1..], sd, fnv, Eval(I, es[0], env, tr).tr);
    }
  }

  lemma {:induction false} AlphaRunTele(I: Interp, t: Tele, sc: Scope, env: Env, u: Tele, sd: Scope, fnv: Env,
        vs: seq<Value>, tr: Trace)
    requires ToNamelessTele(t, sc) == ToNamelessTele(u, sd) && EnvMatch(I, sc, env, sd, fnv)
    ensures RunTele(I, t, vs, env, tr) == RunTele(I, u, vs, fnv, tr)
    decreases SizeTele(t), 3
  {
    if t.args == [] {
      match t.end
      case AbsEnd(_, _, b) => AlphaExec(I, b.stmts, sc, env, u.end.body.stmts, sd, fnv, tr);
      case _ =>
    } else {
      var m, n := t.args[0].name, u.args[0].name;
      EnvMatchPush(I, m, sc, env, n, sd, fnv, First(vs));
      AlphaRunTele(I, Rest(t), Push(m, sc), Extend(m, First(vs), env), Rest(u), Push(n, sd), Extend(n, First(vs), fnv),
        Others(vs), tr);
    }
  }

  lemma {:induction false} AlphaExec(I: Interp, ss: seq<Stmt>, sc: Scope, env: Env, zs: seq<Stmt>, sd: Scope, fnv: Env,
        tr: Trace)
    requires ToNamelessStmts(ss, sc) == ToNamelessStmts(zs, sd) && EnvMatch(I, sc, env, sd, fnv)
    ensures Exec(I, ss, env, tr) == Exec(I, zs, fnv, tr)
    decreases SizeStmts(ss), 3
  {
    if ss != [] && zs != [] {
      SameHeadAndTail(ToNamelessStmt(ss[0], sc), ToNamelessStmts(ss[1..], sc), ToNamelessStmt(zs[0], sd),
        ToNamelessStmts(zs[1..], sd));
      AlphaExecStmt(I, ss[0], sc, env, zs[0], sd, fnv, tr);
      AlphaExec(I, ss[1..], sc, env, zs[1..], sd, fnv, ExecStmt(I, ss[0], env, tr).tr);
    }
  }

  lemma {:induction false} AlphaExecStmt(I: Interp, s: Stmt, sc: Scope, env: Env, z: Stmt, sd: Scope, fnv: Env,
        tr: Trace)
    requires ToNamelessStmt(s, sc) == ToNamelessStmt(z, sd) && EnvMatch(I, sc, env, sd, fnv)
    ensures ExecStmt(I, s, env, tr) == ExecStmt(I, z, fnv, tr)
    decreases SizeStmt(s), 2
  {
    match s
    case Call(m, f, es) => AlphaEval(I, App(m, f, es), sc, env, App(z.isMutable, z.func, z.args), sd, fnv, tr);
    case IfElse(c, t, e) =>
      AlphaEval(I, c, sc, env, z.cond, sd, fnv, tr);
      var r := Eval(I, c, env, tr);
      AlphaExec(I, t.stmts, sc, env, z.thenB.stmts, sd, fnv, r.tr);
      if e.Some? { AlphaExec(I, e.value.stmts, sc, env, z.elseB.value.stmts, sd, fnv, r.tr); }
    case Return(e) => if e.Some? { AlphaEval(I, e.value, sc, env, z.value.value, sd, fnv, tr); }
    case Impossible(_) =>
  }

  // ---- guardedness ----

  lemma {:induction false} AlphaGuarded(I: Interp, p: Expr, sc: Scope, env: Env, q: Expr, sd: Scope, fnv: Env)
    requires ToNameless(p, sc) == ToNameless(q, sd) && EnvMatch(I, sc, env, sd, fnv)
    ensures Guarded(I, p, env) <==> Guarded(I, q, fnv)
    decreases Size(p), 1
  {
    match p
    case Atom(_) =>
    case VarE(v) =>
    case Node(op, es) => AlphaGuardedSeq(I, es, sc, env, q.operands, sd, fnv);
    case App(_, f, es) => AlphaGuardedApp(I, p, sc, env, q, sd, fnv);
    case Because(v, _) => AlphaGuarded(I, v, sc, env, q.value, sd, fnv);
    case Bind(t) => AlphaGuardedSignature(I, t, sc, env, q.tele, sd, fnv);
  }

  lemma {:induction false} AlphaGuardedApp(I: Interp, p: Expr, sc: Scope, env: Env, q: Expr, sd: Scope, fnv: Env)
    requires p.App? && ToNameless(p, sc) == ToNameless(q, sd) && EnvMatch(I, sc, env, sd, fnv)
    ensures Guarded(I, p, env) <==> Guarded(I, q, fnv)
    decreases Size(p), 0
  {
    AlphaMutable(p.func, sc, q.func, sd);
    AlphaGuardedSeq(I, p.args, sc, env, q.args, sd, fnv);
    AlphaGuarded(I, p.func, sc, env, q.func, sd, fnv);
    if IsAbs(p.func) {
      assert Size(p.func) == 1 + SizeTele(p.func.tele);
      forall tr: Trace
        ensures GuardedRun(I, p.func.tele, EvalSeq(I, p.args, env, tr).vs, env)
           <==> GuardedRun(I, q.func.tele, EvalSeq(I, q.args, fnv, tr).vs, fnv)
      {
        AlphaEvalSeq(I, p.args, sc, env, q.args, sd, fnv, tr);
        AlphaGuardedRun(I, p.func.tele, sc, env, q.func.tele, sd, fnv, EvalSeq(I, p.args, env, tr).vs);
      }
    }
  }

  lemma {:induction false} AlphaGuardedSeq(I: Interp, es: seq<Expr>, sc: Scope, env: Env, fs: seq<Expr>, sd: Scope,
        fnv: Env)
    requires ToNamelessSeq(es, sc) == ToNamelessSeq(fs, sd) && EnvMatch(I, sc, env, sd, fnv)
    ensures GuardedSeq(I, es, env) <==> GuardedSeq(I, fs, fnv)
    decreases SizeSeq(es), 2
  {
    if es != [] && fs != [] {
      SameHeadAndTail(ToNameless(es[0], sc), ToNamelessSeq(es[1..], sc), ToNameless(fs[0], sd),
        ToNamelessSeq(fs[1..], sd));
      AlphaGuarded(I, es[0], sc, env, fs[0], sd, fnv);
      AlphaGuardedSeq(I, es[1..], sc, env, fs[1..], sd, fnv);
    }
  }

  lemma {:induction false} AlphaGuardedSignature(I: Interp, t: Tele, sc: Scope, env: Env, u: Tele, sd: Scope, fnv: Env)
    requires ToNamelessTele(t, sc) == ToNamelessTele(u, sd) && EnvMatch(I, sc, env, sd, fnv)
    ensures GuardedSignature(I, t, env) <==> GuardedSignature(I, u, fnv)
    decreases SizeTele(t), 3
  {
    if t.args == [] {
      match t.end
      case SigmaEnd =>
      case PiEnd(_, r) => AlphaGuarded(I, r, sc, env, u.end.ret, sd, fnv);
      case AbsEnd(_, r, _) => AlphaGuarded(I, r, sc, env, u.end.ret, sd, fnv);
    } else {
      var m, n, rest := t.args[0].name, u.args[0].name, Rest(t);
      AlphaGuarded(I, t.args[0].ty, sc, env, u.args[0].ty, sd, fnv);
      forall v: Value
        ensures GuardedSignature(I, rest, Extend(m, v, env)) <==> GuardedSignature(I, Rest(u), Extend(n, v, fnv))
      {
        EnvMatchPush(I, m, sc, env, n, sd, fnv, v);
        AlphaGuardedSignature(I, rest, Push(m, sc), Extend(m, v, env), Rest(u), Push(n, sd), Extend(n, v, fnv));
      }
    }
  }

  lemma {:induction false} AlphaGuardedRun(I: Interp, t: Tele, sc: Scope, env: Env, u: Tele, sd: Scope, fnv: Env,
        vs: seq<Value>)
    requires ToNamelessTele(t, sc) == ToNamelessTele(u, sd) && EnvMatch(I, sc, env, sd, fnv)
    ensures GuardedRun(I, t, vs, env) <==> GuardedRun(I, u, vs, fnv)
    decreases SizeTele(t), 3
  {
    if t.args == [] {
      match t.end
      case AbsEnd(_, _, b) => AlphaGuardedStmts(I, b.stmts, sc, env, u.end.body.stmts, sd, fnv);
      case _ =>
    } else {
      var m, n := t.args[0].name, u.args[0].name;
      EnvMatchPush(I, m, sc, env, n, sd, fnv, First(vs));
      AlphaGuardedRun(I, Rest(t), Push(m, sc), Extend(m, First(vs), env), Rest(u), Push(n, sd),
        Extend(n, First(vs), fnv), Others(vs));
    }
  }

  lemma {:induction false} AlphaGuardedStmts(I: Interp, ss: seq<Stmt>, sc: Scope, env: Env, zs: seq<Stmt>, sd: Scope,
        fnv: Env)
    requires ToNamelessStmts(ss, sc) == ToNamelessStmts(zs, sd) && EnvMatch(I, sc, env, sd, fnv)
    ensures GuardedStmts(I, ss, env) <==> GuardedStmts(I, zs, fnv)
    ensures Returns(ss) <==> Returns(zs)
    decreases SizeStmts(ss), 3
  {
    if ss != [] && zs != [] {
      SameHeadAndTail(ToNamelessStmt(ss[0], sc), ToNamelessStmts(ss[1..], sc), ToNamelessStmt(zs[0], sd),
        ToNamelessStmts(zs[1..], sd));
      AlphaGuardedStmt(I, ss[0], sc, env, zs[0], sd, fnv);
      AlphaGuardedStmts(I, ss[1..], sc, env, zs[1..], sd, fnv);
    }
  }

  lemma {:induction false} AlphaGuardedStmt(I: Interp, s: Stmt, sc: Scope, env: Env, z: Stmt, sd: Scope, fnv: Env)
    requires ToNamelessStmt(s, sc) == ToNamelessStmt(z, sd) && EnvMatch(I, sc, env, sd, fnv)
    ensures GuardedStmt(I, s, env) <==> GuardedStmt(I, z, fnv)
    ensures ReturnsStmt(s) <==> ReturnsStmt(z)
    ensures Excused(I, s, env) <==> Excused(I, z, fnv)
    decreases SizeStmt(s), 2
  {
    match s
    case Call(m, f, es) => AlphaGuarded(I, App(m, f, es), sc, env, App(z.isMutable, z.func, z.args), sd, fnv);
    case IfElse(c, t, e) =>
      AlphaMutable(c, sc, z.cond, sd);
      AlphaEval(I, c, sc, env, z.cond, sd, fnv, []);
      AlphaGuarded(I, c, sc, env, z.cond, sd, fnv);
      AlphaGuardedStmts(I, t.stmts, sc, env, z.thenB.stmts, sd, fnv);
      if e.Some? { AlphaGuardedStmts(I, e.value.stmts, sc, env, z.elseB.value.stmts, sd, fnv); }
    case Return(e) => if e.Some? { AlphaGuarded(I, e.value, sc, env, z.value.value, sd, fnv); }
    case Impossible(_) =>
  }
}
