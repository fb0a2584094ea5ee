/** Rewriting one immutable term into another, as the proof state does with `condition = true` and `condition = false`.

    Where the two have the same value, rewriting an immutable term does not change its value. An absent result of the
    source stands for the old term, so rewriting is a total function here. */
module Rewriting {
  import opened Ast
  import opened Binders
  import opened Nameless
  import opened Substitution
  import opened AlphaEquivalence
  import opened Semantics
  import opened MeaningOfBinding
  import opened Legality

  // Results below these productions are computed and then dropped.
  predicate Dropped(op: Op) {
    op.InitList? || op.Member? || op.Subscript?
  }

  function Rewrite(from: Expr, to: Expr, e: Expr): Expr
    decreases Size(e), 1
  {
    if AlphaEq(e, from) then to
    else match e
      case Atom(_) => e
      case VarE(_) => e
      case Node(op, es) => if Dropped(op) then e else Node(op, RewriteSeq(from, to, es))
      case App(m, f, es) => App(m, Rewrite(from, to, f), RewriteSeq(from, to, es))
      case Because(_, _) => e
      case Bind(t) => Bind(RewriteTele(from, to, t))
  }

  function RewriteSeq(from: Expr, to: Expr, es: seq<Expr>): (r: seq<Expr>)
    ensures |r| == |es|
    decreases SizeSeq(es), 2
  {
    if es == [] then [] else [Rewrite(from, to, es[0])] + RewriteSeq(from, to, es[1..])
  }

  // Rewriting stops at a binder that occurs free in either term.
  function RewriteTele(from: Expr, to: Expr, t: Tele): (r: Tele)
    ensures |r.args| == |t.args| && r.end.AbsEnd? == t.end.AbsEnd?
    decreases SizeTele(t), 2
  {
    if t.args == [] then
      match t.end
      case SigmaEnd => t
      case PiEnd(m, r) => Tele([], PiEnd(m, Rewrite(from, to, r)))
      case AbsEnd(m, r, b) => Tele([], AbsEnd(m, Rewrite(from, to, r), Body(RewriteStmts(from, to, b.stmts))))
    else
      var a, rest := t.args[0], Rest(t);
      Cons(Arg(a.qty, Rewrite(from, to, a.ty), a.name),
           if Stops(from, to, a.name) then rest else RewriteTele(from, to, rest))
  }

  predicate Stops(from: Expr, to: Expr, name: Option<Var>) {
    name.Some? && (OccursIn(name.value, from, false) || OccursIn(name.value, to, false))
  }

  function RewriteStmts(from: Expr, to: Expr, ss: seq<Stmt>): (r: seq<Stmt>)
    ensures |r| == |ss|
    decreases SizeStmts(ss), 2
  {
    if ss == [] then [] else [RewriteStmt(from, to, ss[0])] + RewriteStmts(from, to, ss[1..])
  }

  function RewriteStmt(from: Expr, to: Expr, s: Stmt): Stmt
    decreases SizeStmt(s), 1
  {
    match s
    case Call(m, f, es) => Call(m, Rewrite(from, to, f), RewriteSeq(from, to, es))
    case IfElse(c, t, e) =>
      IfElse(Rewrite(from, to, c), Body(RewriteStmts(from, to, t.stmts)),
             match e case None => None case Some(b) => Some(Body(RewriteStmts(from, to, b.stmts))))
    case Return(e) => Return(match e case None => None case Some(r) => Some(Rewrite(from, to, r)))
    case Impossible(e) => Impossible(match e case None => None case Some(r) => Some(Rewrite(from, to, r)))
  }

  // The loop of the source over the arguments of a binder, with its `stop` flag.
  method RewriteTelescope(from: Expr, to: Expr, t: Tele) returns (r: Tele)
    ensures r == RewriteTele(from, to, t)
  {
    var stop := false;
    var args: seq<Arg> := [];
    assert Tele(t.args[0..], t.end) == t;
    for i := 0 to |t.args|
      invariant |args| == i
      invariant Prefixed(args, From(from, to, t, i, stop)) == RewriteTele(from, to, t)
    {
      var a := t.args[i];
      FromStep(from, to, t, i, stop, args);
      if stop {
        args := args + [a];
      } else {
        stop := Stops(from, to, a.name);
        args := args + [Arg(a.qty, Rewrite(from, to, a.ty), a.name)];
      }
    }
    r := Prefixed(args, From(from, to, t, |t.args|, stop));
  }

  // What becomes of the arguments from `i` on, once rewriting has stopped or has not.
  function From(from: Expr, to: Expr, t: Tele, i: nat, stop: bool): Tele
    requires i <= |t.args|
  {
    var rest := Tele(t.args[i..], t.end);
    if stop then rest else RewriteTele(from, to, rest)
  }

  function Prefixed(args: seq<Arg>, t: Tele): Tele {
    Tele(args + t.args, t.end)
  }

  lemma FromStep(from: Expr, to: Expr, t: Tele, i: nat, stop: bool, args: seq<Arg>)
    requires i < |t.args|
    ensures var a := t.args[i];
            Prefixed(args, From(from, to, t, i, stop)) ==
            Prefixed(args + [Arg(a.qty, if stop then a.ty else Rewrite(from, to, a.ty), a.name)],
                     From(from, to, t, i + 1, stop || Stops(from, to, a.name)))
  {
    var a := t.args[i];
    FromUnfolds(from, to, t, i, stop);
    PrefixedCons(args, Arg(a.qty, if stop then a.ty else Rewrite(from, to, a.ty), a.name),
                 From(from, to, t, i + 1, stop || Stops(from, to, a.name)));
  }

  lemma PrefixedCons(args: seq<Arg>, a: Arg, t: Tele)
    ensures Prefixed(args, Cons(a, t)) == Prefixed(args + [a], t)
  {
    assert args + ([a] + t.args) == args + [a] + t.args;
  }

  lemma FromUnfolds(from: Expr, to: Expr, t: Tele, i: nat, stop: bool)
    requires i < |t.args|
    ensures var a := t.args[i];
            From(from, to, t, i, stop) ==
            Cons(Arg(a.qty, if stop then a.ty else Rewrite(from, to, a.ty), a.name),
                 From(from, to, t, i + 1, stop || Stops(from, to, a.name)))
  {
    var a, here := t.args[i], Tele(t.args[i..], t.end);
    assert here.args[0] == a && Rest(here) == Tele(t.args[i + 1..], t.end);
    assert here == Cons(a, Rest(here));
  }

  // ---- alpha-equivalent immutable terms have the same value ----

  // Scopes exist at compile time only.
  ghost predicate ScopeBlind(I: Interp) {
    forall i, j, vs :: I.prim(ScopeOf(i), vs) == I.prim(ScopeOf(j), vs)
  }

  lemma {:induction false} ErasedAbs(p: Expr, sc: Scope, q: Expr, sd: Scope)
    requires Erase(ToNameless(p, sc)) == Erase(ToNameless(q, sd)) && Legal(p) && Legal(q)
    ensures IsAbs(p) == IsAbs(q)
    decreases Size(p) + Size(q)
  {
    if p.Because? { ErasedAbs(p.value, sc, q, sd); }
    else if q.Because? { ErasedAbs(p, sc, q.value, sd); }
    else if p.Bind? { ErasedShape(p.tele, sc, q.tele, sd); }
  }

  lemma {:induction false} ErasedShape(t: Tele, sc: Scope, u: Tele, sd: Scope)
    requires EraseTele(ToNamelessTele(t, sc)) == EraseTele(ToNamelessTele(u, sd))
    ensures ShapeOf(t) == ShapeOf(u)
    decreases |t.args|
  {
    if t.args != [] { ErasedShape(Rest(t), Push(t.args[0].name, sc), Rest(u), Push(u.args[0].name, sd)); }
  }

  lemma {:induction false} ErasedEval(I: Interp, p: Expr, sc: Scope, env: Env, q: Expr, sd: Scope, fnv: Env, tr: Trace)
    requires ScopeBlind(I) && EnvMatch(I, sc, env, sd, fnv)
    requires Erase(ToNameless(p, sc)) == Erase(ToNameless(q, sd))
    requires Legal(p) && Legal(q) && !IsMutable(p) && !IsMutable(q)
    ensures Eval(I, p, env, tr) == Eval(I, q, fnv, tr)
    decreases Size(p) + Size(q), 1
  {
    if p.Because? { ErasedEval(I, p.value, sc, env, q, sd, fnv, tr); }
    else if q.Because? { ErasedEval(I, p, sc, env, q.value, sd, fnv, tr); }
    else { match p
      case Atom(_) =>
      case VarE(v) =>
      case Node(op, es) => if !op.ScopeOf? { ErasedEvalSeq(I, es, sc, env, q.operands, sd, fnv, tr); }
      case App(_, _, _) => ErasedEvalApp(I, p, sc, env, q, sd, fnv, tr);
      case Bind(t) =>
        ErasedShape(t, sc, q.tele, sd);
        forall vs ensures TypesOf(I, t, vs, env) == TypesOf(I, q.tele, vs, fnv) {
          ErasedTypes(I, t, sc, env, q.tele, sd, fnv, vs);
        }
        SameFamily(I, t, env, q.tele, fnv); }
  }

  lemma {:induction false} ErasedTypes(I: Interp, t: Tele, sc: Scope, env: Env, u: Tele, sd: Scope, fnv: Env,
        vs: seq<Value>)
    requires ScopeBlind(I) && EnvMatch(I, sc, env, sd, fnv)
    requires EraseTele(ToNamelessTele(t, sc)) == EraseTele(ToNamelessTele(u, sd)) && LegalTele(t) && LegalTele(u)
    ensures TypesOf(I, t, vs, env) == TypesOf(I, u, vs, fnv)
    decreases SizeTele(t) + SizeTele(u), 3
  {
    if t.args == [] {
      match t.end
      case SigmaEnd =>
      case PiEnd(_, r) => ErasedEval(I, r, sc, env, u.end.ret, sd, fnv, []);
      case AbsEnd(_, r, _) => ErasedEval(I, r, sc, env, u.end.ret, sd, fnv, []);
    } else {
      var m, n := t.args[0].name, u.args[0].name;
      ErasedEval(I, t.args[0].ty, sc, env, u.args[0].ty, sd, fnv, []);
      EnvMatchPush(I, m, sc, env, n, sd, fnv, First(vs));
      ErasedTypes(I, Rest(t), Push(m, sc), Extend(m, First(vs), env), Rest(u), Push(n, sd), Extend(n, First(vs), fnv),
        Others(vs));
    }
  }

  lemma {:induction false} ErasedEvalApp(I: Interp, p: Expr, sc: Scope, env: Env, q: Expr, sd: Scope, fnv: Env,
        tr: Trace)
    requires ScopeBlind(I) && EnvMatch(I, sc, env, sd, fnv)
    requires p.App? && q.App? && Erase(ToNameless(p, sc)) == Erase(ToNameless(q, sd))
    requires Legal(p) && Legal(q) && !IsMutable(p) && !IsMutable(q)
    ensures Eval(I, p, env, tr) == Eval(I, q, fnv, tr)
    decreases Size(p) + Size(q), 0
  {
    var f, g := p.func, q.func;
    ErasedAbs(f, sc, g, sd);
    if IsAbs(f) {
      assert Size(f) == 1 + SizeTele(f.tele) && Size(g) == 1 + SizeTele(g.tele);
      ErasedEvalSeq(I, p.args, sc, env, q.args, sd, fnv, tr);
      var r := EvalSeq(I, p.args, env, tr);
      ErasedRun(I, f.tele, sc, env, g.tele, sd, fnv, r.vs, r.tr);
    } else {
      ErasedEval(I, f, sc, env, g, sd, fnv, tr);
      ErasedEvalSeq(I, p.args, sc, env, q.args, sd, fnv, Eval(I, f, env, tr).tr);
    }
  }

  lemma {:induction false} ErasedEvalSeq(I: Interp, es: seq<Expr>, sc: Scope, env: Env, fs: seq<Expr>, sd: Scope,
        fnv: Env, tr: Trace)
    requires ScopeBlind(I) && EnvMatch(I, sc, env, sd, fnv)
    requires EraseSeq(ToNamelessSeq(es, sc)) == EraseSeq(ToNamelessSeq(fs, sd))
    requires LegalSeq(es) && LegalSeq(fs) && !AnyMutable(es) && !AnyMutable(fs)
    ensures EvalSeq(I, es, env, tr) == EvalSeq(I, fs, fnv, tr)
    decreases SizeSeq(es) + SizeSeq(fs), 2
  {
    if es != [] && fs != [] {
      SplitErased(es, sc, fs, sd);
      ErasedEval(I, es[0], sc, env, fs[0], sd, fnv, tr);
      ErasedEvalSeq(I, es[1..], sc, env, fs[1..], sd, fnv, Eval(I, es[0], env, tr).tr);
    }
  }

  lemma SplitErased(es: seq<Expr>, sc: Scope, fs: seq<Expr>, sd: Scope)
    requires es != [] && fs != [] && EraseSeq(ToNamelessSeq(es, sc)) == EraseSeq(ToNamelessSeq(fs, sd))
    ensures Erase(ToNameless(es[0], sc)) == Erase(ToNameless(fs[0], sd))
    ensures EraseSeq(ToNamelessSeq(es[1..], sc)) == EraseSeq(ToNamelessSeq(fs[1..], sd))
  {
    EraseStep(ToNameless(es[0], sc), ToNamelessSeq(es[1..], sc));
    EraseStep(ToNameless(fs[0], sd), ToNamelessSeq(fs[1..], sd));
    SameHeadAndTail(Erase(ToNameless(es[0], sc)), EraseSeq(ToNamelessSeq(es[1..], sc)),
                    Erase(ToNameless(fs[0], sd)), EraseSeq(ToNamelessSeq(fs[1..], sd)));
  }

  lemma {:induction false} ErasedRun(I: Interp, t: Tele, sc: Scope, env: Env, u: Tele, sd: Scope, fnv: Env,
        vs: seq<Value>, tr: Trace)
    requires ScopeBlind(I) && EnvMatch(I, sc, env, sd, fnv)
    requires EraseTele(ToNamelessTele(t, sc)) == EraseTele(ToNamelessTele(u, sd))
    requires LegalTele(t) && LegalTele(u) && QuietEnd(t) && QuietEnd(u)
    ensures RunTele(I, t, vs, env, tr) == RunTele(I, u, vs, fnv, tr)
    decreases SizeTele(t) + SizeTele(u), 3
  {
    if t.args == [] {
      if t.end.AbsEnd? { ErasedExec(I, t.end.body.stmts, sc, env, u.end.body.stmts, sd, fnv, tr); }
    } else {
      var m, n := t.args[0].name, u.args[0].name;
      EnvMatchPush(I, m, sc, env, n, sd, fnv, First(vs));
      ErasedRun(I, Rest(t), Push(m, sc), Extend(m, First(vs), env), Rest(u), Push(n, sd), Extend(n, First(vs), fnv),
        Others(vs), tr);
    }
  }

  lemma {:induction false} ErasedExec(I: Interp, ss: seq<Stmt>, sc: Scope, env: Env, zs: seq<Stmt>, sd: Scope,
        fnv: Env, tr: Trace)
    requires ScopeBlind(I) && EnvMatch(I, sc, env, sd, fnv)
    requires EraseStmts(ToNamelessStmts(ss, sc)) == EraseStmts(ToNamelessStmts(zs, sd))
    requires LegalStmts(ss) && LegalStmts(zs) && Quiet(ss) && Quiet(zs)
    ensures Exec(I, ss, env, tr) == Exec(I, zs, fnv, tr)
    decreases SizeStmts(ss) + SizeStmts(zs), 3
  {
    if ss != [] && zs != [] {
      EraseStepStmts(ToNamelessStmt(ss[0], sc), ToNamelessStmts(ss[1..], sc));
      EraseStepStmts(ToNamelessStmt(zs[0], sd), ToNamelessStmts(zs[1..], sd));
      SameHeadAndTail(EraseStmt(ToNamelessStmt(ss[0], sc)), EraseStmts(ToNamelessStmts(ss[1..], sc)),
                      EraseStmt(ToNamelessStmt(zs[0], sd)), EraseStmts(ToNamelessStmts(zs[1..], sd)));
      ErasedExecStmt(I, ss[0], sc, env, zs[0], sd, fnv, tr);
      ErasedExec(I, ss[1..], sc, env, zs[1..], sd, fnv, ExecStmt(I, ss[0], env, tr).tr);
    }
  }

  lemma {:induction false} ErasedExecStmt(I: Interp, s: Stmt, sc: Scope, env: Env, z: Stmt, sd: Scope, fnv: Env,
        tr: Trace)
    requires ScopeBlind(I) && EnvMatch(I, sc, env, sd, fnv)
    requires EraseStmt(ToNamelessStmt(s, sc)) == EraseStmt(ToNamelessStmt(z, sd))
    requires LegalStmt(s) && LegalStmt(z) && QuietStmt(s) && QuietStmt(z)
    ensures ExecStmt(I, s, env, tr) == ExecStmt(I, z, fnv, tr)
    decreases SizeStmt(s) + SizeStmt(z), 2
  {
    match s
    case Call(m, f, es) =>
      assert Erase(ToNameless(App(m, f, es), sc)) == Erase(ToNameless(App(z.isMutable, z.func, z.args), sd));
      ErasedEval(I, App(m, f, es), sc, env, App(z.isMutable, z.func, z.args), sd, fnv, tr);
    case IfElse(c, t, e) =>
      ErasedEval(I, c, sc, env, z.cond, sd, fnv, tr);
      var r := Eval(I, c, env, tr);
      ErasedExec(I, t.stmts, sc, env, z.thenB.stmts, sd, fnv, r.tr);
      if e.Some? { ErasedExec(I, e.value.stmts, sc, env, z.elseB.value.stmts, sd, fnv, r.tr); }
    case Return(e) => if e.Some? { ErasedEval(I, e.value, sc, env, z.value.value, sd, fnv, tr); }
    case Impossible(_) =>
  }

  lemma AlphaSameValue(I: Interp, x: Expr, y: Expr, env: Env, tr: Trace)
    requires ScopeBlind(I) && AlphaEq(x, y) && Legal(x) && Legal(y) && !IsMutable(x) && !IsMutable(y)
    ensures Eval(I, x, env, tr) == Eval(I, y, env, tr)
  {
    AlphaSound(x, y);
    ErasedEval(I, x, [], env, y, [], env, tr);
  }

  // ---- rewriting preserves values ----

  // A rewrite rule between immutable terms that have the same value here.
  ghost predicate Rule(I: Interp, from: Expr, to: Expr, env: Env) {
    && Legal(from) && !IsMutable(from) && !IsAbs(from)
    && Legal(to) && !IsMutable(to) && !IsAbs(to)
    && Pure(I, from, env) == Pure(I, to, env)
  }

  lemma UnusedValue(I: Interp, y: Expr, env: Env, name: Option<Var>, w: Value)
    requires name.Some? ==> !OccursIn(name.value, y, false)
    ensures Pure(I, y, Extend(name, w, env)) == Pure(I, y, env)
  {
    if name.Some? {
      var sc: Scope := [name];
      forall u ensures Find(sc, u) == if u == name.value then Some(0) else None { assert sc[1..] == []; }
      Coincidence(y, sc, []);
      assert EnvMatch(I, sc, Extend(name, w, env), [], env);
      AlphaEval(I, y, sc, Extend(name, w, env), y, [], env, []);
    }
  }

  lemma {:induction false} RewriteEval(I: Interp, from: Expr, to: Expr, e: Expr, env: Env)
    requires ScopeBlind(I) && Rule(I, from, to, env) && Legal(e) && !IsMutable(e)
    ensures forall tr :: Eval(I, Rewrite(from, to, e), env, tr) == Eval(I, e, env, tr)
    ensures IsAbs(Rewrite(from, to, e)) == IsAbs(e)
    decreases Size(e), 1
  {
    if AlphaEq(e, from) {
      AlphaSound(e, from);
      ErasedAbs(e, [], from, []);
      forall tr ensures Eval(I, to, env, tr) == Eval(I, e, env, tr) {
        AlphaSameValue(I, e, from, env, tr);
        ImmutableIsPure(I, from, env, tr);
        ImmutableIsPure(I, to, env, tr);
      }
    } else {
      match e
      case Atom(_) =>
      case VarE(_) =>
      case Node(op, es) => if !op.ScopeOf? && !Dropped(op) { RewriteEvalSeq(I, from, to, es, env); }
      case App(m, f, es) => RewriteApp(I, from, to, m, f, es, env);
      case Because(_, _) =>
      case Bind(t) =>
        RewriteShape(from, to, t);
        forall vs ensures TypesOf(I, RewriteTele(from, to, t), vs, env) == TypesOf(I, t, vs, env) {
          RewriteTypes(I, from, to, t, vs, env);
        }
        SameFamily(I, RewriteTele(from, to, t), env, t, env);
    }
  }

  lemma {:induction false} RewriteShape(from: Expr, to: Expr, t: Tele)
    ensures ShapeOf(RewriteTele(from, to, t)) == ShapeOf(t)
    decreases |t.args|
  {
    if t.args != [] { RewriteShape(from, to, Rest(t)); }
  }

  // Under a binder on which neither side depends, the rule still holds; under any other one, nothing is rewritten.
  lemma {:induction false} RewriteTypes(I: Interp, from: Expr, to: Expr, t: Tele, vs: seq<Value>, env: Env)
    requires ScopeBlind(I) && Rule(I, from, to, env) && LegalTele(t)
    ensures TypesOf(I, RewriteTele(from, to, t), vs, env) == TypesOf(I, t, vs, env)
    decreases SizeTele(t), 3
  {
    if t.args == [] {
      match t.end
      case SigmaEnd =>
      case PiEnd(_, r) => RewriteEval(I, from, to, r, env);
      case AbsEnd(_, r, _) => RewriteEval(I, from, to, r, env);
    } else {
      var a, rest, v := t.args[0], Rest(t), First(vs);
      RewriteEval(I, from, to, a.ty, env);
      if !Stops(from, to, a.name) {
        UnusedValue(I, from, env, a.name, v);
        UnusedValue(I, to, env, a.name, v);
        RewriteTypes(I, from, to, rest, Others(vs), Extend(a.name, v, env));
      }
    }
  }

  lemma {:induction false} RewriteApp(I: Interp, from: Expr, to: Expr, m: bool, f: Expr, es: seq<Expr>, env: Env)
    requires ScopeBlind(I) && Rule(I, from, to, env) && Legal(App(m, f, es)) && !IsMutable(App(m, f, es))
    ensures forall tr ::
            Eval(I, App(m, Rewrite(from, to, f), RewriteSeq(from, to, es)), env, tr)
            == Eval(I, App(m, f, es), env, tr)
    decreases 1 + Size(f) + SizeSeq(es), 0
  {
    RewriteEvalSeq(I, from, to, es, env);
    RewriteEval(I, from, to, f, env);
    if IsAbs(f) {
      assert Size(f) == 1 + SizeTele(f.tele);
      AlphaEqAbs(f, from);
      var t, u := f.tele, RewriteTele(from, to, f.tele);
      forall vs, tr ensures RunTele(I, u, vs, env, tr) == RunTele(I, t, vs, env, tr) {
        RewriteRun(I, from, to, t, vs, env);
      }
    }
  }

  lemma AlphaEqAbs(f: Expr, from: Expr)
    requires IsAbs(f) && Legal(f) && Legal(from) && !IsAbs(from)
    ensures !AlphaEq(f, from)
  {
    if AlphaEq(f, from) {
      AlphaSound(f, from);
      ErasedAbs(f, [], from, []);
    }
  }

  lemma {:induction false} RewriteEvalSeq(I: Interp, from: Expr, to: Expr, es: seq<Expr>, env: Env)
    requires ScopeBlind(I) && Rule(I, from, to, env) && LegalSeq(es) && !AnyMutable(es)
    ensures forall tr :: EvalSeq(I, RewriteSeq(from, to, es), env, tr) == EvalSeq(I, es, env, tr)
    decreases SizeSeq(es), 2
  {
    if es != [] { RewriteEval(I, from, to, es[0], env); RewriteEvalSeq(I, from, to, es[1..], env); }
  }

  lemma {:induction false} RewriteRun(I: Interp, from: Expr, to: Expr, t: Tele, vs: seq<Value>, env: Env)
    requires ScopeBlind(I) && Rule(I, from, to, env) && LegalTele(t) && QuietEnd(t)
    ensures forall tr :: RunTele(I, RewriteTele(from, to, t), vs, env, tr) == RunTele(I, t, vs, env, tr)
    decreases SizeTele(t), 3
  {
    if t.args == [] {
      if t.end.AbsEnd? { RewriteExec(I, from, to, t.end.body.stmts, env); }
    } else {
      var name, rest := t.args[0].name, Rest(t);
      if !Stops(from, to, name) {
        UnusedValue(I, from, env, name, First(vs));
        UnusedValue(I, to, env, name, First(vs));
        RewriteRun(I, from, to, rest, Others(vs), Extend(name, First(vs), env));
      }
    }
  }

  lemma {:induction false} RewriteExec(I: Interp, from: Expr, to: Expr, ss: seq<Stmt>, env: Env)
    requires ScopeBlind(I) && Rule(I, from, to, env) && LegalStmts(ss) && Quiet(ss)
    ensures forall tr :: Exec(I, RewriteStmts(from, to, ss), env, tr) == Exec(I, ss, env, tr)
    decreases SizeStmts(ss), 3
  {
    if ss != [] { RewriteExecStmt(I, from, to, ss[0], env); RewriteExec(I, from, to, ss[1..], env); }
  }

  lemma {:induction false} RewriteExecStmt(I: Interp, from: Expr, to: Expr, s: Stmt, env: Env)
    requires ScopeBlind(I) && Rule(I, from, to, env) && LegalStmt(s) && QuietStmt(s)
    ensures forall tr :: ExecStmt(I, RewriteStmt(from, to, s), env, tr) == ExecStmt(I, s, env, tr)
    decreases SizeStmt(s), 2
  {
    match s
    case Call(m, f, es) => RewriteApp(I, from, to, m, f, es, env);
    case IfElse(c, t, e) =>
      RewriteEval(I, from, to, c, env);
      RewriteExec(I, from, to, t.stmts, env);
      if e.Some? { RewriteExec(I, from, to, e.value.stmts, env); }
      SameIf(I, s, RewriteStmt(from, to, s), env);
    case Return(e) => if e.Some? { RewriteEval(I, from, to, e.value, env); }
    case Impossible(_) =>
  }

  lemma SameIf(I: Interp, s: Stmt, z: Stmt, env: Env)
    requires s.IfElse? && z.IfElse? && s.elseB.Some? == z.elseB.Some?
    requires forall tr :: Eval(I, z.cond, env, tr) == Eval(I, s.cond, env, tr)
    requires forall tr :: Exec(I, z.thenB.stmts, env, tr) == Exec(I, s.thenB.stmts, env, tr)
    requires s.elseB.Some? ==> forall tr ::
             Exec(I, z.elseB.value.stmts, env, tr)
             == Exec(I, s.elseB.value.stmts, env, tr)
    ensures forall tr :: ExecStmt(I, z, env, tr) == ExecStmt(I, s, env, tr)
  {
  }

  // ---- rewriting keeps terms legal ----

  predicate RuleLegal(from: Expr, to: Expr) {
    Legal(from) && !IsAbs(from) && Legal(to) && !IsMutable(to) && !IsAbs(to)
  }

  lemma {:induction false} RewriteLegal(from: Expr, to: Expr, e: Expr)
    requires RuleLegal(from, to) && Legal(e)
    ensures var r := Rewrite(from, to, e);
            Legal(r) && IsAbs(r) == IsAbs(e) && (IsMutable(r) ==> IsMutable(e))
    decreases Size(e), 1
  {
    if AlphaEq(e, from) {
      AlphaSound(e, from);
      ErasedAbs(e, [], from, []);
    } else {
      match e
      case Atom(_) =>
      case VarE(_) =>
      case Node(op, es) => if !Dropped(op) { RewriteLegalSeq(from, to, es); }
      case App(m, f, es) => RewriteLegalApp(from, to, m, f, es);
      case Because(_, _) =>
      case Bind(t) => RewriteLegalTele(from, to, t);
    }
  }

  lemma {:induction false} RewriteLegalApp(from: Expr, to: Expr, m: bool, f: Expr, es: seq<Expr>)
    requires RuleLegal(from, to) && Legal(App(m, f, es))
    ensures var r := App(m, Rewrite(from, to, f), RewriteSeq(from, to, es));
            Legal(r) && (IsMutable(r) ==> IsMutable(App(m, f, es)))
    decreases 1 + Size(f) + SizeSeq(es), 0
  {
    RewriteLegal(from, to, f);
    RewriteLegalSeq(from, to, es);
    if IsAbs(f) {
      assert Size(f) == 1 + SizeTele(f.tele);
      AlphaEqAbs(f, from);
      RewriteLegalTele(from, to, f.tele);
    }
  }

  lemma {:induction false} RewriteLegalSeq(from: Expr, to: Expr, es: seq<Expr>)
    requires RuleLegal(from, to) && LegalSeq(es)
    ensures LegalSeq(RewriteSeq(from, to, es)) && (AnyMutable(RewriteSeq(from, to, es)) ==> AnyMutable(es))
    decreases SizeSeq(es), 2
  {
    if es != [] { RewriteLegal(from, to, es[0]); RewriteLegalSeq(from, to, es[1..]); }
  }

  lemma {:induction false} RewriteLegalTele(from: Expr, to: Expr, t: Tele)
    requires RuleLegal(from, to) && LegalTele(t)
    ensures LegalTele(RewriteTele(from, to, t)) && (QuietEnd(t) ==> QuietEnd(RewriteTele(from, to, t)))
    decreases SizeTele(t), 2
  {
    if t.args == [] {
      match t.end
      case SigmaEnd =>
      case PiEnd(_, r) => RewriteLegal(from, to, r);
      case AbsEnd(_, r, b) => RewriteLegal(from, to, r); RewriteLegalStmts(from, to, b.stmts);
    } else {
      var rest := Rest(t);
      RewriteLegal(from, to, t.args[0].ty);
      RewriteLegalTele(from, to, rest);
    }
  }

  lemma {:induction false} RewriteLegalStmts(from: Expr, to: Expr, ss: seq<Stmt>)
    requires RuleLegal(from, to) && LegalStmts(ss)
    ensures LegalStmts(RewriteStmts(from, to, ss)) && (Quiet(ss) ==> Quiet(RewriteStmts(from, to, ss)))
    decreases SizeStmts(ss), 3
  {
    if ss != [] { RewriteLegalStmt(from, to, ss[0]); RewriteLegalStmts(from, to, ss[1..]); }
  }

  lemma {:induction false} RewriteLegalStmt(from: Expr, to: Expr, s: Stmt)
    requires RuleLegal(from, to) && LegalStmt(s)
    ensures LegalStmt(RewriteStmt(from, to, s)) && (QuietStmt(s) ==> QuietStmt(RewriteStmt(from, to, s)))
    decreases SizeStmt(s), 2
  {
    match s
    case Call(m, f, es) => RewriteLegalApp(from, to, m, f, es);
    case IfElse(c, t, e) =>
      RewriteLegal(from, to, c);
      RewriteLegalStmts(from, to, t.stmts);
      if e.Some? { RewriteLegalStmts(from, to, e.value.stmts); }
    case Return(e) => if e.Some? { RewriteLegal(from, to, e.value); }
    case Impossible(e) => if e.Some? { RewriteLegal(from, to, e.value); }
  }
}
