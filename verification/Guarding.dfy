/** What typing says about `impossible`, one environment at a time.

    A body is guarded in an environment when every `impossible` in it stands below a hypothesis that is false there.
    Hypotheses are the immutable branch conditions: the condition of an enclosing branch, and, after an `if` without
    else whose branch does not come to its end, the negated condition. Well-typed under hypotheses H means guarded in
    every environment that satisfies H, whether or not execution gets as far as the `impossible`. */
module Guarding {
  import opened Ast
  import opened Semantics

  // ---- terminators ----

  predicate ReturnsFromAllBranches(ss: seq<Stmt>)
    decreases SizeStmts(ss), 1
  {
    ss != [] && (IsTerminator(ss[0]) || ReturnsFromAllBranches(ss[1..]))
  }

  predicate IsTerminator(s: Stmt)
    decreases SizeStmt(s), 0
  {
    match s
    case Call(_, _, _) => false
    case IfElse(_, t, e) => e.Some? && ReturnsFromAllBranches(t.stmts) && ReturnsFromAllBranches(e.value.stmts)
    case Return(_) => true
    case Impossible(_) => true
  }

  // ---- impossible code ----

  predicate IsImpossible(e: Expr)
    decreases Size(e), 0
  {
    match e
    case Atom(_) => false
    case VarE(_) => false
    case Node(op, es) => !op.ScopeOf? && AnyImpossible(es)
    case App(_, f, es) =>
      || IsImpossible(f)
      || (IsAbs(f) && (assert Size(f) == 1 + SizeTele(f.tele);
         assert SizeTele(f.tele) > SizeStmts(f.tele.end.body.stmts);
                       ImpossibleRange(f.tele.end.body.stmts)))
      || AnyImpossible(es)
    case Because(v, _) => IsImpossible(v)
    case Bind(t) => ImpossibleSignature(t)
  }

  predicate AnyImpossible(es: seq<Expr>)
    decreases SizeSeq(es), 1
  {
    es != [] && (IsImpossible(es[0]) || AnyImpossible(es[1..]))
  }

  // Argument types and return type only: an abstraction with an impossible body can still be constructed.
  predicate ImpossibleSignature(t: Tele)
    decreases SizeTele(t), 1
  {
    if t.args == [] then
      match t.end
      case SigmaEnd => false
      case PiEnd(_, r) => IsImpossible(r)
      case AbsEnd(_, r, _) => IsImpossible(r)
    else
      var a, rest := t.args[0], Rest(t);
      IsImpossible(a.ty) || ImpossibleSignature(rest)
  }

  predicate ImpossibleStmt(s: Stmt)
    decreases SizeStmt(s), 1
  {
    match s
    case Call(m, f, es) => IsImpossible(App(m, f, es))
    case IfElse(c, t, e) => IsImpossible(c) || (e.Some? && ImpossibleRange(t.stmts) && ImpossibleRange(e.value.stmts))
    case Return(e) => e.Some? && IsImpossible(e.value)
    case Impossible(_) => true
  }

  // The scan gives up at the first `if` without else that can be entered.
  predicate ImpossibleRange(ss: seq<Stmt>)
    decreases SizeStmts(ss), 2
  {
    if ss == [] then false
    else if ImpossibleStmt(ss[0]) then true
    else if ss[0].IfElse? && ss[0].elseB.None? && !IsImpossible(ss[0].cond)
      && !ImpossibleRange(ss[0].thenB.stmts) then false
    else ImpossibleRange(ss[1..])
  }

  method ScanImpossible(ss: seq<Stmt>) returns (r: bool)
    ensures r == ImpossibleRange(ss)
  {
    for i := 0 to |ss|
      invariant ImpossibleRange(ss[i..]) == ImpossibleRange(ss)
    {
      var s := ss[i];
      assert ss[i..][0] == s && ss[i..][1..] == ss[i + 1..];
      if ImpossibleStmt(s) {
        return true;
      }
      if s.IfElse? && s.elseB.None? && !IsImpossible(s.cond) && !ImpossibleRange(s.thenB.stmts) {
        return false;
      }
    }
    return false;
  }

  // ---- the discipline ----

  // "Returns from all branches", read modulo constant conditions: dropping a dead else must not hide a terminator.
  predicate Returns(ss: seq<Stmt>)
    decreases SizeStmts(ss), 1
  {
    ss != [] && (ReturnsStmt(ss[0]) || Returns(ss[1..]))
  }

  predicate ReturnsStmt(s: Stmt)
    decreases SizeStmt(s), 0
  {
    match s
    case Call(_, _, _) => false
    case IfElse(c, t, e) =>
      if c == Atom(BoolConst(true)) then Returns(t.stmts)
      else if c == Atom(BoolConst(false)) then e.Some? && Returns(e.value.stmts)
      else e.Some? && Returns(t.stmts) && Returns(e.value.stmts)
    case Return(_) => true
    case Impossible(_) => true
  }

  ghost predicate Guarded(I: Interp, e: Expr, env: Env)
    decreases Size(e), 0
  {
    match e
    case Atom(_) => true
    case VarE(_) => true
    case Node(op, es) => op.ScopeOf? || GuardedSeq(I, es, env)
    case App(_, f, es) =>
      && GuardedSeq(I, es, env)
      && Guarded(I, f, env)
      && (IsAbs(f) ==>
            assert Size(f) == 1 + SizeTele(f.tele);
            forall tr: Trace :: GuardedRun(I, f.tele, EvalSeq(I, es, env, tr).vs, env))
    case Because(v, _) => Guarded(I, v, env)
    case Bind(t) => GuardedSignature(I, t, env)
  }

  ghost predicate GuardedSeq(I: Interp, es: seq<Expr>, env: Env)
    decreases SizeSeq(es), 1
  {
    es != [] ==> Guarded(I, es[0], env) && GuardedSeq(I, es[1..], env)
  }

  // Types are checked whatever the values of the arguments they depend on.
  ghost predicate GuardedSignature(I: Interp, t: Tele, env: Env)
    decreases SizeTele(t), 2
  {
    if t.args == [] then
      match t.end
      case SigmaEnd => true
      case PiEnd(_, r) => Guarded(I, r, env)
      case AbsEnd(_, r, _) => Guarded(I, r, env)
    else
      var a, rest := t.args[0], Rest(t);
      Guarded(I, a.ty, env) && forall v: Value :: GuardedSignature(I, rest, Extend(a.name, v, env))
  }

  // The body of an abstraction, with the arguments it is applied to.
  ghost predicate GuardedRun(I: Interp, t: Tele, vs: seq<Value>, env: Env)
    decreases SizeTele(t), 2
  {
    if t.args == [] then
      match t.end
      case AbsEnd(_, _, b) =>
        assert SizeTele(t) > SizeStmts(b.stmts);
        GuardedStmts(I, b.stmts, env)
      case _ => true
    else
      var rest := Rest(t);
      GuardedRun(I, rest, Others(vs), Extend(t.args[0].name, First(vs), env))
  }

  ghost predicate GuardedStmts(I: Interp, ss: seq<Stmt>, env: Env)
    decreases SizeStmts(ss), 2
  {
    if ss == [] then true
    else
      && GuardedStmt(I, ss[0], env)
      && (Excused(I, ss[0], env) || GuardedStmts(I, ss[1..], env))
  }

  ghost predicate GuardedStmt(I: Interp, s: Stmt, env: Env)
    decreases SizeStmt(s), 1
  {
    match s
    case Call(m, f, es) => Guarded(I, App(m, f, es), env)
    case IfElse(c, t, e) =>
      && Guarded(I, c, env)
      && (IsMutable(c) || Holds(I, c, env) ==> GuardedStmts(I, t.stmts, env))
      && (IsMutable(c) || !Holds(I, c, env) ==> e.Some? ==> GuardedStmts(I, e.value.stmts, env))
    case Return(e) => e.Some? ==> Guarded(I, e.value, env)
    case Impossible(_) => false
  }

  // What follows `if (c) t` is only entered with `c` false, provided `t` returns.
  ghost predicate Excused(I: Interp, s: Stmt, env: Env) {
    s.IfElse? && s.elseB.None? && !IsMutable(s.cond) && Holds(I, s.cond, env) && Returns(s.thenB.stmts)
  }

  lemma {:induction false} TerminatorReturns(s: Stmt)
    requires IsTerminator(s)
    ensures ReturnsStmt(s)
    decreases SizeStmt(s), 0
  {
    if s.IfElse? {
      AllBranchesReturn(s.thenB.stmts);
      AllBranchesReturn(s.elseB.value.stmts);
    }
  }

  lemma {:induction false} AllBranchesReturn(ss: seq<Stmt>)
    requires ReturnsFromAllBranches(ss)
    ensures Returns(ss)
    decreases SizeStmts(ss), 1
  {
    if IsTerminator(ss[0]) { TerminatorReturns(ss[0]); } else { AllBranchesReturn(ss[1..]); }
  }

  // ---- guarded code never reaches `impossible`, and returns if its branches do ----

  lemma {:induction false} GuardedNeverAbsurd(I: Interp, ss: seq<Stmt>, env: Env, tr: Trace)
    requires LegalStmts(ss) && GuardedStmts(I, ss, env)
    ensures !Exec(I, ss, env, tr).out.Absurd?
    ensures Returns(ss) ==> Exec(I, ss, env, tr).out.Returned?
    decreases SizeStmts(ss), 2
  {
    if ss != [] {
      GuardedNeverAbsurdStmt(I, ss[0], env, tr);
      var r := ExecStmt(I, ss[0], env, tr);
      if r.out.Fell? && !Excused(I, ss[0], env) { GuardedNeverAbsurd(I, ss[1..], env, r.tr); }
    }
  }

  lemma {:induction false} GuardedNeverAbsurdStmt(I: Interp, s: Stmt, env: Env, tr: Trace)
    requires LegalStmt(s) && GuardedStmt(I, s, env)
    ensures !ExecStmt(I, s, env, tr).out.Absurd?
    ensures ReturnsStmt(s) || Excused(I, s, env) ==> ExecStmt(I, s, env, tr).out.Returned?
    decreases SizeStmt(s), 1
  {
    if s.IfElse? {
      if !IsMutable(s.cond) { ImmutableIsPure(I, s.cond, env, tr); }
      var r := Eval(I, s.cond, env, tr);
      if r.v == VBool(true) { GuardedNeverAbsurd(I, s.thenB.stmts, env, r.tr); }
      else if s.elseB.Some? { GuardedNeverAbsurd(I, s.elseB.value.stmts, env, r.tr); }
    }
  }

  // ---- impossible code is guarded in no environment ----

  lemma {:induction false} ImpossibleUnguarded(I: Interp, e: Expr, env: Env)
    requires IsImpossible(e)
    ensures !Guarded(I, e, env)
    decreases Size(e), 0
  {
    match e
    case Node(_, es) => AnyImpossibleUnguarded(I, es, env);
    case App(_, f, es) =>
      if IsImpossible(f) { ImpossibleUnguarded(I, f, env); }
      else if AnyImpossible(es) { AnyImpossibleUnguarded(I, es, env); }
      else {
        assert Size(f) == 1 + SizeTele(f.tele);
        ImpossibleRunUnguarded(I, f.tele, EvalSeq(I, es, env, []).vs, env);
      }
    case Because(v, _) => ImpossibleUnguarded(I, v, env);
    case Bind(t) => ImpossibleSignatureUnguarded(I, t, env);
  }

  lemma {:induction false} AnyImpossibleUnguarded(I: Interp, es: seq<Expr>, env: Env)
    requires AnyImpossible(es)
    ensures !GuardedSeq(I, es, env)
    decreases SizeSeq(es), 1
  {
    if IsImpossible(es[0]) { ImpossibleUnguarded(I, es[0], env); } else { AnyImpossibleUnguarded(I, es[1..], env); }
  }

  lemma {:induction false} ImpossibleSignatureUnguarded(I: Interp, t: Tele, env: Env)
    requires ImpossibleSignature(t)
    ensures !GuardedSignature(I, t, env)
    decreases SizeTele(t), 2
  {
    if t.args == [] {
      ImpossibleUnguarded(I, t.end.ret, env);
    } else {
      var a, rest := t.args[0], Rest(t);
      if IsImpossible(a.ty) { ImpossibleUnguarded(I, a.ty, env); }
      else { ImpossibleSignatureUnguarded(I, rest, Extend(a.name, VUnit, env)); }
    }
  }

  lemma {:induction false} ImpossibleRunUnguarded(I: Interp, t: Tele, vs: seq<Value>, env: Env)
    requires t.end.AbsEnd? && ImpossibleRange(t.end.body.stmts)
    ensures !GuardedRun(I, t, vs, env)
    decreases SizeTele(t), 2
  {
    if t.args == [] {
      assert SizeTele(t) > SizeStmts(t.end.body.stmts);
      ImpossibleRangeUnguarded(I, t.end.body.stmts, env);
    } else {
      ImpossibleRunUnguarded(I, Rest(t), Others(vs), Extend(t.args[0].name, First(vs), env));
    }
  }

  lemma {:induction false} ImpossibleStmtUnguarded(I: Interp, s: Stmt, env: Env)
    requires ImpossibleStmt(s)
    ensures !GuardedStmt(I, s, env)
    decreases SizeStmt(s), 1
  {
    match s
    case Call(m, f, es) => ImpossibleUnguarded(I, App(m, f, es), env);
    case IfElse(c, t, e) =>
      if IsImpossible(c) { ImpossibleUnguarded(I, c, env); }
      else if Holds(I, c, env) { ImpossibleRangeUnguarded(I, t.stmts, env); }
      else { ImpossibleRangeUnguarded(I, e.value.stmts, env); }
    case Return(e) => ImpossibleUnguarded(I, e.value, env);
    case Impossible(_) =>
  }

  lemma {:induction false} ImpossibleRangeUnguarded(I: Interp, ss: seq<Stmt>, env: Env)
    requires ImpossibleRange(ss)
    ensures !GuardedStmts(I, ss, env)
    decreases SizeStmts(ss), 2
  {
    if ImpossibleStmt(ss[0]) {
      ImpossibleStmtUnguarded(I, ss[0], env);
    } else {
      ImpossibleRangeUnguarded(I, ss[1..], env);
      if Excused(I, ss[0], env) {
        assert SizeStmt(ss[0]) > SizeStmts(ss[0].thenB.stmts);
        ImpossibleRangeUnguarded(I, ss[0].thenB.stmts, env);
      }
    }
  }

  // `is_impossible` says nothing about execution by itself.
  lemma ImpossibleMayReturn(I: Interp, env: Env, tr: Trace)
    ensures var body := [Return(None), Impossible(None)];
            ImpossibleRange(body) && Exec(I, body, env, tr) == Run(Returned(VUnit), tr)
  {
    var body := [Return(None), Impossible(None)];
    assert body[1..] == [Impossible(None)];
    assert ImpossibleRange(body[1..]);
  }
}
