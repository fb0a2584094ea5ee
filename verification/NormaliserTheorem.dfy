/** Normalisation preserves meaning, in every environment in which the body is guarded.

    Two conditions on the run are needed, and both can be computed beforehand: every name chosen while substituting is
    fine (`BetaOk`), and an `if` without else whose implicit else-branch is judged impossible is only replaced by its
    branch if that branch returns (`LiftOk`). Without the second the theorem is false, see `NormaliserLimits`. */
module NormaliserTheorem {
  import opened Ast
  import opened Substitution
  import opened Semantics
  import opened Guarding
  import opened SubstitutionMeaning
  import opened UnreachableCode
  import opened Normaliser
  import opened Legality

  // ---- the conditions ----

  // The second pass replaces this `if` by its branch because what follows is impossible.
  predicate Lifts(s: Stmt, rest: seq<Stmt>) {
    && s.IfElse? && s.elseB.None?
    && s.cond != Atom(BoolConst(true)) && s.cond != Atom(BoolConst(false)) && !IsMutable(s.cond)
    && !ImpossibleRange(s.thenB.stmts) && ImpossibleRange(rest)
  }

  predicate LiftOk(ss: seq<Stmt>)
    decreases SizeStmts(ss)
  {
    ss != [] ==>
      && (Lifts(ss[0], ss[1..]) ==> ReturnsFromAllBranches(ss[0].thenB.stmts))
      && (match Look(ss[0], ss[1..])
          case Keep => LiftOk(ss[1..])
          case Restart(next) => LiftOk(next))
  }

  predicate Clean(e: Expr, fuel: nat)
    decreases fuel, Size(e), 1
  {
    match e
    case Atom(_) => true
    case VarE(_) => true
    case Node(_, es) => CleanSeq(es, fuel)
    case App(_, f, es) => CleanApp(f, es, fuel)
    case Because(v, _) => Clean(v, fuel)
    case Bind(t) => CleanTele(t, fuel)
  }

  predicate CleanSeq(es: seq<Expr>, fuel: nat)
    decreases fuel, SizeSeq(es), 2
  {
    es != [] ==> Clean(es[0], fuel) && CleanSeq(es[1..], fuel)
  }

  predicate CleanApp(f: Expr, es: seq<Expr>, fuel: nat)
    decreases fuel, 1 + Size(f) + SizeSeq(es), 0
  {
    var g, vs := Normalise(f, fuel), NormaliseSeq(es, fuel);
    && Clean(f, fuel) && CleanSeq(es, fuel)
    && (AnyMutable(vs) || !IsRedex(g, vs) || fuel == 0 ||
        (BetaEnd(g.tele, vs);
         BetaOk(g.tele, vs) && CleanBody(BetaTele(g.tele, vs).end.body.stmts, fuel - 1)))
  }

  predicate CleanTele(t: Tele, fuel: nat)
    decreases fuel, SizeTele(t), 4
  {
    if t.args == [] then
      match t.end
      case SigmaEnd => true
      case PiEnd(_, r) => Clean(r, fuel)
      case AbsEnd(_, r, b) => Clean(r, fuel) && CleanBody(b.stmts, fuel)
    else
      var a, rest := t.args[0], Rest(t);
      Clean(a.ty, fuel) && CleanTele(rest, fuel)
  }

  predicate CleanBody(ss: seq<Stmt>, fuel: nat)
    decreases fuel, SizeStmts(ss), 4
  {
    CleanStmts(Drop(ss), fuel) && LiftOk(NormaliseStmts(Drop(ss), fuel))
  }

  predicate CleanStmts(ss: seq<Stmt>, fuel: nat)
    decreases fuel, SizeStmts(ss), 3
  {
    ss != [] ==> CleanStmt(ss[0], fuel) && CleanStmts(ss[1..], fuel)
  }

  predicate CleanStmt(s: Stmt, fuel: nat)
    decreases fuel, SizeStmt(s), 2
  {
    match s
    case Call(_, f, es) => CleanApp(f, es, fuel)
    case IfElse(c, t, e) =>
      && Clean(c, fuel)
      && CleanBody(t.stmts, fuel)
      && (e.Some? ==> CleanBody(e.value.stmts, fuel))
    case Return(e) => e.Some? ==> Clean(e.value, fuel)
    case Impossible(_) => true
  }

  // ---- statement lists ----

  lemma {:induction false} ExecAppend(I: Interp, ss: seq<Stmt>, zs: seq<Stmt>, env: Env, tr: Trace)
    ensures Exec(I, ss + zs, env, tr) ==
            var r := Exec(I, ss, env, tr); if r.out.Fell? then Exec(I, zs, env, r.tr) else r
  {
    if ss == [] {
      assert ss + zs == zs;
    } else {
      assert (ss + zs)[0] == ss[0] && (ss + zs)[1..] == ss[1..] + zs;
      ExecAppend(I, ss[1..], zs, env, ExecStmt(I, ss[0], env, tr).tr);
    }
  }

  lemma {:induction false} GuardedAppend(I: Interp, ss: seq<Stmt>, zs: seq<Stmt>, env: Env)
    requires GuardedStmts(I, ss, env) && GuardedStmts(I, zs, env)
    ensures GuardedStmts(I, ss + zs, env)
  {
    if ss == [] {
      assert ss + zs == zs;
    } else {
      assert (ss + zs)[0] == ss[0] && (ss + zs)[1..] == ss[1..] + zs;
      if !Excused(I, ss[0], env) { GuardedAppend(I, ss[1..], zs, env); }
    }
  }

  lemma {:induction false} ReturnsAppend(ss: seq<Stmt>, zs: seq<Stmt>)
    ensures Returns(ss + zs) <==> Returns(ss) || Returns(zs)
  {
    if ss == [] {
      assert ss + zs == zs;
    } else {
      assert (ss + zs)[0] == ss[0] && (ss + zs)[1..] == ss[1..] + zs;
      ReturnsAppend(ss[1..], zs);
    }
  }

  // ---- settled statements: no condition left that is a constant ----

  predicate IsConst(c: Expr) {
    c.Atom? && c.atom.BoolConst?
  }

  predicate Settled(ss: seq<Stmt>)
    decreases SizeStmts(ss), 1
  {
    ss != [] ==> SettledStmt(ss[0]) && Settled(ss[1..])
  }

  predicate SettledStmt(s: Stmt)
    decreases SizeStmt(s), 0
  {
    s.IfElse? ==> !IsConst(s.cond) && Settled(s.thenB.stmts) && (s.elseB.Some? ==> Settled(s.elseB.value.stmts))
  }

  predicate SettledBranches(ss: seq<Stmt>) {
    forall i :: 0 <= i < |ss| && ss[i].IfElse? ==>
      Settled(ss[i].thenB.stmts) && (ss[i].elseB.Some? ==> Settled(ss[i].elseB.value.stmts))
  }

  lemma {:induction false} SettledHasSettledBranches(ss: seq<Stmt>)
    requires Settled(ss)
    ensures SettledBranches(ss)
  {
    if ss != [] { SettledHasSettledBranches(ss[1..]); }
  }

  // On settled statements, terminators are what they look like.
  lemma {:induction false} SettledReturns(ss: seq<Stmt>)
    requires Settled(ss)
    ensures Returns(ss) <==> ReturnsFromAllBranches(ss)
    decreases SizeStmts(ss), 1
  {
    if ss != [] { SettledReturnsStmt(ss[0]); SettledReturns(ss[1..]); }
  }

  lemma {:induction false} SettledReturnsStmt(s: Stmt)
    requires SettledStmt(s)
    ensures ReturnsStmt(s) <==> IsTerminator(s)
    decreases SizeStmt(s), 0
  {
    if s.IfElse? {
      SettledReturns(s.thenB.stmts);
      if s.elseB.Some? { SettledReturns(s.elseB.value.stmts); }
    }
  }

  lemma {:induction false} DropSettled(ss: seq<Stmt>)
    requires SettledBranches(ss)
    ensures SettledBranches(Drop(ss))
    ensures Settled(ss) ==> Settled(Drop(ss))
    decreases SizeStmts(ss), 1
  {
    if ss != [] {
      DropUnfolds(ss);
      DropSettledStmt(ss[0]);
      if !IsTerminator(ss[0]) {
        DropSettled(ss[1..]);
        assert Drop(ss)[1..] == Drop(ss[1..]);
      } else {
        assert Drop(ss)[1..] == [];
      }
    }
  }

  lemma {:induction false} DropSettledStmt(s: Stmt)
    requires s.IfElse? ==> Settled(s.thenB.stmts) && (s.elseB.Some? ==> Settled(s.elseB.value.stmts))
    ensures var r := DropInStmt(s);
            && (r.IfElse? ==> Settled(r.thenB.stmts) && (r.elseB.Some? ==> Settled(r.elseB.value.stmts)))
            && (SettledStmt(s) ==> SettledStmt(r))
    decreases SizeStmt(s), 0
  {
    if s.IfElse? {
      SettledHasSettledBranches(s.thenB.stmts);
      DropSettled(s.thenB.stmts);
      if s.elseB.Some? {
        SettledHasSettledBranches(s.elseB.value.stmts);
        DropSettled(s.elseB.value.stmts);
      }
    }
  }

  lemma LookSettled(s: Stmt, rest: seq<Stmt>)
    requires SettledBranches([s] + rest)
    ensures Look(s, rest).Restart? ==> SettledBranches(Look(s, rest).stmts)
    ensures Look(s, rest).Keep? && s.IfElse? ==> IsMutable(s.cond) || !IsConst(s.cond)
  {
    assert ([s] + rest)[0] == s && forall i :: 0 <= i < |rest| ==> ([s] + rest)[i + 1] == rest[i];
    assert SettledBranches(rest);
    if s.IfElse? {
      SettledHasSettledBranches(s.thenB.stmts);
      DropSettled(s.thenB.stmts);
      assert SettledBranches(s.thenB.stmts + rest);
      DropSettled(s.thenB.stmts + rest);
      if s.elseB.Some? {
        SettledHasSettledBranches(s.elseB.value.stmts);
        assert SettledBranches(s.elseB.value.stmts + rest);
        DropSettled(s.elseB.value.stmts + rest);
      }
    }
  }

  lemma {:induction false} SecondPassSettled(ss: seq<Stmt>)
    requires SettledBranches(ss)
    ensures Settled(SecondPass(ss))
    decreases SizeStmts(ss)
  {
    if ss != [] {
      assert [ss[0]] + ss[1..] == ss;
      LookSettled(ss[0], ss[1..]);
      match Look(ss[0], ss[1..])
      case Keep =>
        SecondPassSettled(ss[1..]);
        assert ([ss[0]] + SecondPass(ss[1..]))[1..] == SecondPass(ss[1..]);
        assert ss[0].IfElse? ==> !IsConst(ss[0].cond);
      case Restart(next) => SecondPassSettled(next);
    }
  }

  // ---- the second pass ----

  // Only calls with effects, and only conditions that can go either way.
  predicate Reduced(ss: seq<Stmt>) {
    forall i :: 0 <= i < |ss| ==> ReducedStmt(ss[i])
  }

  predicate ReducedStmt(s: Stmt) {
    match s
    case Call(m, f, es) => IsMutable(App(m, f, es))
    case IfElse(c, t, e) =>
      && !IsConst(c)
      && (IsMutable(c) || (!ImpossibleRange(t.stmts) && (e.Some? ==> !ImpossibleRange(e.value.stmts))))
    case _ => true
  }

  lemma {:induction false} SecondPassReduces(ss: seq<Stmt>)
    ensures Reduced(SecondPass(ss))
    decreases SizeStmts(ss)
  {
    if ss != [] {
      match Look(ss[0], ss[1..])
      case Keep => SecondPassReduces(ss[1..]);
      case Restart(next) => SecondPassReduces(next);
    }
  }

  // What a normalised body looks like: settled at every depth, reduced at the top.
  lemma NormalForm(ss: seq<Stmt>, fuel: nat)
    ensures Settled(NormaliseBody(ss, fuel)) && Reduced(NormaliseBody(ss, fuel))
  {
    BodySettled(ss, fuel);
    SecondPassReduces(NormaliseStmts(Drop(ss), fuel));
  }

  lemma LookReturns(s: Stmt, rest: seq<Stmt>)
    requires Look(s, rest).Restart? && Returns([s] + rest)
    requires Lifts(s, rest) ==> ReturnsFromAllBranches(s.thenB.stmts)
    ensures Returns(Look(s, rest).stmts)
  {
    assert ([s] + rest)[1..] == rest;
    if s.IfElse? {
      ReturnsAppend(s.thenB.stmts, rest);
      DropReturns(s.thenB.stmts + rest);
      DropReturns(s.thenB.stmts);
      if Lifts(s, rest) { AllBranchesReturn(s.thenB.stmts); }
      if s.elseB.Some? {
        ReturnsAppend(s.elseB.value.stmts, rest);
        DropReturns(s.elseB.value.stmts + rest);
      }
    }
  }

  /** A step of the second pass loses a terminator exactly when it lifts a branch that does not return. */
  lemma LiftLosesTerminator(s: Stmt, rest: seq<Stmt>)
    requires Look(s, rest).Restart? && Returns([s] + rest) && (s.IfElse? ==> Settled(s.thenB.stmts))
    ensures Returns(Look(s, rest).stmts) <==> (Lifts(s, rest) ==> ReturnsFromAllBranches(s.thenB.stmts))
  {
    if Lifts(s, rest) && !ReturnsFromAllBranches(s.thenB.stmts) {
      DropReturns(s.thenB.stmts);
      SettledReturns(s.thenB.stmts);
    } else {
      LookReturns(s, rest);
    }
  }

  lemma DropReturns(ss: seq<Stmt>)
    ensures Returns(Drop(ss)) <==> Returns(ss)
  {
    var I := Interp(_ => VUnit, _ => VUnit, (_, _) => VUnit, (_, _) => VUnit, (_, _) => VUnit, (_, _, _) => VUnit);
    DropKeepsGuarded(I, ss, map[]);
  }

  lemma {:induction false} SecondPassReturns(ss: seq<Stmt>)
    requires LiftOk(ss) && Returns(ss)
    ensures Returns(SecondPass(ss))
    decreases SizeStmts(ss)
  {
    assert [ss[0]] + ss[1..] == ss;
    match Look(ss[0], ss[1..])
    case Keep =>
      assert ([ss[0]] + SecondPass(ss[1..]))[1..] == SecondPass(ss[1..]);
      if !ReturnsStmt(ss[0]) { SecondPassReturns(ss[1..]); }
    case Restart(next) =>
      LookReturns(ss[0], ss[1..]);
      SecondPassReturns(next);
  }

  // Replacing a guarded `if` by a branch: same execution, still guarded.
  lemma SpliceBranch(I: Interp, branch: seq<Stmt>, rest: seq<Stmt>, env: Env)
    requires LegalStmts(branch) && GuardedStmts(I, branch, env)
    requires GuardedStmts(I, rest, env) || ReturnsFromAllBranches(branch)
    ensures GuardedStmts(I, Drop(branch + rest), env)
    ensures forall tr :: Exec(I, Drop(branch + rest), env, tr) ==
                         var r := Exec(I, branch, env, tr); if r.out.Fell? then Exec(I, rest, env, r.tr) else r
  {
    if ReturnsFromAllBranches(branch) {
      DropStopsAt(branch, rest);
      DropKeepsGuarded(I, branch, env);
    } else {
      GuardedAppend(I, branch, rest, env);
      DropKeepsGuarded(I, branch + rest, env);
    }
    forall tr
      ensures Exec(I, Drop(branch + rest), env, tr) ==
              var r := Exec(I, branch, env, tr); if r.out.Fell? then Exec(I, rest, env, r.tr) else r
    {
      DropKeepsExec(I, branch + rest, env, tr);
      ExecAppend(I, branch, rest, env, tr);
    }
  }

  lemma {:induction false} DropStopsAt(branch: seq<Stmt>, rest: seq<Stmt>)
    requires ReturnsFromAllBranches(branch)
    ensures Drop(branch + rest) == Drop(branch)
  {
    assert (branch + rest)[0] == branch[0] && (branch + rest)[1..] == branch[1..] + rest;
    if !IsTerminator(branch[0]) {
      DropStopsAt(branch[1..], rest);
      DropUnfolds(branch);
      DropUnfolds(branch + rest);
    }
  }

  lemma LookMeaning(I: Interp, s: Stmt, rest: seq<Stmt>, env: Env)
    requires LegalStmt(s) && LegalStmts(rest) && Look(s, rest).Restart?
    requires s.IfElse? ==> Settled(s.thenB.stmts)
    requires GuardedStmt(I, s, env) && (Excused(I, s, env) || GuardedStmts(I, rest, env))
    ensures var next := Look(s, rest).stmts;
            && GuardedStmts(I, next, env)
            && forall tr :: Exec(I, next, env, tr) ==
                            var r := ExecStmt(I, s, env, tr); if r.out.Fell? then Exec(I, rest, env, r.tr) else r
  {
    match s
    case Call(m, f, es) =>
      forall tr ensures Eval(I, App(m, f, es), env, tr).tr == tr { ImmutableIsPure(I, App(m, f, es), env, tr); }
    case IfElse(c, t, e) =>
      assert IsConst(c) ==> (Holds(I, c, env) <==> c == Atom(BoolConst(true)));
      forall tr ensures Eval(I, c, env, tr) == Res(Pure(I, c, env), tr) { ImmutableIsPure(I, c, env, tr); }
      SettledReturns(t.stmts);
      LookAtIf(I, c, t.stmts, e, rest, env);
  }

  // The branch chosen is the one that the condition selects, because the other one is impossible or cut off.
  lemma LookAtIf(I: Interp, c: Expr, t: seq<Stmt>, e: Option<Body>, rest: seq<Stmt>, env: Env)
    requires var s := IfElse(c, Body(t), e);
             && LegalStmt(s) && LegalStmts(rest) && Look(s, rest).Restart?
             && GuardedStmt(I, s, env) && (Excused(I, s, env) || GuardedStmts(I, rest, env))
    requires forall tr :: Eval(I, c, env, tr) == Res(Pure(I, c, env), tr)
    requires IsConst(c) ==> (Holds(I, c, env) <==> c == Atom(BoolConst(true)))
    requires Returns(t) <==> ReturnsFromAllBranches(t)
    ensures var s := IfElse(c, Body(t), e);
            var next := Look(s, rest).stmts;
            && GuardedStmts(I, next, env)
            && forall tr :: Exec(I, next, env, tr) ==
                            var r := ExecStmt(I, s, env, tr); if r.out.Fell? then Exec(I, rest, env, r.tr) else r
  {
    var s := IfElse(c, Body(t), e);
    if ImpossibleRange(t) { ImpossibleRangeUnguarded(I, t, env); }
    if ImpossibleRange(rest) { ImpossibleRangeUnguarded(I, rest, env); }
    if e.Some? && ImpossibleRange(e.value.stmts) { ImpossibleRangeUnguarded(I, e.value.stmts, env); }
    if Holds(I, c, env) {
      if Lifts(s, rest) {
        GuardedReturns(I, t, env);
        SpliceBranch(I, t, [], env);
        assert t + [] == t;
      } else {
        SpliceBranch(I, t, rest, env);
      }
    } else if e.Some? {
      SpliceBranch(I, e.value.stmts, rest, env);
    }
  }

  lemma GuardedReturns(I: Interp, ss: seq<Stmt>, env: Env)
    requires LegalStmts(ss) && GuardedStmts(I, ss, env) && Returns(ss)
    ensures forall tr :: Exec(I, ss, env, tr).out.Returned?
  {
    forall tr ensures Exec(I, ss, env, tr).out.Returned? { GuardedNeverAbsurd(I, ss, env, tr); }
  }

  lemma {:induction false} SecondPassMeaning(I: Interp, ss: seq<Stmt>, env: Env)
    requires LegalStmts(ss) && SettledBranches(ss) && LiftOk(ss) && GuardedStmts(I, ss, env)
    ensures GuardedStmts(I, SecondPass(ss), env)
    ensures forall tr :: Exec(I, SecondPass(ss), env, tr) == Exec(I, ss, env, tr)
    decreases SizeStmts(ss)
  {
    if ss != [] {
      var s, rest := ss[0], ss[1..];
      assert [s] + rest == ss;
      match Look(s, rest)
      case Keep => SecondPassKeep(I, ss, env);
      case Restart(next) =>
        LookLegal(s, rest);
        LookSettled(s, rest);
        LookMeaning(I, s, rest, env);
        SecondPassMeaning(I, next, env);
    }
  }

  lemma {:induction false} SecondPassKeep(I: Interp, ss: seq<Stmt>, env: Env)
    requires ss != [] && Look(ss[0], ss[1..]).Keep?
    requires LegalStmts(ss) && SettledBranches(ss) && LiftOk(ss) && GuardedStmts(I, ss, env)
    ensures GuardedStmts(I, SecondPass(ss), env)
    ensures forall tr :: Exec(I, SecondPass(ss), env, tr) == Exec(I, ss, env, tr)
    decreases SizeStmts(ss), 0
  {
    var s, rest := ss[0], ss[1..];
    var kept := SecondPass(rest);
    assert ([s] + kept)[1..] == kept;
    if Excused(I, s, env) {
      forall tr ensures ExecStmt(I, s, env, tr).out.Returned? { GuardedNeverAbsurdStmt(I, s, env, tr); }
    } else {
      SecondPassMeaning(I, rest, env);
    }
  }

  // ---- the first pass: branches settle, terminators stay ----

  lemma {:induction false} BodySettled(ss: seq<Stmt>, fuel: nat)
    ensures Settled(NormaliseBody(ss, fuel))
    decreases SizeStmts(ss), 2
  {
    StmtsSettled(Drop(ss), fuel);
    SecondPassSettled(NormaliseStmts(Drop(ss), fuel));
  }

  lemma {:induction false} StmtsSettled(ss: seq<Stmt>, fuel: nat)
    ensures SettledBranches(NormaliseStmts(ss, fuel))
    decreases SizeStmts(ss), 1
  {
    if ss != [] {
      StmtsSettled(ss[1..], fuel);
      if ss[0].IfElse? {
        assert SizeStmts(ss) >= SizeStmt(ss[0]);
        BodySettled(ss[0].thenB.stmts, fuel);
        if ss[0].elseB.Some? { BodySettled(ss[0].elseB.value.stmts, fuel); }
      }
    }
  }

  lemma {:induction false} BodyReturns(ss: seq<Stmt>, fuel: nat)
    requires CleanBody(ss, fuel) && Returns(ss)
    ensures Returns(NormaliseBody(ss, fuel))
    decreases SizeStmts(ss), 2
  {
    DropReturns(ss);
    StmtsReturn(Drop(ss), fuel);
    SecondPassReturns(NormaliseStmts(Drop(ss), fuel));
  }

  lemma {:induction false} StmtsReturn(ss: seq<Stmt>, fuel: nat)
    requires CleanStmts(ss, fuel) && Returns(ss)
    ensures Returns(NormaliseStmts(ss, fuel))
    decreases SizeStmts(ss), 1
  {
    var r := NormaliseStmts(ss, fuel);
    assert r[0] == NormaliseStmt(ss[0], fuel) && r[1..] == NormaliseStmts(ss[1..], fuel);
    if ReturnsStmt(ss[0]) { StmtReturns(ss[0], fuel); } else { StmtsReturn(ss[1..], fuel); }
  }

  lemma {:induction false} StmtReturns(s: Stmt, fuel: nat)
    requires CleanStmt(s, fuel) && ReturnsStmt(s)
    ensures ReturnsStmt(NormaliseStmt(s, fuel))
    decreases SizeStmt(s), 0
  {
    if s.IfElse? {
      if Returns(s.thenB.stmts) { BodyReturns(s.thenB.stmts, fuel); }
      if s.elseB.Some? && Returns(s.elseB.value.stmts) { BodyReturns(s.elseB.value.stmts, fuel); }
    }
  }

  // ---- the theorem ----

  // The first expression evaluates as the second does, and is guarded as well.
  ghost predicate Refines(I: Interp, p: Expr, q: Expr, env: Env) {
    Guarded(I, p, env) && forall tr :: Eval(I, p, env, tr) == Eval(I, q, env, tr)
  }

  ghost predicate RefinesSeq(I: Interp, es: seq<Expr>, fs: seq<Expr>, env: Env) {
    GuardedSeq(I, es, env) && forall tr :: EvalSeq(I, es, env, tr) == EvalSeq(I, fs, env, tr)
  }

  ghost predicate RefinesStmts(I: Interp, ss: seq<Stmt>, zs: seq<Stmt>, env: Env) {
    GuardedStmts(I, ss, env) && forall tr :: Exec(I, ss, env, tr) == Exec(I, zs, env, tr)
  }

  lemma {:induction false} NormaliseMeaning(I: Interp, e: Expr, fuel: nat, env: Env)
    requires Legal(e) && Clean(e, fuel) && Guarded(I, e, env)
    ensures Refines(I, Normalise(e, fuel), e, env)
    decreases fuel, Size(e), 1
  {
    match e
    case Atom(_) =>
    case VarE(_) =>
    case Node(op, es) => if !op.ScopeOf? { NormaliseMeaningSeq(I, es, fuel, env); }
    case App(m, f, es) =>
      NormaliseMeaningApp(I, m, f, es, fuel, env);
      NormaliseLegalApp(m, f, es, fuel);
      ExtractMeaning(I, m, NormaliseApp(f, es, fuel), env);
    case Because(v, _) => NormaliseMeaning(I, v, fuel, env);
    case Bind(t) =>
      NormaliseMeaningSignature(I, t, fuel, env);
      SameFamily(I, NormaliseTele(t, fuel), env, t, env);
  }

  lemma {:induction false} NormaliseMeaningSeq(I: Interp, es: seq<Expr>, fuel: nat, env: Env)
    requires LegalSeq(es) && CleanSeq(es, fuel) && GuardedSeq(I, es, env)
    ensures RefinesSeq(I, NormaliseSeq(es, fuel), es, env)
    decreases fuel, SizeSeq(es), 2
  {
    if es != [] {
      NormaliseMeaning(I, es[0], fuel, env);
      NormaliseMeaningSeq(I, es[1..], fuel, env);
      var r := NormaliseSeq(es, fuel);
      assert r[0] == Normalise(es[0], fuel) && r[1..] == NormaliseSeq(es[1..], fuel);
    }
  }

  lemma ExtractMeaning(I: Interp, m: bool, app: (Expr, seq<Expr>), env: Env)
    requires Legal(App(m, app.0, app.1)) && Guarded(I, App(m, app.0, app.1), env)
    ensures Refines(I, Extract(m, app), App(m, app.0, app.1), env)
  {
    var r := Extract(m, app);
    if r != App(m, app.0, app.1) {
      var t := app.0.tele;
      var body := t.end.body.stmts;
      assert t.args == [] && body[1..] == [];
      assert EvalSeq(I, app.1, env, []).vs == [];
      assert GuardedRun(I, t, [], env) && GuardedStmts(I, body, env) && GuardedStmt(I, body[0], env);
      forall tr ensures Eval(I, r, env, tr) == Eval(I, App(m, app.0, app.1), env, tr) {
        assert RunTele(I, t, [], env, tr) == Exec(I, body, env, tr);
        assert ExecStmt(I, body[0], env, tr).out.Returned?;
      }
    }
  }

  lemma {:induction false} NormaliseMeaningApp(I: Interp, m: bool, f: Expr, es: seq<Expr>, fuel: nat, env: Env)
    requires Legal(App(m, f, es)) && CleanApp(f, es, fuel) && Guarded(I, App(m, f, es), env)
    ensures var (g, vs) := NormaliseApp(f, es, fuel); Refines(I, App(m, g, vs), App(m, f, es), env)
    decreases fuel, 1 + Size(f) + SizeSeq(es), 0
  {
    var g, vs := Normalise(f, fuel), NormaliseSeq(es, fuel);
    NormaliseMeaning(I, f, fuel, env);
    NormaliseMeaningSeq(I, es, fuel, env);
    NormaliseLegal(f, fuel);
    NormaliseLegalSeq(es, fuel);
    if IsAbs(f) {
      assert Size(f) == 1 + SizeTele(f.tele);
      var t, u := f.tele, NormaliseTele(f.tele, fuel);
      NormaliseLegalTele(t, fuel);
      forall tr: Trace ensures RefinesRun(I, u, t, EvalSeq(I, es, env, tr).vs, env) {
        NormaliseMeaningRun(I, t, EvalSeq(I, es, env, tr).vs, fuel, env);
      }
      AppliedAbstraction(I, m, u, vs, t, es, env);
      if !(AnyMutable(vs) || !IsRedex(g, vs) || fuel == 0) {
        BetaEnd(u, vs);
        NormaliseMeaningRedex(I, m, u, vs, fuel, env);
      }
    } else {
      AppliedOther(I, m, g, vs, f, es, env);
    }
  }

  // Substituting the arguments and normalising the body that results.
  lemma {:induction false} NormaliseMeaningRedex(I: Interp, m: bool, u: Tele, vs: seq<Expr>, fuel: nat, env: Env)
    requires fuel > 0 && u.end.AbsEnd? && |u.args| == |vs| && LegalTele(u) && LegalSeq(vs) && !AnyMutable(vs)
    requires BetaOk(u, vs) && Guarded(I, App(m, Bind(u), vs), env)
    requires BetaTele(u, vs).end.AbsEnd? && CleanBody(BetaTele(u, vs).end.body.stmts, fuel - 1)
    ensures var end := BetaTele(u, vs).end;
            Refines(I, App(m, Bind(Tele([], AbsEnd(end.isMutable, end.ret,
              Body(NormaliseBody(end.body.stmts, fuel - 1))))), []),
                    App(m, Bind(u), vs), env)
    decreases fuel, 0, 0
  {
    var v := BetaTele(u, vs);
    BetaLegal(u, vs);
    LegalEnd(v);
    RedexMeaning(I, m, u, vs, env);
    assert GuardedRun(I, v, [], env) <==> GuardedStmts(I, v.end.body.stmts, env);
    NormaliseMeaningBody(I, v.end.body.stmts, fuel - 1, env);
    ReplaceBody(I, m, v.end, NormaliseBody(v.end.body.stmts, fuel - 1), env);
  }

  lemma AppliedOther(I: Interp, m: bool, g: Expr, vs: seq<Expr>, f: Expr, es: seq<Expr>, env: Env)
    requires !IsAbs(f) && !IsAbs(g) && Refines(I, g, f, env) && RefinesSeq(I, vs, es, env)
    ensures Refines(I, App(m, g, vs), App(m, f, es), env)
  {
  }

  ghost predicate RefinesRun(I: Interp, u: Tele, t: Tele, vs: seq<Value>, env: Env) {
    GuardedRun(I, u, vs, env) && forall tr :: RunTele(I, u, vs, env, tr) == RunTele(I, t, vs, env, tr)
  }

  lemma AppliedAbstraction(I: Interp, m: bool, u: Tele, vs: seq<Expr>, t: Tele, es: seq<Expr>, env: Env)
    requires t.end.AbsEnd? && u.end.AbsEnd? && GuardedSignature(I, u, env) && RefinesSeq(I, vs, es, env)
    requires forall tr: Trace :: RefinesRun(I, u, t, EvalSeq(I, es, env, tr).vs, env)
    ensures Refines(I, App(m, Bind(u), vs), App(m, Bind(t), es), env)
  {
    forall tr ensures Eval(I, App(m, Bind(u), vs), env, tr) == Eval(I, App(m, Bind(t), es), env, tr) {
      assert RefinesRun(I, u, t, EvalSeq(I, es, env, tr).vs, env);
    }
    forall tr: Trace ensures GuardedRun(I, u, EvalSeq(I, vs, env, tr).vs, env) {
      assert RefinesRun(I, u, t, EvalSeq(I, es, env, tr).vs, env);
    }
  }

  // The beta step itself: the arguments are pushed into the body.
  lemma RedexMeaning(I: Interp, m: bool, t: Tele, vs: seq<Expr>, env: Env)
    requires |vs| == |t.args| && BetaOk(t, vs) && LegalSeq(vs) && !AnyMutable(vs)
    requires t.end.AbsEnd? && BetaTele(t, vs).end.AbsEnd?
    requires Guarded(I, App(m, Bind(t), vs), env)
    ensures Refines(I, App(m, Bind(BetaTele(t, vs)), []), App(m, Bind(t), vs), env)
    ensures GuardedRun(I, BetaTele(t, vs), [], env)
  {
    BetaMeaning(I, t, vs, env);
    assert EvalSeq(I, vs, env, []).vs == PureSeq(I, vs, env);
    var p := App(m, Bind(BetaTele(t, vs)), []);
    forall tr ensures Eval(I, p, env, tr) == Eval(I, App(m, Bind(t), vs), env, tr) {
      ImmutableIsPureSeq(I, vs, env, tr);
    }
    assert Guarded(I, Bind(t), env) && GuardedSignature(I, BetaTele(t, vs), env);
    forall tr: Trace ensures EvalSeq(I, [], env, tr).vs == [] {}
  }

  // A parameterless abstraction with its body replaced by one that runs alike.
  lemma ReplaceBody(I: Interp, m: bool, end: End, body: seq<Stmt>, env: Env)
    requires end.AbsEnd? && RefinesStmts(I, body, end.body.stmts, env)
    requires Guarded(I, App(m, Bind(Tele([], end)), []), env)
    ensures Refines(I, App(m, Bind(Tele([], AbsEnd(end.isMutable, end.ret, Body(body)))), []),
            App(m, Bind(Tele([], end)), []), env)
  {
    var t, u := Tele([], end), Tele([], AbsEnd(end.isMutable, end.ret, Body(body)));
    assert GuardedSignature(I, t, env) && GuardedSignature(I, u, env);
    forall tr ensures RunTele(I, u, [], env, tr) == RunTele(I, t, [], env, tr) {}
    assert GuardedRun(I, u, [], env);
  }

  lemma {:induction false} NormaliseMeaningSignature(I: Interp, t: Tele, fuel: nat, env: Env)
    requires LegalTele(t) && CleanTele(t, fuel) && GuardedSignature(I, t, env)
    ensures GuardedSignature(I, NormaliseTele(t, fuel), env) && ShapeOf(NormaliseTele(t, fuel)) == ShapeOf(t)
    ensures forall vs :: TypesOf(I, NormaliseTele(t, fuel), vs, env) == TypesOf(I, t, vs, env)
    decreases fuel, SizeTele(t), 4
  {
    if t.args == [] {
      match t.end
      case SigmaEnd =>
      case PiEnd(_, r) => NormaliseMeaning(I, r, fuel, env);
      case AbsEnd(_, r, _) => NormaliseMeaning(I, r, fuel, env);
    } else {
      var a, rest := t.args[0], Rest(t);
      NormaliseMeaning(I, a.ty, fuel, env);
      forall v: Value
        ensures GuardedSignature(I, NormaliseTele(rest, fuel), Extend(a.name, v, env))
                && ShapeOf(NormaliseTele(rest, fuel)) == ShapeOf(rest)
        ensures forall vs ::
                TypesOf(I, NormaliseTele(rest, fuel), vs, Extend(a.name, v, env))
                == TypesOf(I, rest, vs, Extend(a.name, v, env))
      {
        NormaliseMeaningSignature(I, rest, fuel, Extend(a.name, v, env));
      }
      NormaliseMeaningSignature(I, rest, fuel, Extend(a.name, VUnit, env));
    }
  }

  lemma {:induction false} NormaliseMeaningRun(I: Interp, t: Tele, vs: seq<Value>, fuel: nat, env: Env)
    requires LegalTele(t) && CleanTele(t, fuel) && GuardedRun(I, t, vs, env)
    ensures RefinesRun(I, NormaliseTele(t, fuel), t, vs, env)
    decreases fuel, SizeTele(t), 4
  {
    if t.args == [] {
      if t.end.AbsEnd? { NormaliseMeaningBody(I, t.end.body.stmts, fuel, env); }
    } else {
      NormaliseMeaningRun(I, Rest(t), Others(vs), fuel, Extend(t.args[0].name, First(vs), env));
    }
  }

  /** Normalising a body changes neither what it returns nor the calls it makes, whatever was called before, in every
      environment in which it is guarded; and the result is guarded there. */
  lemma {:induction false} NormaliseMeaningBody(I: Interp, ss: seq<Stmt>, fuel: nat, env: Env)
    requires LegalStmts(ss) && CleanBody(ss, fuel) && GuardedStmts(I, ss, env)
    ensures RefinesStmts(I, NormaliseBody(ss, fuel), ss, env)
    decreases fuel, SizeStmts(ss), 4
  {
    DropLegal(ss);
    DropKeepsGuarded(I, ss, env);
    NormaliseMeaningStmts(I, Drop(ss), fuel, env);
    NormaliseLegalStmts(Drop(ss), fuel);
    StmtsSettled(Drop(ss), fuel);
    SecondPassMeaning(I, NormaliseStmts(Drop(ss), fuel), env);
    forall tr ensures Exec(I, NormaliseBody(ss, fuel), env, tr) == Exec(I, ss, env, tr) {
      DropKeepsExec(I, ss, env, tr);
    }
  }

  lemma {:induction false} NormaliseMeaningStmts(I: Interp, ss: seq<Stmt>, fuel: nat, env: Env)
    requires LegalStmts(ss) && CleanStmts(ss, fuel) && GuardedStmts(I, ss, env)
    ensures RefinesStmts(I, NormaliseStmts(ss, fuel), ss, env)
    decreases fuel, SizeStmts(ss), 3
  {
    if ss != [] {
      var s, r := ss[0], NormaliseStmts(ss, fuel);
      assert r[0] == NormaliseStmt(s, fuel) && r[1..] == NormaliseStmts(ss[1..], fuel);
      NormaliseMeaningStmt(I, s, fuel, env);
      if Excused(I, s, env) {
        forall tr ensures ExecStmt(I, s, env, tr).out.Returned? { GuardedNeverAbsurdStmt(I, s, env, tr); }
      } else {
        NormaliseMeaningStmts(I, ss[1..], fuel, env);
      }
    }
  }

  lemma {:induction false} NormaliseMeaningStmt(I: Interp, s: Stmt, fuel: nat, env: Env)
    requires LegalStmt(s) && CleanStmt(s, fuel) && GuardedStmt(I, s, env)
    ensures GuardedStmt(I, NormaliseStmt(s, fuel), env)
    ensures forall tr :: ExecStmt(I, NormaliseStmt(s, fuel), env, tr) == ExecStmt(I, s, env, tr)
    ensures Excused(I, s, env) ==> Excused(I, NormaliseStmt(s, fuel), env)
    decreases fuel, SizeStmt(s), 2
  {
    match s
    case Call(m, f, es) => NormaliseMeaningApp(I, m, f, es, fuel, env);
    case IfElse(c, t, e) =>
      NormaliseMeaning(I, c, fuel, env);
      NormaliseLegal(c, fuel);
      if IsMutable(c) || Holds(I, c, env) { NormaliseMeaningBody(I, t.stmts, fuel, env); }
      if e.Some? && (IsMutable(c) || !Holds(I, c, env)) { NormaliseMeaningBody(I, e.value.stmts, fuel, env); }
      if Returns(t.stmts) { BodyReturns(t.stmts, fuel); }
      if !IsMutable(c) {
        forall tr ensures Eval(I, c, env, tr) == Res(Pure(I, c, env), tr) { ImmutableIsPure(I, c, env, tr); }
      }
    case Return(e) => if e.Some? { NormaliseMeaning(I, e.value, fuel, env); }
    case Impossible(_) =>
  }

  /** The theorem over a set of hypotheses: a body guarded wherever they hold means the same after normalisation
      wherever they hold, is guarded there, and is still legal. */
  lemma NormaliserTheorem(I: Interp, H: Env -> bool, ss: seq<Stmt>, fuel: nat)
    requires LegalStmts(ss) && CleanBody(ss, fuel)
    requires forall env | H(env) :: GuardedStmts(I, ss, env)
    ensures LegalStmts(NormaliseBody(ss, fuel)) && (Quiet(ss) ==> Quiet(NormaliseBody(ss, fuel)))
    ensures forall env | H(env) :: GuardedStmts(I, NormaliseBody(ss, fuel), env)
    ensures forall env, tr | H(env) :: Exec(I, NormaliseBody(ss, fuel), env, tr) == Exec(I, ss, env, tr)
    ensures Returns(ss) ==> Returns(NormaliseBody(ss, fuel))
  {
    NormaliseLegalBody(ss, fuel);
    if Returns(ss) { BodyReturns(ss, fuel); }
    forall env | H(env) ensures RefinesStmts(I, NormaliseBody(ss, fuel), ss, env) {
      NormaliseMeaningBody(I, ss, fuel, env);
    }
  }
}
