/** How `if` and `impossible` are checked: the proof state collects what the branches taken so far tell, and
    `impossible` is accepted where it contains a proof of false.

    The checks of single terms are parameters (`Checks`): beta-delta equality unfolds recursive definitions and the
    typing of terms is not part of this model. */
module PathConditions {
  import opened Ast
  import opened Semantics
  import opened Guarding
  import opened Rewriting
  import opened Normaliser
  import opened NormaliserTheorem

  datatype ReasonType = Rejected | Kind | Typed(ty: Expr)

  datatype Checks = Checks(
    term: (seq<Expr>, Expr) -> bool,                  // the term type-checks in this context
    result: (seq<Expr>, Expr, Option<Expr>) -> bool,  // and so does this return value against this goal
    reason: (seq<Expr>, Expr) -> ReasonType,
    isFalse: Expr -> bool)                            // the type is beta-delta equal to true_t(false)

  const TRUE := Atom(BoolConst(true))
  const FALSE := Atom(BoolConst(false))

  function TrueOf(c: Expr): Expr {
    App(false, Atom(TrueT), [c])
  }

  function Negated(c: Expr): Expr {
    Node(Not, [c])
  }

  // The types of the context and the goal.
  datatype Known = Known(context: seq<Expr>, goal: Expr) {
    // The rule is applied first, so that the hypothesis itself is not rewritten.
    function Learn(c: Expr, constant: Expr, hypothesis: Expr): Known {
      Known(RewriteSeq(c, constant, context) + [TrueOf(hypothesis)], Rewrite(c, constant, goal))
    }

    function UnderTrue(c: Expr): Known {
      Learn(c, TRUE, c)
    }

    function UnderFalse(c: Expr): Known {
      Learn(c, FALSE, Negated(c))
    }
  }

  // The proof state after the statements, if they are accepted.
  function CheckBody(k: Checks, st: Known, ss: seq<Stmt>): Option<Known>
    decreases SizeStmts(ss), 1
  {
    if ss == [] then Some(st)
    else match CheckStmt(k, st, ss[0])
         case None => None
         case Some(next) => CheckBody(k, next, ss[1..])
  }

  function CheckStmt(k: Checks, st: Known, s: Stmt): Option<Known>
    decreases SizeStmt(s), 0
  {
    match s
    case Call(m, f, es) => if k.term(st.context, App(m, f, es)) then Some(st) else None
    case IfElse(c, t, e) =>
      if !k.term(st.context, c) || CheckBody(k, st.UnderTrue(c), t.stmts).None? then None
      else if e.Some? then if CheckBody(k, st.UnderFalse(c), e.value.stmts).Some? then Some(st) else None
      else if ReturnsFromAllBranches(t.stmts) then Some(st.UnderFalse(c))
      else Some(st)
    case Return(e) => if k.result(st.context, st.goal, e) then Some(st) else None
    case Impossible(None) => if ProofOfFalse(k, st.context) then Some(st) else None
    case Impossible(Some(r)) =>
      match k.reason(st.context, r)
      case Rejected => None
      case Kind => if ProofOfFalse(k, st.context) then Some(st) else None
      case Typed(ty) => if ProofOfFalse(k, st.context + [ty]) then Some(st) else None
  }

  predicate ProofOfFalse(k: Checks, context: seq<Expr>) {
    exists i :: 0 <= i < |context| && k.isFalse(context[i])
  }

  // ---- as the source runs it ----

  class ProofState {
    var context: seq<Expr>
    var goal: Expr

    constructor (context: seq<Expr>, goal: Expr)
      ensures this.context == context && this.goal == goal
    {
      this.context, this.goal := context, goal;
    }

    function Value(): Known
      reads this
    {
      Known(context, goal)
    }

    method Rewrite(from: Expr, to: Expr)
      modifies this
      ensures context == RewriteSeq(from, to, old(context)) && goal == Rewriting.Rewrite(from, to, old(goal))
    {
      ghost var before := context;
      for i := 0 to |context|
        invariant |context| == |before| && goal == old(goal)
        invariant forall j :: 0 <= j < |before| ==> context[j] == if j < i then Rewriting.Rewrite(from, to, before[j])
                  else before[j]
      {
        context := context[i := Rewriting.Rewrite(from, to, context[i])];
      }
      RewritePointwise(from, to, before, context);
      goal := Rewriting.Rewrite(from, to, goal);
    }

    method AddUnnamed(ty: Expr)
      modifies this
      ensures context == old(context) + [ty] && goal == old(goal)
    {
      context := context + [ty];
    }

    method Check(k: Checks, ss: seq<Stmt>) returns (ok: bool)
      modifies this
      ensures ok <==> CheckBody(k, old(Value()), ss).Some?
      ensures ok ==> Some(Value()) == CheckBody(k, old(Value()), ss)
      decreases SizeStmts(ss), 1
    {
      var i := 0;
      while i < |ss|
        invariant 0 <= i <= |ss| && SizeStmts(ss[i..]) <= SizeStmts(ss)
        invariant CheckBody(k, old(Value()), ss) == CheckBody(k, Value(), ss[i..])
      {
        assert ss[i..][0] == ss[i] && ss[i..][1..] == ss[i + 1..];
        var accepted := CheckStatement(k, ss[i]);
        if !accepted {
          return false;
        }
        i := i + 1;
      }
      return true;
    }

    method CheckStatement(k: Checks, s: Stmt) returns (ok: bool)
      modifies this
      ensures ok <==> CheckStmt(k, old(Value()), s).Some?
      ensures ok ==> Some(Value()) == CheckStmt(k, old(Value()), s)
      decreases SizeStmt(s), 0
    {
      match s
      case Call(m, f, es) =>
        ok := k.term(context, App(m, f, es));
      case IfElse(c, t, e) =>
        if !k.term(context, c) {
          return false;
        }
        var inner := new ProofState(context, goal);
        inner.Rewrite(c, TRUE);
        inner.AddUnnamed(TrueOf(c));
        ok := inner.Check(k, t.stmts);
        if !ok {
          return;
        }
        if e.Some? {
          inner := new ProofState(context, goal);
          inner.Rewrite(c, FALSE);
          inner.AddUnnamed(TrueOf(Negated(c)));
          ok := inner.Check(k, e.value.stmts);
        } else if ReturnsFromAllBranches(t.stmts) {
          Rewrite(c, FALSE);
          AddUnnamed(TrueOf(Negated(c)));
        }
      case Return(e) =>
        ok := k.result(context, goal, e);
      case Impossible(reason) =>
        var known := context;
        if reason.Some? {
          match k.reason(context, reason.value)
          case Rejected => return false;
          case Kind =>
          case Typed(ty) => known := known + [ty];
        }
        ok := FindProofOfFalse(k, known);
    }
  }

  lemma {:induction false} RewritePointwise(from: Expr, to: Expr, es: seq<Expr>, fs: seq<Expr>)
    requires |es| == |fs| && forall i :: 0 <= i < |es| ==> fs[i] == Rewrite(from, to, es[i])
    ensures fs == RewriteSeq(from, to, es)
  {
    if es != [] { RewritePointwise(from, to, es[1..], fs[1..]); }
  }

  method FindProofOfFalse(k: Checks, context: seq<Expr>) returns (found: bool)
    ensures found == ProofOfFalse(k, context)
  {
    for i := 0 to |context|
      invariant forall j :: 0 <= j < i ==> !k.isFalse(context[j])
    {
      if k.isFalse(context[i]) {
        return true;
      }
    }
    return false;
  }

  // ---- what the proof state means ----

  // Truth of a type: a proof of `true_t(c)` exists just when `c` is true.
  ghost predicate Standard(I: Interp, inhabited: Value -> bool) {
    && ScopeBlind(I)
    && (forall b :: I.prim(Not, [VBool(b)]) == VBool(!b))
    && (forall b :: inhabited(I.call(I.atom(TrueT), [VBool(b)])) == b)
  }

  ghost predicate Satisfied(I: Interp, inhabited: Value -> bool, context: seq<Expr>, env: Env) {
    forall i :: 0 <= i < |context| ==> inhabited(Pure(I, context[i], env))
  }

  // Beta-delta equality preserves values, and a reason proves what its type says. A term that applies an abstraction
  // on the spot is only accepted if the body of the abstraction is, so it is guarded; of other terms nothing is
  // assumed.
  ghost predicate SoundChecks(I: Interp, inhabited: Value -> bool, k: Checks, env: Env) {
    && (forall ty | k.isFalse(ty) :: Pure(I, ty, env) == Pure(I, TrueOf(FALSE), env))
    && (forall context, r | k.reason(context, r).Typed? && Satisfied(I, inhabited, context, env) ::
          inhabited(Pure(I, k.reason(context, r).ty, env)))
    && (forall context, e | k.term(context, e) && !Direct(e)
       && Satisfied(I, inhabited, context, env) :: Guarded(I, e, env))
    && (forall context, goal, e | k.result(context, goal, Some(e)) && !Direct(e)
       && Satisfied(I, inhabited, context, env) ::
          Guarded(I, e, env))
  }

  predicate ImmutableTypes(context: seq<Expr>) {
    LegalSeq(context) && !AnyMutable(context)
  }

  // Every condition is immutable, and a boolean here.
  ghost predicate Plain(I: Interp, ss: seq<Stmt>, env: Env)
    decreases SizeStmts(ss), 1
  {
    ss != [] ==> PlainStmt(I, ss[0], env) && Plain(I, ss[1..], env)
  }

  ghost predicate PlainStmt(I: Interp, s: Stmt, env: Env)
    decreases SizeStmt(s), 0
  {
    s.IfElse? ==>
      && !IsMutable(s.cond) && Pure(I, s.cond, env).VBool?
      && Plain(I, s.thenB.stmts, env)
      && (s.elseB.Some? ==> Plain(I, s.elseB.value.stmts, env))
  }

  // No abstraction is applied on the spot.
  predicate Direct(e: Expr)
    decreases Size(e), 0
  {
    match e
    case Atom(_) => true
    case VarE(_) => true
    case Node(_, es) => DirectSeq(es)
    case App(_, f, es) => !IsAbs(f) && Direct(f) && DirectSeq(es)
    case Because(v, _) => Direct(v)
    case Bind(t) => DirectSignature(t)
  }

  predicate DirectSeq(es: seq<Expr>)
    decreases SizeSeq(es), 1
  {
    es != [] ==> Direct(es[0]) && DirectSeq(es[1..])
  }

  predicate DirectSignature(t: Tele)
    decreases SizeTele(t), 1
  {
    if t.args == [] then
      match t.end
      case SigmaEnd => true
      case PiEnd(_, r) => Direct(r)
      case AbsEnd(_, r, _) => Direct(r)
    else
      var a, rest := t.args[0], Rest(t);
      Direct(a.ty) && DirectSignature(rest)
  }

  lemma {:induction false} DirectGuarded(I: Interp, e: Expr, env: Env)
    requires Direct(e)
    ensures Guarded(I, e, env)
    decreases Size(e), 0
  {
    match e
    case Atom(_) =>
    case VarE(_) =>
    case Node(_, es) => DirectGuardedSeq(I, es, env);
    case App(_, f, es) => DirectGuarded(I, f, env); DirectGuardedSeq(I, es, env);
    case Because(v, _) => DirectGuarded(I, v, env);
    case Bind(t) => DirectGuardedSignature(I, t, env);
  }

  lemma {:induction false} DirectGuardedSeq(I: Interp, es: seq<Expr>, env: Env)
    requires DirectSeq(es)
    ensures GuardedSeq(I, es, env)
    decreases SizeSeq(es), 1
  {
    if es != [] { DirectGuarded(I, es[0], env); DirectGuardedSeq(I, es[1..], env); }
  }

  lemma {:induction false} DirectGuardedSignature(I: Interp, t: Tele, env: Env)
    requires DirectSignature(t)
    ensures GuardedSignature(I, t, env)
    decreases SizeTele(t), 2
  {
    if t.args == [] {
      match t.end
      case SigmaEnd =>
      case PiEnd(_, r) => DirectGuarded(I, r, env);
      case AbsEnd(_, r, _) => DirectGuarded(I, r, env);
    } else {
      var a, rest := t.args[0], Rest(t);
      DirectGuarded(I, a.ty, env);
      forall v: Value ensures GuardedSignature(I, rest, Extend(a.name, v, env)) {
        DirectGuardedSignature(I, rest, Extend(a.name, v, env));
      }
    }
  }

  lemma TermGuarded(I: Interp, inhabited: Value -> bool, k: Checks, context: seq<Expr>, e: Expr, env: Env)
    requires SoundChecks(I, inhabited, k, env) && Satisfied(I, inhabited, context, env)
    requires k.term(context, e) || exists goal :: k.result(context, goal, Some(e))
    ensures Guarded(I, e, env)
  {
    if Direct(e) { DirectGuarded(I, e, env); }
  }

  // ---- soundness ----

  lemma {:induction false} RewriteSatisfied(I: Interp, inhabited: Value -> bool, from: Expr, to: Expr,
        context: seq<Expr>, env: Env)
    requires ScopeBlind(I) && Rule(I, from, to, env) && ImmutableTypes(context) && Satisfied(I, inhabited, context, env)
    ensures Satisfied(I, inhabited, RewriteSeq(from, to, context), env) && ImmutableTypes(RewriteSeq(from, to, context))
  {
    RewriteLegalSeq(from, to, context);
    if context != [] {
      RewriteEval(I, from, to, context[0], env);
      assert Satisfied(I, inhabited, context[1..], env);
      RewriteSatisfied(I, inhabited, from, to, context[1..], env);
      var r := RewriteSeq(from, to, context);
      forall i | 0 <= i < |r| ensures inhabited(Pure(I, r[i], env)) {
        if i > 0 { assert r[i] == RewriteSeq(from, to, context[1..])[i - 1]; }
      }
    }
  }

  /** What is learnt in a branch is true wherever the branch is taken: the new context is satisfied, and the goal still
      means the same. */
  lemma LearnSound(I: Interp, inhabited: Value -> bool, st: Known, c: Expr, b: bool, env: Env)
    requires Standard(I, inhabited) && ImmutableTypes(st.context) && Satisfied(I, inhabited, st.context, env)
    requires Legal(c) && !IsMutable(c) && !IsAbs(c) && Pure(I, c, env) == VBool(b)
    ensures var next := if b then st.UnderTrue(c) else st.UnderFalse(c);
            && Satisfied(I, inhabited, next.context, env) && ImmutableTypes(next.context)
            && (Legal(st.goal) && !IsMutable(st.goal) ==> Pure(I, next.goal, env) == Pure(I, st.goal, env))
  {
    var constant, hypothesis := if b then TRUE else FALSE, if b then c else Negated(c);
    var next := st.Learn(c, constant, hypothesis);
    var rewritten := RewriteSeq(c, constant, st.context);
    RewriteSatisfied(I, inhabited, c, constant, st.context, env);
    if Legal(st.goal) && !IsMutable(st.goal) { RewriteEval(I, c, constant, st.goal, env); }
    HypothesisHolds(I, inhabited, c, env);
    ImmutableAppend(rewritten, TrueOf(hypothesis));
    forall i | 0 <= i < |next.context| ensures inhabited(Pure(I, next.context[i], env)) {
      if i < |rewritten| { assert next.context[i] == rewritten[i]; }
    }
  }

  lemma HypothesisHolds(I: Interp, inhabited: Value -> bool, c: Expr, env: Env)
    requires Standard(I, inhabited) && Legal(c) && !IsMutable(c) && !IsAbs(c) && Pure(I, c, env).VBool?
    ensures inhabited(Pure(I, TrueOf(c), env)) == Holds(I, c, env)
    ensures inhabited(Pure(I, TrueOf(Negated(c)), env)) == !Holds(I, c, env)
    ensures Legal(TrueOf(c)) && !IsMutable(TrueOf(c)) && Legal(TrueOf(Negated(c))) && !IsMutable(TrueOf(Negated(c)))
  {
    Singleton(I, c, env);
    Singleton(I, Negated(c), env);
    TruthOf(I, c, env);
    TruthOf(I, Negated(c), env);
    var b := Pure(I, c, env).b;
    assert Pure(I, Negated(c), env) == I.prim(Not, [VBool(b)]) == VBool(!b);
  }

  lemma TruthOf(I: Interp, c: Expr, env: Env)
    ensures Pure(I, TrueOf(c), env) == I.call(I.atom(TrueT), [Pure(I, c, env)])
  {
    Singleton(I, c, env);
    assert Eval(I, Atom(TrueT), env, []) == Res(I.atom(TrueT), []);
  }

  lemma Singleton(I: Interp, c: Expr, env: Env)
    ensures EvalSeq(I, [c], env, []).vs == [Pure(I, c, env)]
    ensures LegalSeq([c]) == (Legal(c) && !IsAbs(c)) && AnyMutable([c]) == IsMutable(c)
  {
    assert [c][0] == c && [c][1..] == [];
    var h := Eval(I, c, env, []);
    assert EvalSeq(I, [], env, h.tr).vs == [];
  }

  lemma {:induction false} ImmutableAppend(context: seq<Expr>, ty: Expr)
    requires ImmutableTypes(context) && Legal(ty) && !IsMutable(ty) && !IsAbs(ty)
    ensures ImmutableTypes(context + [ty])
  {
    if context == [] {
      assert context + [ty] == [ty] && [ty][1..] == [];
    } else {
      assert (context + [ty])[0] == context[0] && (context + [ty])[1..] == context[1..] + [ty];
      ImmutableAppend(context[1..], ty);
    }
  }

  lemma NoProofOfFalse(I: Interp, inhabited: Value -> bool, k: Checks, context: seq<Expr>, env: Env)
    requires Standard(I, inhabited) && SoundChecks(I, inhabited, k, env) && Satisfied(I, inhabited, context, env)
    ensures !ProofOfFalse(k, context)
  {
    HypothesisHolds(I, inhabited, FALSE, env);
    forall i | 0 <= i < |context| ensures !k.isFalse(context[i]) { assert inhabited(Pure(I, context[i], env)); }
  }

  /** Path-condition soundness: where the entry hypotheses hold, every accepted `impossible` stands below a branch that
      is not taken. So no valuation satisfies both the hypotheses and the choices leading to it. */
  lemma {:induction false} PathSound(I: Interp, inhabited: Value -> bool, k: Checks, st: Known, ss: seq<Stmt>, env: Env)
    requires Standard(I, inhabited) && SoundChecks(I, inhabited, k, env)
    requires LegalStmts(ss) && Plain(I, ss, env) && ImmutableTypes(st.context)
    requires Satisfied(I, inhabited, st.context, env) && CheckBody(k, st, ss).Some?
    ensures GuardedStmts(I, ss, env)
    decreases SizeStmts(ss), 1
  {
    if ss != [] {
      PathSoundStmt(I, inhabited, k, st, ss[0], env);
      if !Excused(I, ss[0], env) { PathSound(I, inhabited, k, CheckStmt(k, st, ss[0]).value, ss[1..], env); }
    }
  }

  lemma {:induction false} PathSoundStmt(I: Interp, inhabited: Value -> bool, k: Checks, st: Known, s: Stmt, env: Env)
    requires Standard(I, inhabited) && SoundChecks(I, inhabited, k, env)
    requires LegalStmt(s) && PlainStmt(I, s, env) && ImmutableTypes(st.context)
    requires Satisfied(I, inhabited, st.context, env) && CheckStmt(k, st, s).Some?
    ensures GuardedStmt(I, s, env)
    ensures var next := CheckStmt(k, st, s).value;
            !Excused(I, s, env) ==> Satisfied(I, inhabited, next.context, env) && ImmutableTypes(next.context)
    decreases SizeStmt(s), 0
  {
    match s
    case Call(m, f, es) => TermGuarded(I, inhabited, k, st.context, App(m, f, es), env);
    case IfElse(c, t, e) =>
      TermGuarded(I, inhabited, k, st.context, c, env);
      if Holds(I, c, env) {
        LearnSound(I, inhabited, st, c, true, env);
        PathSound(I, inhabited, k, st.UnderTrue(c), t.stmts, env);
        if ReturnsFromAllBranches(t.stmts) { AllBranchesReturn(t.stmts); }
      } else {
        LearnSound(I, inhabited, st, c, false, env);
        if e.Some? { PathSound(I, inhabited, k, st.UnderFalse(c), e.value.stmts, env); }
      }
    case Return(e) => if e.Some? { TermGuarded(I, inhabited, k, st.context, e.value, env); }
    case Impossible(reason) =>
      NoProofOfFalse(I, inhabited, k, st.context, env);
      if reason.Some? && k.reason(st.context, reason.value).Typed? {
        NoProofOfFalse(I, inhabited, k, st.context + [k.reason(st.context, reason.value).ty], env);
      }
  }

  /** An accepted body never runs into `impossible`, returns if all its branches do, and can be normalised. */
  lemma AcceptedRuns(I: Interp, inhabited: Value -> bool, k: Checks, st: Known, ss: seq<Stmt>, fuel: nat, env: Env,
        tr: Trace)
    requires Standard(I, inhabited) && SoundChecks(I, inhabited, k, env)
    requires LegalStmts(ss) && Plain(I, ss, env) && ImmutableTypes(st.context)
    requires Satisfied(I, inhabited, st.context, env) && CheckBody(k, st, ss).Some?
    ensures !Exec(I, ss, env, tr).out.Absurd?
    ensures ReturnsFromAllBranches(ss) ==> Exec(I, ss, env, tr).out.Returned?
    ensures CleanBody(ss, fuel) ==> Exec(I, NormaliseBody(ss, fuel), env, tr) == Exec(I, ss, env, tr)
  {
    PathSound(I, inhabited, k, st, ss, env);
    GuardedNeverAbsurd(I, ss, env, tr);
    if ReturnsFromAllBranches(ss) { AllBranchesReturn(ss); }
    if CleanBody(ss, fuel) { NormaliseMeaningBody(I, ss, fuel, env); }
  }
}
