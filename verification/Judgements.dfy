/** When the syntactic judgements about code have to say yes: returning from all branches, being impossible, being
    mutable. The definitions here are about choices of branches and about the parts that are evaluated in any case. */
module Judgements {
  import opened Ast
  import opened Semantics
  import opened Guarding

  // ---- returning from all branches ----

  // Statements that come to their end when the branches of these, and no other, `if`s are entered.
  ghost predicate Falls(ss: seq<Stmt>, pick: iset<Stmt>)
    decreases SizeStmts(ss), 1
  {
    ss != [] ==> FallsStmt(ss[0], pick) && Falls(ss[1..], pick)
  }

  ghost predicate FallsStmt(s: Stmt, pick: iset<Stmt>)
    decreases SizeStmt(s), 0
  {
    match s
    case Call(_, _, _) => true
    case IfElse(_, t, e) =>
      if s in pick then Falls(t.stmts, pick) else e.Some? ==> Falls(e.value.stmts, pick)
    case Return(_) => false
    case Impossible(_) => false
  }

  lemma {:induction false} TerminatorLeaves(s: Stmt, pick: iset<Stmt>)
    requires IsTerminator(s)
    ensures !FallsStmt(s, pick)
    decreases SizeStmt(s), 0
  {
    if s.IfElse? {
      AllBranchesLeave(s.thenB.stmts, pick);
      AllBranchesLeave(s.elseB.value.stmts, pick);
    }
  }

  lemma {:induction false} AllBranchesLeave(ss: seq<Stmt>, pick: iset<Stmt>)
    requires ReturnsFromAllBranches(ss)
    ensures !Falls(ss, pick)
    decreases SizeStmts(ss), 1
  {
    if IsTerminator(ss[0]) { TerminatorLeaves(ss[0], pick); } else { AllBranchesLeave(ss[1..], pick); }
  }

  // Every branch is entered that can be left at its end.
  ghost function Around(): iset<Stmt> {
    iset s: Stmt | s.IfElse? && !ReturnsFromAllBranches(s.thenB.stmts)
  }

  lemma {:induction false} OthersFall(ss: seq<Stmt>)
    requires !ReturnsFromAllBranches(ss)
    ensures Falls(ss, Around())
    decreases SizeStmts(ss), 1
  {
    if ss != [] { OtherFalls(ss[0]); OthersFall(ss[1..]); }
  }

  lemma {:induction false} OtherFalls(s: Stmt)
    requires !IsTerminator(s)
    ensures FallsStmt(s, Around())
    decreases SizeStmt(s), 0
  {
    if s.IfElse? {
      if s in Around() { OthersFall(s.thenB.stmts); }
      else if s.elseB.Some? { OthersFall(s.elseB.value.stmts); }
    }
  }

  ghost predicate SomeWayFalls(ss: seq<Stmt>) {
    exists pick: iset<Stmt> :: Falls(ss, pick)
  }

  /** A body returns from all branches if and only if no choice of branches comes to its end. */
  lemma ReturnsIff(ss: seq<Stmt>)
    ensures ReturnsFromAllBranches(ss) <==> !SomeWayFalls(ss)
  {
    if ReturnsFromAllBranches(ss) {
      forall pick: iset<Stmt> ensures !Falls(ss, pick) { AllBranchesLeave(ss, pick); }
    } else {
      OthersFall(ss);
      assert SomeWayFalls(ss) by {
        var pick := Around();
        assert Falls(ss, pick);
      }
    }
  }

  // ---- impossible code ----

  // What evaluating an expression evaluates in any case; a body is not among it.
  function Parts(e: Expr): (r: seq<Expr>)
    ensures forall i :: 0 <= i < |r| ==> Size(r[i]) < Size(e)
  {
    match e
    case Atom(_) => []
    case VarE(_) => []
    case Node(op, es) => EachSmaller(es); if op.ScopeOf? then [] else es
    case App(_, f, es) => EachSmaller(es); [f] + es
    case Because(v, _) => [v]
    case Bind(t) => Types(t)
  }

  function Types(t: Tele): (r: seq<Expr>)
    ensures forall i :: 0 <= i < |r| ==> Size(r[i]) < SizeTele(t)
    decreases |t.args|
  {
    if t.args == [] then
      match t.end
      case SigmaEnd => []
      case PiEnd(_, r) => [r]
      case AbsEnd(_, r, _) => [r]
    else [t.args[0].ty] + Types(Rest(t))
  }

  lemma {:induction false} EachSmaller(es: seq<Expr>)
    ensures forall i :: 0 <= i < |es| ==> Size(es[i]) <= SizeSeq(es)
  {
    if es != [] {
      EachSmaller(es[1..]);
      assert forall i :: 0 < i < |es| ==> es[i] == es[1..][i - 1];
    }
  }

  predicate Evaluates(e: Expr, x: Expr)
    decreases Size(e)
  {
    e == x || exists i :: 0 <= i < |Parts(e)| && Evaluates(Parts(e)[i], x)
  }

  // An abstraction is applied on the spot, and its body is impossible.
  predicate RunsImpossible(x: Expr) {
    x.App? && IsAbs(x.func) && ImpossibleRange(x.func.tele.end.body.stmts)
  }

  lemma {:induction false} AnyImpossibleAt(es: seq<Expr>)
    ensures AnyImpossible(es) <==> exists i :: 0 <= i < |es| && IsImpossible(es[i])
  {
    if es != [] {
      AnyImpossibleAt(es[1..]);
      if AnyImpossible(es[1..]) {
        var i :| 0 <= i < |es[1..]| && IsImpossible(es[1..][i]);
        assert IsImpossible(es[i + 1]);
      }
      if i :| 0 <= i < |es| && IsImpossible(es[i]) {
        if i > 0 { assert IsImpossible(es[1..][i - 1]); }
      }
    }
  }

  lemma {:induction false} SignatureImpossibleAt(t: Tele)
    ensures ImpossibleSignature(t) <==> exists i :: 0 <= i < |Types(t)| && IsImpossible(Types(t)[i])
    decreases |t.args|
  {
    if t.args == [] {
      if !t.end.SigmaEnd? { assert Types(t)[0] == t.end.ret; }
    } else {
      var rest := Rest(t);
      SignatureImpossibleAt(rest);
      assert Types(t)[0] == t.args[0].ty && Types(t)[1..] == Types(rest);
      if i :| 0 <= i < |Types(rest)| && IsImpossible(Types(rest)[i]) { assert IsImpossible(Types(t)[i + 1]); }
      if i :| 0 < i < |Types(t)| && IsImpossible(Types(t)[i]) { assert IsImpossible(Types(rest)[i - 1]); }
    }
  }

  lemma ImpossibleStep(e: Expr)
    ensures IsImpossible(e) <==> RunsImpossible(e) || exists i :: 0 <= i < |Parts(e)| && IsImpossible(Parts(e)[i])
  {
    match e
    case Atom(_) =>
    case VarE(_) =>
    case Node(op, es) =>
      AnyImpossibleAt(es);
      assert Parts(e) == if op.ScopeOf? then [] else es;
    case App(_, f, es) => AppImpossibleStep(e);
    case Because(v, _) => assert Parts(e)[0] == v;
    case Bind(t) =>
      SignatureImpossibleAt(t);
      assert Parts(e) == Types(t);
  }

  lemma AppImpossibleStep(e: Expr)
    requires e.App?
    ensures IsImpossible(e) <==> RunsImpossible(e) || exists i :: 0 <= i < |Parts(e)| && IsImpossible(Parts(e)[i])
  {
    var f, es, parts := e.func, e.args, Parts(e);
    AnyImpossibleAt(es);
    assert parts[0] == f && forall i :: 0 <= i < |es| ==> parts[i + 1] == es[i];
    if i :| 0 <= i < |es| && IsImpossible(es[i]) { assert IsImpossible(parts[i + 1]); }
    if i :| 0 <= i < |parts| && IsImpossible(parts[i]) {
      if i > 0 { assert IsImpossible(es[i - 1]); }
    }
  }

  /** An expression is impossible if and only if something it evaluates in any case applies an abstraction with an
      impossible body. */
  lemma {:induction false} ImpossibleIff(e: Expr)
    ensures IsImpossible(e) <==> exists x :: Evaluates(e, x) && RunsImpossible(x)
    decreases Size(e)
  {
    ImpossibleStep(e);
    var parts := Parts(e);
    forall i | 0 <= i < |parts|
      ensures IsImpossible(parts[i]) <==> exists x :: Evaluates(parts[i], x) && RunsImpossible(x)
    {
      ImpossibleIff(parts[i]);
    }
    if IsImpossible(e) {
      if RunsImpossible(e) {
        assert Evaluates(e, e);
      } else {
        var i :| 0 <= i < |parts| && IsImpossible(parts[i]);
        var x :| Evaluates(parts[i], x) && RunsImpossible(x);
        assert Evaluates(e, x);
      }
    }
    if x :| Evaluates(e, x) && RunsImpossible(x) && x != e {
      var i :| 0 <= i < |parts| && Evaluates(parts[i], x);
      assert IsImpossible(parts[i]);
    }
  }

  // What a statement evaluates whatever branch it takes.
  function Evaluated(s: Stmt): seq<Expr> {
    match s
    case Call(m, f, es) => [App(m, f, es)]
    case IfElse(c, _, _) => [c]
    case Return(e) => if e.Some? then [e.value] else []
    case Impossible(_) => []
  }

  /** A statement is impossible if and only if it says so, or something it evaluates in any case is, or it has two
      branches that are. */
  lemma ImpossibleStmtIff(s: Stmt)
    ensures ImpossibleStmt(s) <==>
            || s.Impossible?
            || (exists i, x :: 0 <= i < |Evaluated(s)| && Evaluates(Evaluated(s)[i], x) && RunsImpossible(x))
            || (s.IfElse? && s.elseB.Some? && ImpossibleRange(s.thenB.stmts) && ImpossibleRange(s.elseB.value.stmts))
  {
    if |Evaluated(s)| > 0 {
      var e := Evaluated(s)[0];
      ImpossibleIff(e);
      if IsImpossible(e) {
        var x :| Evaluates(e, x) && RunsImpossible(x);
        assert Evaluates(Evaluated(s)[0], x);
      }
      if i, x :| 0 <= i < |Evaluated(s)| && Evaluates(Evaluated(s)[i], x) && RunsImpossible(x) { assert i == 0; }
    }
  }

  // An `if` without else that can be entered.
  predicate Escapes(s: Stmt) {
    s.IfElse? && s.elseB.None? && !IsImpossible(s.cond) && !ImpossibleRange(s.thenB.stmts)
  }

  /** A body is impossible if and only if some statement is, and before it there is no `if` without else that can be
      entered. */
  lemma {:induction false} ImpossibleRangeIff(ss: seq<Stmt>)
    ensures ImpossibleRange(ss) <==>
            exists i :: 0 <= i < |ss| && ImpossibleStmt(ss[i]) && forall j :: 0 <= j < i ==> !Escapes(ss[j])
  {
    if ss != [] {
      var rest := ss[1..];
      ImpossibleRangeIff(rest);
      assert forall i :: 0 < i < |ss| ==> ss[i] == rest[i - 1];
      if i :| 0 <= i < |rest| && ImpossibleStmt(rest[i]) && forall j :: 0 <= j < i ==> !Escapes(rest[j]) {
        assert ImpossibleStmt(ss[i + 1]);
        if !Escapes(ss[0]) { assert forall j :: 0 <= j < i + 1 ==> !Escapes(ss[j]); }
      }
      if i :| 0 < i < |ss| && ImpossibleStmt(ss[i]) && forall j :: 0 <= j < i ==> !Escapes(ss[j]) {
        assert ImpossibleStmt(rest[i - 1]) && forall j :: 0 <= j < i - 1 ==> !Escapes(rest[j]);
      }
    }
  }

  // The parts are what an environment has to guard.
  lemma PartGuarded(I: Interp, e: Expr, i: nat, env: Env)
    requires i < |Parts(e)| && Guarded(I, e, env)
    ensures exists fnv :: Guarded(I, Parts(e)[i], fnv)
  {
    match e
    case Node(_, es) => GuardedAt(I, es, i, env);
    case App(_, f, es) =>
      if i > 0 { GuardedAt(I, es, i - 1, env); }
      assert Guarded(I, Parts(e)[i], env);
    case Because(v, _) => assert Parts(e)[i] == v && Guarded(I, v, env);
    case Bind(t) => TypeGuarded(I, t, i, env);
  }

  lemma {:induction false} GuardedAt(I: Interp, es: seq<Expr>, i: nat, env: Env)
    requires i < |es| && GuardedSeq(I, es, env)
    ensures Guarded(I, es[i], env)
  {
    if i > 0 { GuardedAt(I, es[1..], i - 1, env); }
  }

  lemma {:induction false} TypeGuarded(I: Interp, t: Tele, i: nat, env: Env)
    requires i < |Types(t)| && GuardedSignature(I, t, env)
    ensures exists fnv :: Guarded(I, Types(t)[i], fnv)
    decreases |t.args|
  {
    if i == 0 {
      assert Guarded(I, Types(t)[0], env);
    } else {
      TypeGuarded(I, Rest(t), i - 1, Extend(t.args[0].name, VUnit, env));
      assert Types(t)[i] == Types(Rest(t))[i - 1];
    }
  }

  // ---- mutable expressions ----

  // Of an application, the arguments: the source does not look at the function.
  function Operands(e: Expr): (r: seq<Expr>)
    ensures forall i :: 0 <= i < |r| ==> Size(r[i]) < Size(e)
  {
    match e
    case Node(op, es) => EachSmaller(es); if op.ScopeOf? then [] else es
    case App(_, _, es) => EachSmaller(es); es
    case Because(v, _) => [v]
    case _ => []
  }

  predicate Consists(e: Expr, x: Expr)
    decreases Size(e)
  {
    e == x || exists i :: 0 <= i < |Operands(e)| && Consists(Operands(e)[i], x)
  }

  lemma {:induction false} AnyMutableAt(es: seq<Expr>)
    ensures AnyMutable(es) <==> exists i :: 0 <= i < |es| && IsMutable(es[i])
  {
    if es != [] {
      AnyMutableAt(es[1..]);
      if AnyMutable(es[1..]) {
        var i :| 0 <= i < |es[1..]| && IsMutable(es[1..][i]);
        assert IsMutable(es[i + 1]);
      }
      if i :| 0 <= i < |es| && IsMutable(es[i]) {
        if i > 0 { assert IsMutable(es[1..][i - 1]); }
      }
    }
  }

  /** An expression is mutable if and only if it is, or has as an operand or argument at some depth, a call to a mutable
      function. */
  lemma {:induction false} MutableIff(e: Expr)
    ensures IsMutable(e) <==> exists x :: Consists(e, x) && x.App? && x.isMutable
    decreases Size(e)
  {
    var parts := Operands(e);
    AnyMutableAt(parts);
    if e.Because? { assert parts[0] == e.value; }
    assert IsMutable(e) <==> (e.App? && e.isMutable) || exists i :: 0 <= i < |parts| && IsMutable(parts[i]);
    forall i | 0 <= i < |parts|
      ensures IsMutable(parts[i]) <==> exists x :: Consists(parts[i], x) && x.App? && x.isMutable
    {
      MutableIff(parts[i]);
    }
    if IsMutable(e) {
      if e.App? && e.isMutable {
        assert Consists(e, e);
      } else {
        var i :| 0 <= i < |parts| && IsMutable(parts[i]);
        var x :| Consists(parts[i], x) && x.App? && x.isMutable;
        assert Consists(e, x);
      }
    }
    if x :| Consists(e, x) && x.App? && x.isMutable && x != e {
      var i :| 0 <= i < |parts| && Consists(parts[i], x);
      assert IsMutable(parts[i]);
    }
  }
}
