/** Dropping unreachable statements: after the first terminator, and branches guarded by the opposite constant. */
module UnreachableCode {
  import opened Ast
  import opened Semantics
  import opened Guarding

  // Everything up to and including the first terminator.
  function UpToTerminator(ss: seq<Stmt>): (r: seq<Stmt>)
    ensures SizeStmts(r) <= SizeStmts(ss) && |r| <= |ss|
  {
    if ss == [] then []
    else if IsTerminator(ss[0]) then [ss[0]]
    else [ss[0]] + UpToTerminator(ss[1..])
  }

  function Drop(ss: seq<Stmt>): (r: seq<Stmt>)
    ensures SizeStmts(r) <= SizeStmts(ss)
    decreases SizeStmts(ss), 2
  {
    DropEach(UpToTerminator(ss))
  }

  function DropEach(ss: seq<Stmt>): (r: seq<Stmt>)
    ensures SizeStmts(r) <= SizeStmts(ss) && |r| == |ss|
    decreases SizeStmts(ss), 1
  {
    if ss == [] then [] else [DropInStmt(ss[0])] + DropEach(ss[1..])
  }

  function DropInStmt(s: Stmt): (r: Stmt)
    ensures SizeStmt(r) <= SizeStmt(s)
    decreases SizeStmt(s), 0
  {
    match s
    case IfElse(c, t, e) =>
      if c == Atom(BoolConst(true)) then IfElse(c, Body(Drop(t.stmts)), None)
      else
        var e' := match e case None => None case Some(b) => Some(Body(Drop(b.stmts)));
        if c == Atom(BoolConst(false)) then IfElse(c, Body([]), e') else IfElse(c, Body(Drop(t.stmts)), e')
    case _ => s
  }

  // A branch guarded by the constant of the opposite value.
  function CutConstant(s: Stmt): (r: Stmt)
    ensures SizeStmt(r) <= SizeStmt(s)
  {
    if s.IfElse? && s.cond == Atom(BoolConst(true)) then s.(elseB := None)
    else if s.IfElse? && s.cond == Atom(BoolConst(false)) then s.(thenB := Body([]))
    else s
  }

  // The three loops of the source: truncate, cut the branches behind constants, descend into what is left.
  method DropUnreachable(ss: seq<Stmt>) returns (changed: bool, r: seq<Stmt>)
    ensures r == Drop(ss)
    ensures changed <==> r != ss
    decreases SizeStmts(ss), 1
  {
    var truncated := Truncate(ss);
    var cutAny, cut := CutConstants(truncated);
    forall i | 0 <= i < |cut| ensures SizeStmt(cut[i]) <= SizeStmts(ss) {
      SizeOfElement(truncated, i);
    }
    var droppedAny := false;
    droppedAny, r := DropInBranches(cut, SizeStmts(ss));
    changed := truncated != ss || cutAny || droppedAny;
    forall i | 0 <= i < |cut| ensures r[i] == DropInStmt(truncated[i]) {
      CutThenDrop(truncated[i]);
    }
    DropEachPointwise(truncated, r);
    if r == ss {
      assert |truncated| == |ss|;
      forall i | 0 <= i < |cut| ensures cut[i] == truncated[i] { CutThenDrop(truncated[i]); }
      assert cut == truncated;
    }
  }

  method Truncate(ss: seq<Stmt>) returns (r: seq<Stmt>)
    ensures r == UpToTerminator(ss) && r <= ss
  {
    var k := 0;
    while k < |ss| && !IsTerminator(ss[k])
      invariant 0 <= k <= |ss|
      invariant forall i :: 0 <= i < k ==> !IsTerminator(ss[i])
    {
      k := k + 1;
    }
    FirstTerminator(ss, k);
    r := if k < |ss| then ss[..k + 1] else ss;
  }

  lemma {:induction false} FirstTerminator(ss: seq<Stmt>, k: nat)
    requires k <= |ss| && forall i :: 0 <= i < k ==> !IsTerminator(ss[i])
    requires k < |ss| ==> IsTerminator(ss[k])
    ensures UpToTerminator(ss) == if k < |ss| then ss[..k + 1] else ss
  {
    if k > 0 {
      FirstTerminator(ss[1..], k - 1);
      if k < |ss| { assert [ss[0]] + ss[1..][..k] == ss[..k + 1]; } else { assert [ss[0]] + ss[1..] == ss; }
    }
  }

  method CutConstants(ss: seq<Stmt>) returns (changed: bool, r: seq<Stmt>)
    ensures |r| == |ss| && forall i :: 0 <= i < |ss| ==> r[i] == CutConstant(ss[i])
    ensures changed <==> r != ss
  {
    changed, r := false, ss;
    for i := 0 to |ss|
      invariant |r| == |ss|
      invariant forall j :: 0 <= j < |ss| ==> r[j] == if j < i then CutConstant(ss[j]) else ss[j]
      invariant changed <==> exists j :: 0 <= j < i && CutConstant(ss[j]) != ss[j]
    {
      var s := ss[i];
      if s.IfElse? && s.cond.Atom? && s.cond.atom.BoolConst? {
        if s.cond.atom.b {
          if s.elseB.Some? {
            r, changed := r[i := s.(elseB := None)], true;
          }
        } else if s.thenB.stmts != [] {
          r, changed := r[i := s.(thenB := Body([]))], true;
        }
      }
    }
    assert changed ==> exists j :: 0 <= j < |ss| && r[j] != ss[j];
  }

  method DropInBranches(ss: seq<Stmt>, ghost bound: nat) returns (changed: bool, r: seq<Stmt>)
    requires forall i :: 0 <= i < |ss| ==> SizeStmt(ss[i]) <= bound
    ensures |r| == |ss| && forall i :: 0 <= i < |ss| ==> r[i] == DropBranches(ss[i])
    ensures changed <==> r != ss
    decreases bound, 0
  {
    changed, r := false, ss;
    for i := 0 to |ss|
      invariant |r| == |ss|
      invariant forall j :: 0 <= j < |ss| ==> r[j] == if j < i then DropBranches(ss[j]) else ss[j]
      invariant changed <==> exists j :: 0 <= j < i && DropBranches(ss[j]) != ss[j]
    {
      var s := ss[i];
      if s.IfElse? {
        assert SizeStmt(s) <= bound;
        var c, t := DropUnreachable(s.thenB.stmts);
        var e := s.elseB;
        if e.Some? {
          var d, b := DropUnreachable(e.value.stmts);
          c, e := c || d, Some(Body(b));
        }
        r, changed := r[i := IfElse(s.cond, Body(t), e)], changed || c;
      }
    }
    assert changed ==> exists j :: 0 <= j < |ss| && r[j] != ss[j];
  }

  function DropBranches(s: Stmt): Stmt {
    if s.IfElse? then
      IfElse(s.cond, Body(Drop(s.thenB.stmts)),
             match s.elseB case None => None case Some(b) => Some(Body(Drop(b.stmts))))
    else s
  }

  lemma CutThenDrop(s: Stmt)
    ensures DropBranches(CutConstant(s)) == DropInStmt(s)
    ensures DropInStmt(s) == s ==> CutConstant(s) == s
  {
  }

  lemma {:induction false} SizeOfElement(ss: seq<Stmt>, i: nat)
    requires i < |ss|
    ensures SizeStmt(ss[i]) <= SizeStmts(ss)
  {
    if i > 0 { SizeOfElement(ss[1..], i - 1); }
  }

  lemma {:induction false} DropEachPointwise(ss: seq<Stmt>, r: seq<Stmt>)
    requires |ss| == |r| && forall i :: 0 <= i < |ss| ==> r[i] == DropInStmt(ss[i])
    ensures r == DropEach(ss)
  {
    if ss != [] { DropEachPointwise(ss[1..], r[1..]); }
  }

  // ---- dropping twice is dropping once ----

  lemma {:induction false} DropKeepsTerminators(s: Stmt)
    ensures IsTerminator(DropInStmt(s)) ==> IsTerminator(s)
    decreases SizeStmt(s), 0
  {
    if s.IfElse? && s.elseB.Some? && IsTerminator(DropInStmt(s)) {
      DropKeepsReturns(s.thenB.stmts);
      DropKeepsReturns(s.elseB.value.stmts);
      var d := DropInStmt(s);
      assert d.thenB.stmts == [] || d.thenB.stmts == Drop(s.thenB.stmts);
      assert d.elseB.value.stmts == Drop(s.elseB.value.stmts);
      assert ReturnsFromAllBranches(d.thenB.stmts) && ReturnsFromAllBranches(d.elseB.value.stmts);
    }
  }

  lemma {:induction false} DropKeepsReturns(ss: seq<Stmt>)
    ensures ReturnsFromAllBranches(Drop(ss)) ==> ReturnsFromAllBranches(ss)
    decreases SizeStmts(ss), 1
  {
    if ss != [] && !IsTerminator(ss[0]) {
      DropUnfolds(ss);
      DropKeepsTerminators(ss[0]);
      DropKeepsReturns(ss[1..]);
      assert Drop(ss)[1..] == Drop(ss[1..]);
    }
  }

  // ---- what is left ----

  // Nothing follows a terminator, and no branch is excluded by a constant, at any depth.
  predicate Lean(ss: seq<Stmt>)
    decreases SizeStmts(ss), 1
  {
    ss != [] ==> LeanStmt(ss[0]) && (IsTerminator(ss[0]) ==> |ss| == 1) && Lean(ss[1..])
  }

  predicate LeanStmt(s: Stmt)
    decreases SizeStmt(s), 0
  {
    s.IfElse? ==>
      && (s.cond == Atom(BoolConst(true)) ==> s.elseB.None?)
      && (s.cond == Atom(BoolConst(false)) ==> s.thenB.stmts == [])
      && Lean(s.thenB.stmts)
      && (s.elseB.Some? ==> Lean(s.elseB.value.stmts))
  }

  /** Exactly what is unreachable is dropped: nothing just when nothing is. */
  lemma {:induction false} DropsNothingIff(ss: seq<Stmt>)
    ensures Drop(ss) == ss <==> Lean(ss)
    decreases SizeStmts(ss), 1
  {
    if ss != [] {
      DropUnfolds(ss);
      DropsNothingInIff(ss[0]);
      DropsNothingIff(ss[1..]);
      assert ss == [ss[0]] + ss[1..];
    }
  }

  lemma {:induction false} DropsNothingInIff(s: Stmt)
    ensures DropInStmt(s) == s <==> LeanStmt(s)
    decreases SizeStmt(s), 0
  {
    if s.IfElse? {
      DropsNothingIff(s.thenB.stmts);
      if s.elseB.Some? { DropsNothingIff(s.elseB.value.stmts); }
    }
  }

  lemma LeanAfterwards(ss: seq<Stmt>)
    ensures Lean(Drop(ss))
  {
    DropIdempotent(ss);
    DropsNothingIff(Drop(ss));
  }

  // One statement at a time.
  lemma DropUnfolds(ss: seq<Stmt>)
    requires ss != []
    ensures Drop(ss) == [DropInStmt(ss[0])] + if IsTerminator(ss[0]) then [] else Drop(ss[1..])
  {
  }

  lemma {:induction false} DropIdempotent(ss: seq<Stmt>)
    ensures Drop(Drop(ss)) == Drop(ss)
    decreases SizeStmts(ss), 1
  {
    if ss != [] {
      var d := Drop(ss);
      DropUnfolds(ss);
      DropInStmtIdempotent(ss[0]);
      DropKeepsTerminators(ss[0]);
      DropUnfolds(d);
      assert d[0] == DropInStmt(ss[0]);
      if IsTerminator(ss[0]) {
        assert d[1..] == [];
      } else {
        assert d[1..] == Drop(ss[1..]);
        DropIdempotent(ss[1..]);
      }
    }
  }

  lemma {:induction false} DropInStmtIdempotent(s: Stmt)
    ensures DropInStmt(DropInStmt(s)) == DropInStmt(s)
    decreases SizeStmt(s), 0
  {
    if s.IfElse? {
      assert Drop([]) == [];
      DropIdempotent(s.thenB.stmts);
      if s.elseB.Some? { DropIdempotent(s.elseB.value.stmts); }
    }
  }

  // ---- dropping changes neither execution, in any environment, nor guardedness ----

  lemma {:induction false} DropKeepsExec(I: Interp, ss: seq<Stmt>, env: Env, tr: Trace)
    ensures Exec(I, Drop(ss), env, tr) == Exec(I, ss, env, tr)
    decreases SizeStmts(ss), 1
  {
    if ss != [] {
      var r := ExecStmt(I, ss[0], env, tr);
      DropUnfolds(ss);
      DropKeepsExecStmt(I, ss[0], env, tr);
      if IsTerminator(ss[0]) {
        TerminatorStops(I, ss[0], env, tr);
        assert Drop(ss)[0] == DropInStmt(ss[0]);
      } else {
        assert Drop(ss)[1..] == Drop(ss[1..]);
        DropKeepsExec(I, ss[1..], env, r.tr);
      }
    }
  }

  lemma {:induction false} DropKeepsExecStmt(I: Interp, s: Stmt, env: Env, tr: Trace)
    ensures ExecStmt(I, DropInStmt(s), env, tr) == ExecStmt(I, s, env, tr)
    decreases SizeStmt(s), 0
  {
    if s.IfElse? {
      var r := Eval(I, s.cond, env, tr);
      DropKeepsExec(I, s.thenB.stmts, env, r.tr);
      if s.elseB.Some? { DropKeepsExec(I, s.elseB.value.stmts, env, r.tr); }
    }
  }

  lemma {:induction false} TerminatorStops(I: Interp, s: Stmt, env: Env, tr: Trace)
    requires IsTerminator(s)
    ensures !ExecStmt(I, s, env, tr).out.Fell?
    decreases SizeStmt(s), 0
  {
    if s.IfElse? {
      var r := Eval(I, s.cond, env, tr);
      ReturnsStop(I, s.thenB.stmts, env, r.tr);
      ReturnsStop(I, s.elseB.value.stmts, env, r.tr);
    }
  }

  lemma {:induction false} ReturnsStop(I: Interp, ss: seq<Stmt>, env: Env, tr: Trace)
    requires ReturnsFromAllBranches(ss)
    ensures !Exec(I, ss, env, tr).out.Fell?
    decreases SizeStmts(ss), 1
  {
    if IsTerminator(ss[0]) {
      TerminatorStops(I, ss[0], env, tr);
    } else {
      ReturnsStop(I, ss[1..], env, ExecStmt(I, ss[0], env, tr).tr);
    }
  }

  lemma {:induction false} DropKeepsGuarded(I: Interp, ss: seq<Stmt>, env: Env)
    ensures GuardedStmts(I, ss, env) ==> GuardedStmts(I, Drop(ss), env)
    ensures Returns(Drop(ss)) <==> Returns(ss)
    decreases SizeStmts(ss), 1
  {
    if ss != [] {
      var d := Drop(ss);
      DropUnfolds(ss);
      DropKeepsGuardedStmt(I, ss[0], env);
      if IsTerminator(ss[0]) {
        TerminatorReturns(ss[0]);
        assert d[0] == DropInStmt(ss[0]) && d[1..] == [];
      } else {
        assert d[1..] == Drop(ss[1..]);
        DropKeepsGuarded(I, ss[1..], env);
      }
    }
  }

  lemma {:induction false} DropKeepsGuardedStmt(I: Interp, s: Stmt, env: Env)
    ensures GuardedStmt(I, s, env) ==> GuardedStmt(I, DropInStmt(s), env)
    ensures ReturnsStmt(DropInStmt(s)) <==> ReturnsStmt(s)
    ensures Excused(I, s, env) ==> Excused(I, DropInStmt(s), env)
    decreases SizeStmt(s), 0
  {
    if s.IfElse? {
      DropKeepsGuarded(I, s.thenB.stmts, env);
      if s.elseB.Some? { DropKeepsGuarded(I, s.elseB.value.stmts, env); }
      DropKeepsGuardedIf(I, s, env);
    }
  }

  lemma DropKeepsGuardedIf(I: Interp, s: Stmt, env: Env)
    requires s.IfElse?
    requires GuardedStmts(I, s.thenB.stmts, env) ==> GuardedStmts(I, Drop(s.thenB.stmts), env)
    requires Returns(Drop(s.thenB.stmts)) <==> Returns(s.thenB.stmts)
    requires s.elseB.Some? ==>
               && (GuardedStmts(I, s.elseB.value.stmts, env) ==> GuardedStmts(I, Drop(s.elseB.value.stmts), env))
               && (Returns(Drop(s.elseB.value.stmts)) <==> Returns(s.elseB.value.stmts))
    ensures GuardedStmt(I, s, env) ==> GuardedStmt(I, DropInStmt(s), env)
    ensures ReturnsStmt(DropInStmt(s)) <==> ReturnsStmt(s)
    ensures Excused(I, s, env) ==> Excused(I, DropInStmt(s), env)
  {
    var d := DropInStmt(s);
    if s.cond == Atom(BoolConst(true)) {
      assert Holds(I, s.cond, env) && !IsMutable(s.cond);
    } else if s.cond == Atom(BoolConst(false)) {
      assert !Holds(I, s.cond, env) && !IsMutable(s.cond);
    } else {
      assert d.thenB.stmts == Drop(s.thenB.stmts);
    }
  }
}
