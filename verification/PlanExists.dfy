/** When there is a plan: every parameter is found by unification, or no type of a later one mentions it.

    The source asks this of what substitution has left of the later types. If the names chosen on the way are fine, that
    is the same as asking it of the signature as it was declared (`PlanIff`). */
module PlanExists {
  import opened Ast
  import opened Binders
  import opened Nameless
  import opened Substitution
  import opened NamesApart
  import opened AlphaEquivalence
  import opened Unification
  import opened Planning
  import opened PlanNames

  // ---- what is bound somewhere is named there ----

  // The name of the binder `k` out, unless it is hidden.
  function NameAt(sc: Scope, k: nat): (r: Option<Var>)
    ensures r.Some? ==> Find(sc, r.value) == Some(k)
  {
    if k < |sc| && sc[k].Some? && Find(sc, sc[k].value) == Some(k) then sc[k] else None
  }

  lemma NamePushed(name: Option<Var>, sc: Scope, k: nat)
    ensures var r := NameAt(Push(name, sc), k + 1); r.Some? ==> r == NameAt(sc, k) && r != name
  {
  }

  lemma {:induction false} BoundIsNamed(e: Expr, sc: Scope, k: nat)
    requires HasBound(k, ToNameless(e, sc))
    ensures NameAt(sc, k).Some? && OccursIn(NameAt(sc, k).value, e, false)
    decreases Size(e), 0
  {
    match e
    case VarE(v) => FindBelow(sc, v);
    case Node(_, es) => BoundIsNamedSeq(es, sc, k);
    case App(_, f, es) =>
      if HasBound(k, ToNameless(f, sc)) { BoundIsNamed(f, sc, k); } else { BoundIsNamedSeq(es, sc, k); }
    case Because(v, r) =>
      if HasBound(k, ToNameless(v, sc)) { BoundIsNamed(v, sc, k); } else { BoundIsNamed(r, sc, k); }
    case Bind(t) => BoundIsNamedTele(t, sc, k);
  }

  lemma {:induction false} BoundIsNamedSeq(es: seq<Expr>, sc: Scope, k: nat)
    requires HasBoundSeq(k, ToNamelessSeq(es, sc))
    ensures NameAt(sc, k).Some? && OccursInSeq(NameAt(sc, k).value, es, false)
    decreases SizeSeq(es), 1
  {
    if HasBound(k, ToNameless(es[0], sc)) { BoundIsNamed(es[0], sc, k); }
    else { BoundIsNamedSeq(es[1..], sc, k); }
  }

  lemma {:induction false} BoundIsNamedTele(t: Tele, sc: Scope, k: nat)
    requires HasBoundTele(k, ToNamelessTele(t, sc))
    ensures NameAt(sc, k).Some? && OccursInTele(NameAt(sc, k).value, t, false)
    decreases SizeTele(t), 1
  {
    if t.args == [] {
      if HasBound(k, ToNameless(t.end.ret, sc)) { BoundIsNamed(t.end.ret, sc, k); }
      else { BoundIsNamedStmts(t.end.body.stmts, sc, k); }
    } else {
      var a, rest := t.args[0], Rest(t);
      if HasBound(k, ToNameless(a.ty, sc)) {
        BoundIsNamed(a.ty, sc, k);
      } else {
        BoundIsNamedTele(rest, Push(a.name, sc), k + 1);
        NamePushed(a.name, sc, k);
      }
    }
  }

  lemma {:induction false} BoundIsNamedStmts(ss: seq<Stmt>, sc: Scope, k: nat)
    requires HasBoundStmts(k, ToNamelessStmts(ss, sc))
    ensures NameAt(sc, k).Some? && OccursInStmts(NameAt(sc, k).value, ss, false)
    decreases SizeStmts(ss), 1
  {
    if HasBoundStmt(k, ToNamelessStmt(ss[0], sc)) { BoundIsNamedStmt(ss[0], sc, k); }
    else { BoundIsNamedStmts(ss[1..], sc, k); }
  }

  lemma {:induction false} BoundIsNamedStmt(s: Stmt, sc: Scope, k: nat)
    requires HasBoundStmt(k, ToNamelessStmt(s, sc))
    ensures NameAt(sc, k).Some? && OccursInStmt(NameAt(sc, k).value, s, false)
    decreases SizeStmt(s), 0
  {
    match s
    case Call(_, f, es) =>
      if HasBound(k, ToNameless(f, sc)) { BoundIsNamed(f, sc, k); } else { BoundIsNamedSeq(es, sc, k); }
    case IfElse(c, t, e) =>
      if HasBound(k, ToNameless(c, sc)) { BoundIsNamed(c, sc, k); }
      else if HasBoundStmts(k, ToNamelessStmts(t.stmts, sc)) { BoundIsNamedStmts(t.stmts, sc, k); }
      else { BoundIsNamedStmts(e.value.stmts, sc, k); }
    case Return(e) => BoundIsNamed(e.value, sc, k);
    case Impossible(e) => BoundIsNamed(e.value, sc, k);
  }

  // ---- instantiating other binders changes no reference ----

  lemma {:induction false} ClosedHasNone(e: NExpr, d: nat, k: nat)
    requires NClosed(d, e) && d <= k
    ensures !HasBound(k, e)
    decreases e, 1
  {
    match e
    case NAtom(_) =>
    case NFree(_) =>
    case NBound(_) =>
    case NNode(_, es) => ClosedHasNoneSeq(es, d, k);
    case NApp(_, f, es) => ClosedHasNone(f, d, k); ClosedHasNoneSeq(es, d, k);
    case NBecause(v, r) => ClosedHasNone(v, d, k); ClosedHasNone(r, d, k);
    case NBind(t) => ClosedHasNoneTele(t, d, k);
  }

  lemma {:induction false} ClosedHasNoneSeq(es: seq<NExpr>, d: nat, k: nat)
    requires NClosedSeq(d, es) && d <= k
    ensures !HasBoundSeq(k, es)
    decreases es, 0
  {
    if es != [] { ClosedHasNone(es[0], d, k); ClosedHasNoneSeq(es[1..], d, k); }
  }

  lemma {:induction false} ClosedHasNoneTele(t: NTele, d: nat, k: nat)
    requires NClosedTele(d, t) && d <= k
    ensures !HasBoundTele(k, t)
    decreases t, 1
  {
    match t
    case NArg(_, ty, rest) => ClosedHasNone(ty, d, k); ClosedHasNoneTele(rest, d + 1, k + 1);
    case NSigmaEnd =>
    case NPiEnd(_, r) => ClosedHasNone(r, d, k);
    case NAbsEnd(_, r, b) => ClosedHasNone(r, d, k); ClosedHasNoneStmts(b.stmts, d, k);
  }

  lemma {:induction false} ClosedHasNoneStmts(ss: seq<NStmt>, d: nat, k: nat)
    requires NClosedStmts(d, ss) && d <= k
    ensures !HasBoundStmts(k, ss)
    decreases ss, 0
  {
    if ss != [] { ClosedHasNoneStmt(ss[0], d, k); ClosedHasNoneStmts(ss[1..], d, k); }
  }

  lemma {:induction false} ClosedHasNoneStmt(s: NStmt, d: nat, k: nat)
    requires NClosedStmt(d, s) && d <= k
    ensures !HasBoundStmt(k, s)
    decreases s, 1
  {
    match s
    case NCall(_, f, es) => ClosedHasNone(f, d, k); ClosedHasNoneSeq(es, d, k);
    case NIfElse(c, t, e) =>
      ClosedHasNone(c, d, k);
      ClosedHasNoneStmts(t.stmts, d, k);
      if e.Some? { ClosedHasNoneStmts(e.value.stmts, d, k); }
    case NReturn(e) => if e.Some? { ClosedHasNone(e.value, d, k); }
    case NImpossible(e) => if e.Some? { ClosedHasNone(e.value, d, k); }
  }

  lemma {:induction false} EachClosed(us: seq<NExpr>, i: nat)
    requires NClosedSeq(0, us) && i < |us|
    ensures NClosed(0, us[i])
  {
    if i > 0 { EachClosed(us[1..], i - 1); }
  }

  lemma {:induction false} InstKeepsBound(us: seq<NExpr>, d: nat, e: NExpr, k: nat)
    requires NClosedSeq(0, us) && k < d
    ensures HasBound(k, NInst(us, d, e)) == HasBound(k, e)
    decreases e, 1
  {
    match e
    case NAtom(_) =>
    case NFree(_) =>
    case NBound(i) => if d <= i < d + |us| { EachClosed(us, i - d); ClosedHasNone(us[i - d], 0, k); }
    case NNode(_, es) => InstKeepsBoundSeq(us, d, es, k);
    case NApp(_, f, es) => InstKeepsBound(us, d, f, k); InstKeepsBoundSeq(us, d, es, k);
    case NBecause(v, r) => InstKeepsBound(us, d, v, k); InstKeepsBound(us, d, r, k);
    case NBind(t) => InstKeepsBoundTele(us, d, t, k);
  }

  lemma {:induction false} InstKeepsBoundSeq(us: seq<NExpr>, d: nat, es: seq<NExpr>, k: nat)
    requires NClosedSeq(0, us) && k < d
    ensures HasBoundSeq(k, NInstSeq(us, d, es)) == HasBoundSeq(k, es)
    decreases es, 0
  {
    if es != [] { InstKeepsBound(us, d, es[0], k); InstKeepsBoundSeq(us, d, es[1..], k); }
  }

  lemma {:induction false} InstKeepsBoundTele(us: seq<NExpr>, d: nat, t: NTele, k: nat)
    requires NClosedSeq(0, us) && k < d
    ensures HasBoundTele(k, NInstTele(us, d, t)) == HasBoundTele(k, t)
    decreases t, 1
  {
    match t
    case NArg(_, ty, rest) => InstKeepsBound(us, d, ty, k); InstKeepsBoundTele(us, d + 1, rest, k + 1);
    case NSigmaEnd =>
    case NPiEnd(_, r) => InstKeepsBound(us, d, r, k);
    case NAbsEnd(_, r, b) => InstKeepsBound(us, d, r, k); InstKeepsBoundStmts(us, d, b.stmts, k);
  }

  lemma {:induction false} InstKeepsBoundStmts(us: seq<NExpr>, d: nat, ss: seq<NStmt>, k: nat)
    requires NClosedSeq(0, us) && k < d
    ensures HasBoundStmts(k, NInstStmts(us, d, ss)) == HasBoundStmts(k, ss)
    decreases ss, 0
  {
    if ss != [] { InstKeepsBoundStmt(us, d, ss[0], k); InstKeepsBoundStmts(us, d, ss[1..], k); }
  }

  lemma {:induction false} InstKeepsBoundStmt(us: seq<NExpr>, d: nat, s: NStmt, k: nat)
    requires NClosedSeq(0, us) && k < d
    ensures HasBoundStmt(k, NInstStmt(us, d, s)) == HasBoundStmt(k, s)
    decreases s, 1
  {
    match s
    case NCall(_, f, es) => InstKeepsBound(us, d, f, k); InstKeepsBoundSeq(us, d, es, k);
    case NIfElse(c, t, e) =>
      InstKeepsBound(us, d, c, k);
      InstKeepsBoundStmts(us, d, t.stmts, k);
      if e.Some? { InstKeepsBoundStmts(us, d, e.value.stmts, k); }
    case NReturn(e) => if e.Some? { InstKeepsBound(us, d, e.value, k); }
    case NImpossible(e) => if e.Some? { InstKeepsBound(us, d, e.value, k); }
  }

  // ---- irrelevant as declared, irrelevant as it has become ----

  // A parameter is irrelevant just when its binder is referred to by no later type.
  lemma IrrelevantIsUnbound(name: Option<Var>, rest: Tele, sc: Scope)
    ensures Irrelevant(name, rest) <==> !HasBoundTele(0, NSig(ToNamelessTele(rest, Push(name, sc))))
  {
    var sig, inner := Tele(rest.args, SigmaEnd), Push(name, sc);
    SigNameless(rest, inner);
    BoundWhereUsedTele(sig, inner, 0, name);
    if HasBoundTele(0, ToNamelessTele(sig, inner)) { BoundIsNamedTele(sig, inner, 0); }
  }

  lemma StillIrrelevant(all: Bindings, s: Bindings, pi: Tele, sc: Scope, us: seq<NExpr>, t: Tele)
    requires Stage(all, s, pi, sc, us, t) && pi.args != []
    ensures Irrelevant(t.args[0].name, Rest(t)) <==> Irrelevant(pi.args[0].name, Rest(pi))
  {
    HeadOfStage(all, s, pi, sc, us, t);
    IrrelevantIsUnbound(t.args[0].name, Rest(t), []);
    IrrelevantIsUnbound(pi.args[0].name, Rest(pi), sc);
    InstKeepsBoundTele(us, 1, NSig(ToNamelessTele(Rest(pi), Push(pi.args[0].name, sc))), 0);
  }

  // As declared: found by unification, or mentioned by no type of a later parameter.
  predicate Settled(found: Var -> bool, args: seq<Arg>, i: nat)
    requires i < |args|
  {
    || args[i].name.None?
    || found(args[i].name.value)
    || !OccursInTele(args[i].name.value, Tele(args[i + 1..], SigmaEnd), false)
  }

  predicate AllSettled(found: Var -> bool, args: seq<Arg>) {
    forall i :: 0 <= i < |args| ==> Settled(found, args, i)
  }

  lemma SettledRest(found: Var -> bool, args: seq<Arg>)
    requires args != []
    ensures AllSettled(found, args) <==> Settled(found, args, 0) && AllSettled(found, args[1..])
  {
    forall i | 0 <= i < |args| - 1 ensures Settled(found, args, i + 1) == Settled(found, args[1..], i) {
      assert args[i + 1] == args[1..][i] && args[i + 2..] == args[1..][i + 1..];
    }
    if AllSettled(found, args) {
      forall i | 0 <= i < |args[1..]| ensures Settled(found, args[1..], i) { assert Settled(found, args, i + 1); }
    }
    if Settled(found, args, 0) && AllSettled(found, args[1..]) {
      forall i | 0 <= i < |args| ensures Settled(found, args, i) {
        if i > 0 { assert Settled(found, args[1..], i - 1); }
      }
    }
  }

  lemma SameSettled(found: Var -> bool, asked: Var -> bool, args: seq<Arg>)
    requires forall v :: found(v) == asked(v)
    ensures AllSettled(found, args) == AllSettled(asked, args)
  {
    if AllSettled(found, args) {
      forall i | 0 <= i < |args| ensures Settled(asked, args, i) { assert Settled(found, args, i); }
    }
    if AllSettled(asked, args) {
      forall i | 0 <= i < |args| ensures Settled(found, args, i) { assert Settled(asked, args, i); }
    }
  }

  lemma {:induction false} PlanFrom(all: Bindings, s: Bindings, pi: Tele, sc: Scope, us: seq<NExpr>, t: Tele)
    requires Stage(all, s, pi, sc, us, t) && PlanOk(s, ArgNames(pi.args), t)
    ensures Plan(s, ArgNames(pi.args), t).Some? <==> AllSettled(v => v in all, pi.args)
    decreases |pi.args|
  {
    if pi.args != [] {
      var name, names := pi.args[0].name, ArgNames(pi.args);
      StillIrrelevant(all, s, pi, sc, us, t);
      SettledRest(v => v in all, pi.args);
      assert name.Some? ==> (name.value in s <==> name.value in all);
      if Next(s, name, t).Some? {
        var next := Next(s, name, t).value;
        var r := if next.0.Known? then next.0.value else Bind(Tele([], SigmaEnd));
        NextStage(all, s, pi, sc, us, t, r);
        PlanFrom(all, next.1, Rest(pi), Push(name, sc), [ToNameless(r, [])] + us, next.2);
      }
    }
  }

  /** There is a plan just when every parameter is mentioned by the return type, outside reasons, or by no type of a
      later parameter. */
  lemma PlanIff(c: Callee, target: Expr)
    requires c.pi.end.PiEnd? && DistinctNames(c.pi.args)
    requires Unify(c.sorts, c.pi.end.ret, target).Some?
             && PlanOk(Unify(c.sorts, c.pi.end.ret, target).value, ArgNames(c.pi.args), c.pi)
    ensures PlanOf(c, target).Some? <==> AllSettled(v => Asks(v, c.pi.end.ret), c.pi.args)
  {
    var s := Unify(c.sorts, c.pi.end.ret, target).value;
    MatchFinds(c.sorts, c.pi.end.ret, target, map[]);
    SignatureAlone(c.pi);
    PlanFrom(s, s, c.pi, [], [], c.pi);
    SameSettled(v => v in s, v => Asks(v, c.pi.end.ret), c.pi.args);
  }

  /** So it is for names that can be checked before the search. */
  lemma ApartPlanIff(params: set<Var>, c: Callee, target: Expr)
    requires c.pi.end.PiEnd? && DistinctNames(c.pi.args)
    requires Apart(params, c.pi) && UnindexedTypes(c.pi.args) && Clear(params, target)
    ensures PlanOf(c, target).Some? <==>
            Unify(c.sorts, c.pi.end.ret, target).Some? && AllSettled(v => Asks(v, c.pi.end.ret), c.pi.args)
  {
    if Unify(c.sorts, c.pi.end.ret, target).Some? {
      var s := Unify(c.sorts, c.pi.end.ret, target).value;
      MatchFinds(c.sorts, c.pi.end.ret, target, map[]);
      forall v | v in s ensures Clear(params, s[v]) { PartClear(s[v], target); }
      ApartPlan(params, s, ArgNames(c.pi.args), c.pi);
      PlanIff(c, target);
    }
  }
}
