/** How deeply beta steps can nest: a weight of nameless terms, given weights for their variables.

    An applied abstraction weighs one more than its body does where each parameter weighs what its argument weighs. So a
    beta step lowers the weight, and pushing an argument into a body is the same as weighing the body with the weight of
    the argument, as long as no applied abstraction comes into being. */
module Depth {
  import opened Ast
  import opened Nameless
  import opened Substitution

  type Weights = map<Var, nat>

  function WeightOf(phi: Weights, v: Var): nat {
    if v in phi then phi[v] else 0
  }

  function WithWeight(name: Option<Var>, w: nat, phi: Weights): Weights {
    if name.Some? then phi[name.value := w] else phi
  }

  function Front(ws: seq<nat>): nat {
    if ws == [] then 0 else ws[0]
  }

  function Later(ws: seq<nat>): seq<nat> {
    if ws == [] then [] else ws[1..]
  }

  predicate Applicable(f: NExpr) {
    f.NBind? && NLast(f.tele).NAbsEnd?
  }

  // ---- the weight ----

  function Weight(e: NExpr, rho: seq<nat>, phi: Weights): nat
    decreases e, 1
  {
    match e
    case NAtom(_) => 0
    case NFree(v) => WeightOf(phi, v)
    case NBound(i) => if i < |rho| then rho[i] else 0
    case NNode(_, es) => Heaviest(es, rho, phi)
    case NApp(_, f, es) => Max(Heaviest(es, rho, phi), WeightFunc(f, WeightEach(es, rho, phi), rho, phi))
    case NBecause(v, r) => Max(Weight(v, rho, phi), Weight(r, rho, phi))
    case NBind(t) => WeightRun(t, [], rho, phi)
  }

  // In function position, with arguments of these weights.
  function WeightFunc(f: NExpr, ws: seq<nat>, rho: seq<nat>, phi: Weights): nat
    decreases f, 2
  {
    if Applicable(f) then 1 + WeightRun(f.tele, ws, rho, phi) else Weight(f, rho, phi)
  }

  function WeightEach(es: seq<NExpr>, rho: seq<nat>, phi: Weights): (ws: seq<nat>)
    ensures |ws| == |es|
    decreases es, 0
  {
    if es == [] then [] else [Weight(es[0], rho, phi)] + WeightEach(es[1..], rho, phi)
  }

  function Heaviest(es: seq<NExpr>, rho: seq<nat>, phi: Weights): nat
    decreases es, 0
  {
    if es == [] then 0 else Max(Weight(es[0], rho, phi), Heaviest(es[1..], rho, phi))
  }

  // With arguments of these weights; absent ones weigh nothing.
  function WeightRun(t: NTele, ws: seq<nat>, rho: seq<nat>, phi: Weights): nat
    decreases t, 1
  {
    match t
    case NArg(_, ty, rest) => Max(Weight(ty, rho, phi), WeightRun(rest, Later(ws), [Front(ws)] + rho, phi))
    case NSigmaEnd => 0
    case NPiEnd(_, r) => Weight(r, rho, phi)
    case NAbsEnd(_, r, b) => Max(Weight(r, rho, phi), WeightStmts(b.stmts, rho, phi))
  }

  function WeightStmts(ss: seq<NStmt>, rho: seq<nat>, phi: Weights): nat
    decreases ss, 0
  {
    if ss == [] then 0 else Max(WeightStmt(ss[0], rho, phi), WeightStmts(ss[1..], rho, phi))
  }

  function WeightStmt(s: NStmt, rho: seq<nat>, phi: Weights): nat
    decreases s, 1
  {
    match s
    case NCall(_, f, es) => Max(Heaviest(es, rho, phi), WeightFunc(f, WeightEach(es, rho, phi), rho, phi))
    case NIfElse(c, t, e) =>
      Max(Weight(c, rho, phi),
          Max(WeightStmts(t.stmts, rho, phi), if e.Some? then WeightStmts(e.value.stmts, rho, phi) else 0))
    case NReturn(e) => if e.Some? then Weight(e.value, rho, phi) else 0
    case NImpossible(e) => if e.Some? then Weight(e.value, rho, phi) else 0
  }

  // ---- more weight makes more weight ----

  predicate Below(ws: seq<nat>, xs: seq<nat>) {
    |ws| <= |xs| && forall i :: 0 <= i < |ws| ==> ws[i] <= xs[i]
  }

  ghost predicate Lighter(phi: Weights, psi: Weights) {
    forall v :: WeightOf(phi, v) <= WeightOf(psi, v)
  }

  lemma {:induction false} Monotone(e: NExpr, rho: seq<nat>, sigma: seq<nat>, phi: Weights, psi: Weights)
    requires Below(rho, sigma) && Lighter(phi, psi)
    ensures Weight(e, rho, phi) <= Weight(e, sigma, psi)
    decreases e, 1
  {
    match e
    case NAtom(_) =>
    case NFree(_) =>
    case NBound(_) =>
    case NNode(_, es) => MonotoneSeq(es, rho, sigma, phi, psi);
    case NApp(_, f, es) =>
      MonotoneSeq(es, rho, sigma, phi, psi);
      MonotoneFunc(f, WeightEach(es, rho, phi), WeightEach(es, sigma, psi), rho, sigma, phi, psi);
    case NBecause(v, r) => Monotone(v, rho, sigma, phi, psi); Monotone(r, rho, sigma, phi, psi);
    case NBind(t) => MonotoneRun(t, [], [], rho, sigma, phi, psi);
  }

  lemma {:induction false} MonotoneFunc(f: NExpr, ws: seq<nat>, xs: seq<nat>, rho: seq<nat>, sigma: seq<nat>,
        phi: Weights, psi: Weights)
    requires Below(ws, xs) && Below(rho, sigma) && Lighter(phi, psi)
    ensures WeightFunc(f, ws, rho, phi) <= WeightFunc(f, xs, sigma, psi)
    decreases f, 2
  {
    if Applicable(f) { MonotoneRun(f.tele, ws, xs, rho, sigma, phi, psi); } else { Monotone(f, rho, sigma, phi, psi); }
  }

  lemma {:induction false} MonotoneSeq(es: seq<NExpr>, rho: seq<nat>, sigma: seq<nat>, phi: Weights, psi: Weights)
    requires Below(rho, sigma) && Lighter(phi, psi)
    ensures Heaviest(es, rho, phi) <= Heaviest(es, sigma, psi)
            && Below(WeightEach(es, rho, phi), WeightEach(es, sigma, psi))
    decreases es, 0
  {
    if es != [] {
      Monotone(es[0], rho, sigma, phi, psi);
      MonotoneSeq(es[1..], rho, sigma, phi, psi);
    }
  }

  lemma {:induction false} MonotoneRun(t: NTele, ws: seq<nat>, xs: seq<nat>, rho: seq<nat>, sigma: seq<nat>,
        phi: Weights, psi: Weights)
    requires Below(ws, xs) && Below(rho, sigma) && Lighter(phi, psi)
    ensures WeightRun(t, ws, rho, phi) <= WeightRun(t, xs, sigma, psi)
    decreases t, 1
  {
    match t
    case NArg(_, ty, rest) =>
      Monotone(ty, rho, sigma, phi, psi);
      MonotoneRun(rest, Later(ws), Later(xs), [Front(ws)] + rho, [Front(xs)] + sigma, phi, psi);
    case NSigmaEnd =>
    case NPiEnd(_, r) => Monotone(r, rho, sigma, phi, psi);
    case NAbsEnd(_, r, b) => Monotone(r, rho, sigma, phi, psi); MonotoneStmts(b.stmts, rho, sigma, phi, psi);
  }

  lemma {:induction false} MonotoneStmts(ss: seq<NStmt>, rho: seq<nat>, sigma: seq<nat>, phi: Weights, psi: Weights)
    requires Below(rho, sigma) && Lighter(phi, psi)
    ensures WeightStmts(ss, rho, phi) <= WeightStmts(ss, sigma, psi)
    decreases ss, 0
  {
    if ss != [] {
      MonotoneStmt(ss[0], rho, sigma, phi, psi);
      MonotoneStmts(ss[1..], rho, sigma, phi, psi);
    }
  }

  lemma {:induction false} MonotoneStmt(s: NStmt, rho: seq<nat>, sigma: seq<nat>, phi: Weights, psi: Weights)
    requires Below(rho, sigma) && Lighter(phi, psi)
    ensures WeightStmt(s, rho, phi) <= WeightStmt(s, sigma, psi)
    decreases s, 1
  {
    match s
    case NCall(_, f, es) =>
      MonotoneSeq(es, rho, sigma, phi, psi);
      MonotoneFunc(f, WeightEach(es, rho, phi), WeightEach(es, sigma, psi), rho, sigma, phi, psi);
    case NIfElse(c, t, e) =>
      Monotone(c, rho, sigma, phi, psi);
      MonotoneStmts(t.stmts, rho, sigma, phi, psi);
      if e.Some? { MonotoneStmts(e.value.stmts, rho, sigma, phi, psi); }
    case NReturn(e) => if e.Some? { Monotone(e.value, rho, sigma, phi, psi); }
    case NImpossible(e) => if e.Some? { Monotone(e.value, rho, sigma, phi, psi); }
  }

  // ---- variables further out than any that is used do not matter ----

  lemma {:induction false} OuterUnused(e: NExpr, rho: seq<nat>, outer: seq<nat>, phi: Weights)
    requires NClosed(|rho|, e)
    ensures Weight(e, rho + outer, phi) == Weight(e, rho, phi)
    decreases e, 1
  {
    match e
    case NAtom(_) =>
    case NFree(_) =>
    case NBound(_) =>
    case NNode(_, es) => OuterUnusedSeq(es, rho, outer, phi);
    case NApp(_, f, es) => OuterUnusedSeq(es, rho, outer, phi);
      OuterUnusedFunc(f, WeightEach(es, rho, phi), rho, outer, phi);
    case NBecause(v, r) => OuterUnused(v, rho, outer, phi); OuterUnused(r, rho, outer, phi);
    case NBind(t) => OuterUnusedRun(t, [], rho, outer, phi);
  }

  lemma {:induction false} OuterUnusedFunc(f: NExpr, ws: seq<nat>, rho: seq<nat>, outer: seq<nat>, phi: Weights)
    requires NClosed(|rho|, f)
    ensures WeightFunc(f, ws, rho + outer, phi) == WeightFunc(f, ws, rho, phi)
    decreases f, 2
  {
    if Applicable(f) { OuterUnusedRun(f.tele, ws, rho, outer, phi); } else { OuterUnused(f, rho, outer, phi); }
  }

  lemma {:induction false} OuterUnusedSeq(es: seq<NExpr>, rho: seq<nat>, outer: seq<nat>, phi: Weights)
    requires NClosedSeq(|rho|, es)
    ensures Heaviest(es, rho + outer, phi) == Heaviest(es, rho, phi)
            && WeightEach(es, rho + outer, phi) == WeightEach(es, rho, phi)
    decreases es, 0
  {
    if es != [] {
      OuterUnused(es[0], rho, outer, phi);
      OuterUnusedSeq(es[1..], rho, outer, phi);
    }
  }

  lemma {:induction false} OuterUnusedRun(t: NTele, ws: seq<nat>, rho: seq<nat>, outer: seq<nat>, phi: Weights)
    requires NClosedTele(|rho|, t)
    ensures WeightRun(t, ws, rho + outer, phi) == WeightRun(t, ws, rho, phi)
    decreases t, 1
  {
    match t
    case NArg(_, ty, rest) =>
      OuterUnused(ty, rho, outer, phi);
      OuterUnusedRun(rest, Later(ws), [Front(ws)] + rho, outer, phi);
      assert [Front(ws)] + rho + outer == [Front(ws)] + (rho + outer);
    case NSigmaEnd =>
    case NPiEnd(_, r) => OuterUnused(r, rho, outer, phi);
    case NAbsEnd(_, r, b) => OuterUnused(r, rho, outer, phi); OuterUnusedStmts(b.stmts, rho, outer, phi);
  }

  lemma {:induction false} OuterUnusedStmts(ss: seq<NStmt>, rho: seq<nat>, outer: seq<nat>, phi: Weights)
    requires NClosedStmts(|rho|, ss)
    ensures WeightStmts(ss, rho + outer, phi) == WeightStmts(ss, rho, phi)
    decreases ss, 0
  {
    if ss != [] {
      OuterUnusedStmt(ss[0], rho, outer, phi);
      OuterUnusedStmts(ss[1..], rho, outer, phi);
    }
  }

  lemma {:induction false} OuterUnusedStmt(s: NStmt, rho: seq<nat>, outer: seq<nat>, phi: Weights)
    requires NClosedStmt(|rho|, s)
    ensures WeightStmt(s, rho + outer, phi) == WeightStmt(s, rho, phi)
    decreases s, 1
  {
    match s
    case NCall(_, f, es) => OuterUnusedSeq(es, rho, outer, phi);
      OuterUnusedFunc(f, WeightEach(es, rho, phi), rho, outer, phi);
    case NIfElse(c, t, e) =>
      OuterUnused(c, rho, outer, phi);
      OuterUnusedStmts(t.stmts, rho, outer, phi);
      if e.Some? { OuterUnusedStmts(e.value.stmts, rho, outer, phi); }
    case NReturn(e) => if e.Some? { OuterUnused(e.value, rho, outer, phi); }
    case NImpossible(e) => if e.Some? { OuterUnused(e.value, rho, outer, phi); }
  }

  // ---- substituting a term is weighing with its weight ----

  predicate Pushed(u: NExpr) {
    NClosed(0, u) && !Applicable(u)
  }

  lemma {:induction false} ApplicableKept(x: Var, u: NExpr, t: NTele)
    ensures NLast(NSubstTele(x, u, t)).NAbsEnd? == NLast(t).NAbsEnd?
  {
    if t.NArg? { ApplicableKept(x, u, t.rest); }
  }

  lemma {:induction false} WeightSubst(e: NExpr, x: Var, u: NExpr, rho: seq<nat>, phi: Weights)
    requires Pushed(u)
    ensures Weight(NSubst(x, u, e), rho, phi) == Weight(e, rho, phi[x := Weight(u, [], phi)])
    decreases e, 1
  {
    match e
    case NAtom(_) =>
    case NFree(v) => if v == x { OuterUnused(u, [], rho, phi); assert [] + rho == rho; }
    case NBound(_) =>
    case NNode(_, es) => WeightSubstSeq(es, x, u, rho, phi);
    case NApp(_, f, es) =>
      WeightSubstSeq(es, x, u, rho, phi);
      WeightSubstFunc(f, WeightEach(NSubstSeq(x, u, es), rho, phi), x, u, rho, phi);
    case NBecause(v, r) => WeightSubst(v, x, u, rho, phi); WeightSubst(r, x, u, rho, phi);
    case NBind(t) => WeightSubstRun(t, [], x, u, rho, phi);
  }

  lemma {:induction false} WeightSubstFunc(f: NExpr, ws: seq<nat>, x: Var, u: NExpr, rho: seq<nat>, phi: Weights)
    requires Pushed(u)
    ensures WeightFunc(NSubst(x, u, f), ws, rho, phi) == WeightFunc(f, ws, rho, phi[x := Weight(u, [], phi)])
    decreases f, 2
  {
    WeightSubst(f, x, u, rho, phi);
    if f.NBind? { ApplicableKept(x, u, f.tele); }
    if Applicable(f) { WeightSubstRun(f.tele, ws, x, u, rho, phi); }
  }

  lemma {:induction false} WeightSubstSeq(es: seq<NExpr>, x: Var, u: NExpr, rho: seq<nat>, phi: Weights)
    requires Pushed(u)
    ensures var psi := phi[x := Weight(u, [], phi)];
            && Heaviest(NSubstSeq(x, u, es), rho, phi) == Heaviest(es, rho, psi)
            && WeightEach(NSubstSeq(x, u, es), rho, phi) == WeightEach(es, rho, psi)
    decreases es, 0
  {
    if es != [] {
      WeightSubst(es[0], x, u, rho, phi);
      WeightSubstSeq(es[1..], x, u, rho, phi);
    }
  }

  lemma {:induction false} WeightSubstRun(t: NTele, ws: seq<nat>, x: Var, u: NExpr, rho: seq<nat>, phi: Weights)
    requires Pushed(u)
    ensures WeightRun(NSubstTele(x, u, t), ws, rho, phi) == WeightRun(t, ws, rho, phi[x := Weight(u, [], phi)])
    decreases t, 1
  {
    match t
    case NArg(_, ty, rest) =>
      WeightSubst(ty, x, u, rho, phi);
      WeightSubstRun(rest, Later(ws), x, u, [Front(ws)] + rho, phi);
    case NSigmaEnd =>
    case NPiEnd(_, r) => WeightSubst(r, x, u, rho, phi);
    case NAbsEnd(_, r, b) => WeightSubst(r, x, u, rho, phi); WeightSubstStmts(b.stmts, x, u, rho, phi);
  }

  lemma {:induction false} WeightSubstStmts(ss: seq<NStmt>, x: Var, u: NExpr, rho: seq<nat>, phi: Weights)
    requires Pushed(u)
    ensures WeightStmts(NSubstStmts(x, u, ss), rho, phi) == WeightStmts(ss, rho, phi[x := Weight(u, [], phi)])
    decreases ss, 0
  {
    if ss != [] {
      WeightSubstStmt(ss[0], x, u, rho, phi);
      WeightSubstStmts(ss[1..], x, u, rho, phi);
    }
  }

  lemma {:induction false} WeightSubstStmt(s: NStmt, x: Var, u: NExpr, rho: seq<nat>, phi: Weights)
    requires Pushed(u)
    ensures WeightStmt(NSubstStmt(x, u, s), rho, phi) == WeightStmt(s, rho, phi[x := Weight(u, [], phi)])
    decreases s, 1
  {
    match s
    case NCall(_, f, es) =>
      WeightSubstSeq(es, x, u, rho, phi);
      WeightSubstFunc(f, WeightEach(NSubstSeq(x, u, es), rho, phi), x, u, rho, phi);
    case NIfElse(c, t, e) =>
      WeightSubst(c, x, u, rho, phi);
      WeightSubstStmts(t.stmts, x, u, rho, phi);
      if e.Some? { WeightSubstStmts(e.value.stmts, x, u, rho, phi); }
    case NReturn(e) => if e.Some? { WeightSubst(e.value, x, u, rho, phi); }
    case NImpossible(e) => if e.Some? { WeightSubst(e.value, x, u, rho, phi); }
  }

  // ---- a variable weighs the same bound and free ----

  lemma {:induction false} BoundOrFree(e: Expr, name: Option<Var>, w: nat, sc: Scope, rho: seq<nat>, phi: Weights)
    requires |rho| == |sc|
    ensures Weight(ToNameless(e, sc + [name]), rho + [w], phi)
            == Weight(ToNameless(e, sc), rho, WithWeight(name, w, phi))
    decreases Size(e), 0
  {
    match e
    case Atom(_) =>
    case VarE(v) => FindAppend(sc, name, v); FindBelow(sc, v);
    case Node(_, es) => BoundOrFreeSeq(es, name, w, sc, rho, phi);
    case App(_, f, es) =>
      BoundOrFreeSeq(es, name, w, sc, rho, phi);
      BoundOrFreeFunc(f, WeightEach(ToNamelessSeq(es, sc + [name]), rho + [w], phi), name, w, sc, rho, phi);
    case Because(v, r) => BoundOrFree(v, name, w, sc, rho, phi); BoundOrFree(r, name, w, sc, rho, phi);
    case Bind(t) => BoundOrFreeRun(t, [], name, w, sc, rho, phi);
  }

  lemma {:induction false} BoundOrFreeFunc(f: Expr, ws: seq<nat>, name: Option<Var>, w: nat, sc: Scope, rho: seq<nat>,
        phi: Weights)
    requires |rho| == |sc|
    ensures WeightFunc(ToNameless(f, sc + [name]), ws, rho + [w], phi)
         == WeightFunc(ToNameless(f, sc), ws, rho, WithWeight(name, w, phi))
    decreases Size(f), 1
  {
    BoundOrFree(f, name, w, sc, rho, phi);
    if f.Bind? {
      BoundOrFreeRun(f.tele, ws, name, w, sc, rho, phi);
      LastNameless(f.tele, sc + [name]);
      LastNameless(f.tele, sc);
    }
  }

  lemma {:induction false} LastNameless(t: Tele, sc: Scope)
    ensures NLast(ToNamelessTele(t, sc)).NAbsEnd? == t.end.AbsEnd?
    decreases |t.args|
  {
    if t.args != [] { LastNameless(Rest(t), Push(t.args[0].name, sc)); }
  }

  lemma {:induction false} BoundOrFreeSeq(es: seq<Expr>, name: Option<Var>, w: nat, sc: Scope, rho: seq<nat>,
        phi: Weights)
    requires |rho| == |sc|
    ensures var psi := WithWeight(name, w, phi);
            && Heaviest(ToNamelessSeq(es, sc + [name]), rho + [w], phi) == Heaviest(ToNamelessSeq(es, sc), rho, psi)
            && WeightEach(ToNamelessSeq(es, sc + [name]), rho + [w], phi) == WeightEach(ToNamelessSeq(es, sc), rho, psi)
    decreases SizeSeq(es), 1
  {
    if es != [] {
      BoundOrFree(es[0], name, w, sc, rho, phi);
      BoundOrFreeSeq(es[1..], name, w, sc, rho, phi);
    }
  }

  lemma {:induction false} BoundOrFreeRun(t: Tele, ws: seq<nat>, name: Option<Var>, w: nat, sc: Scope, rho: seq<nat>,
        phi: Weights)
    requires |rho| == |sc|
    ensures WeightRun(ToNamelessTele(t, sc + [name]), ws, rho + [w], phi)
         == WeightRun(ToNamelessTele(t, sc), ws, rho, WithWeight(name, w, phi))
    decreases SizeTele(t), 1
  {
    if t.args == [] {
      match t.end
      case SigmaEnd =>
      case PiEnd(_, r) => BoundOrFree(r, name, w, sc, rho, phi);
      case AbsEnd(_, r, b) => BoundOrFree(r, name, w, sc, rho, phi); BoundOrFreeStmts(b.stmts, name, w, sc, rho, phi);
    } else {
      var a, rest := t.args[0], Rest(t);
      BoundOrFree(a.ty, name, w, sc, rho, phi);
      PushAppend(a.name, sc, name);
      BoundOrFreeRun(rest, Later(ws), name, w, Push(a.name, sc), [Front(ws)] + rho, phi);
      assert [Front(ws)] + rho + [w] == [Front(ws)] + (rho + [w]);
    }
  }

  lemma {:induction false} BoundOrFreeStmts(ss: seq<Stmt>, name: Option<Var>, w: nat, sc: Scope, rho: seq<nat>,
        phi: Weights)
    requires |rho| == |sc|
    ensures WeightStmts(ToNamelessStmts(ss, sc + [name]), rho + [w], phi)
         == WeightStmts(ToNamelessStmts(ss, sc), rho, WithWeight(name, w, phi))
    decreases SizeStmts(ss), 1
  {
    if ss != [] {
      BoundOrFreeStmt(ss[0], name, w, sc, rho, phi);
      BoundOrFreeStmts(ss[1..], name, w, sc, rho, phi);
    }
  }

  lemma {:induction false} BoundOrFreeStmt(s: Stmt, name: Option<Var>, w: nat, sc: Scope, rho: seq<nat>, phi: Weights)
    requires |rho| == |sc|
    ensures WeightStmt(ToNamelessStmt(s, sc + [name]), rho + [w], phi)
         == WeightStmt(ToNamelessStmt(s, sc), rho, WithWeight(name, w, phi))
    decreases SizeStmt(s), 0
  {
    match s
    case Call(_, f, es) =>
      BoundOrFreeSeq(es, name, w, sc, rho, phi);
      BoundOrFreeFunc(f, WeightEach(ToNamelessSeq(es, sc + [name]), rho + [w], phi), name, w, sc, rho, phi);
    case IfElse(c, t, e) =>
      BoundOrFree(c, name, w, sc, rho, phi);
      BoundOrFreeStmts(t.stmts, name, w, sc, rho, phi);
      if e.Some? { BoundOrFreeStmts(e.value.stmts, name, w, sc, rho, phi); }
    case Return(e) => if e.Some? { BoundOrFree(e.value, name, w, sc, rho, phi); }
    case Impossible(e) => if e.Some? { BoundOrFree(e.value, name, w, sc, rho, phi); }
  }
}
