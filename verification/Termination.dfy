/** Normalisation ends by itself: from some fuel on, more fuel makes no difference.

    Beta steps nest no deeper than the weight of the term, since no step makes new applied abstractions and each takes
    the weight of one away. This needs the names chosen by the steps to be fine, because a captured variable could
    stand for a heavier argument than the one it was written for. */
module Termination {
  import opened Ast
  import opened Binders
  import opened Nameless
  import opened Substitution
  import opened Semantics
  import opened Guarding
  import opened UnreachableCode
  import opened Normaliser
  import opened Legality
  import opened Depth

  // ---- every beta step of the run chooses fine names, in reasons too ----

  predicate RunsFresh(e: Expr, fuel: nat)
    decreases fuel, Size(e), 1
  {
    match e
    case Atom(_) => true
    case VarE(_) => true
    case Node(_, es) => RunsFreshSeq(es, fuel)
    case App(_, f, es) => RunsFreshApp(f, es, fuel)
    case Because(v, r) => RunsFresh(v, fuel) && RunsFresh(r, fuel)
    case Bind(t) => RunsFreshTele(t, fuel)
  }

  predicate RunsFreshSeq(es: seq<Expr>, fuel: nat)
    decreases fuel, SizeSeq(es), 2
  {
    es != [] ==> RunsFresh(es[0], fuel) && RunsFreshSeq(es[1..], fuel)
  }

  predicate RunsFreshApp(f: Expr, es: seq<Expr>, fuel: nat)
    decreases fuel, 1 + Size(f) + SizeSeq(es), 0
  {
    var g, vs := Normalise(f, fuel), NormaliseSeq(es, fuel);
    && RunsFresh(f, fuel) && RunsFreshSeq(es, fuel)
    && (AnyMutable(vs) || !IsRedex(g, vs) || fuel == 0 ||
        (BetaEnd(g.tele, vs);
         BetaOk(g.tele, vs) && RunsFreshBody(BetaTele(g.tele, vs).end.body.stmts, fuel - 1)))
  }

  predicate RunsFreshTele(t: Tele, fuel: nat)
    decreases fuel, SizeTele(t), 4
  {
    if t.args == [] then
      match t.end
      case SigmaEnd => true
      case PiEnd(_, r) => RunsFresh(r, fuel)
      case AbsEnd(_, r, b) => RunsFresh(r, fuel) && RunsFreshBody(b.stmts, fuel)
    else
      var a, rest := t.args[0], Rest(t);
      RunsFresh(a.ty, fuel) && RunsFreshTele(rest, fuel)
  }

  predicate RunsFreshBody(ss: seq<Stmt>, fuel: nat)
    decreases fuel, SizeStmts(ss), 4
  {
    RunsFreshStmts(Drop(ss), fuel)
  }

  predicate RunsFreshStmts(ss: seq<Stmt>, fuel: nat)
    decreases fuel, SizeStmts(ss), 3
  {
    ss != [] ==> RunsFreshStmt(ss[0], fuel) && RunsFreshStmts(ss[1..], fuel)
  }

  predicate RunsFreshStmt(s: Stmt, fuel: nat)
    decreases fuel, SizeStmt(s), 2
  {
    match s
    case Call(_, f, es) => RunsFreshApp(f, es, fuel)
    case IfElse(c, t, e) =>
      && RunsFresh(c, fuel)
      && RunsFreshBody(t.stmts, fuel)
      && (e.Some? ==> RunsFreshBody(e.value.stmts, fuel))
    case Return(e) => e.Some? ==> RunsFresh(e.value, fuel)
    case Impossible(e) => e.Some? ==> RunsFresh(e.value, fuel)
  }

  // ---- weights of named terms ----

  function W(e: Expr, phi: Weights): nat {
    Weight(ToNameless(e, []), [], phi)
  }

  function WEach(es: seq<Expr>, phi: Weights): seq<nat> {
    WeightEach(ToNamelessSeq(es, []), [], phi)
  }

  function WSeq(es: seq<Expr>, phi: Weights): nat {
    Heaviest(ToNamelessSeq(es, []), [], phi)
  }

  function WFunc(f: Expr, ws: seq<nat>, phi: Weights): nat {
    WeightFunc(ToNameless(f, []), ws, [], phi)
  }

  function WApp(f: Expr, es: seq<Expr>, phi: Weights): nat {
    Max(WSeq(es, phi), WFunc(f, WEach(es, phi), phi))
  }

  function WRun(t: Tele, ws: seq<nat>, phi: Weights): nat {
    WeightRun(ToNamelessTele(t, []), ws, [], phi)
  }

  function WStmts(ss: seq<Stmt>, phi: Weights): nat {
    WeightStmts(ToNamelessStmts(ss, []), [], phi)
  }

  function WStmt(s: Stmt, phi: Weights): nat {
    WeightStmt(ToNamelessStmt(s, []), [], phi)
  }

  lemma RunUnfolds(t: Tele, ws: seq<nat>, phi: Weights)
    requires t.args != []
    ensures WRun(t, ws, phi)
            == Max(W(t.args[0].ty, phi), WRun(Rest(t), Later(ws), WithWeight(t.args[0].name, Front(ws), phi)))
  {
    var a, rest, sc: Scope, none: seq<nat> := t.args[0], Rest(t), [], [];
    BoundOrFreeRun(rest, Later(ws), a.name, Front(ws), [], [], phi);
    assert sc + [a.name] == Push(a.name, []) && none + [Front(ws)] == [Front(ws)] + none;
  }

  lemma FuncUnfolds(f: Expr, ws: seq<nat>, phi: Weights)
    ensures WFunc(f, ws, phi) == if IsAbs(f) then 1 + WRun(f.tele, ws, phi) else W(f, phi)
    ensures IsAbs(f) ==> W(f, phi) == WRun(f.tele, [], phi)
  {
    if f.Bind? { LastNameless(f.tele, []); }
  }

  lemma RunMonotone(t: Tele, ws: seq<nat>, xs: seq<nat>, phi: Weights)
    requires Below(ws, xs)
    ensures WRun(t, ws, phi) <= WRun(t, xs, phi)
  {
    MonotoneRun(ToNamelessTele(t, []), ws, xs, [], [], phi, phi);
  }

  lemma {:induction false} WeightAppend(ss: seq<Stmt>, zs: seq<Stmt>, phi: Weights)
    ensures WStmts(ss + zs, phi) == Max(WStmts(ss, phi), WStmts(zs, phi))
  {
    if ss == [] {
      assert ss + zs == zs;
    } else {
      assert (ss + zs)[0] == ss[0] && (ss + zs)[1..] == ss[1..] + zs;
      WeightAppend(ss[1..], zs, phi);
    }
  }

  lemma WeightCons(s: Stmt, ss: seq<Stmt>, phi: Weights)
    ensures WStmts([s] + ss, phi) == Max(WStmt(s, phi), WStmts(ss, phi))
  {
    assert ([s] + ss)[1..] == ss;
  }

  lemma AppUnfolds(m: bool, f: Expr, es: seq<Expr>, phi: Weights)
    ensures W(App(m, f, es), phi) == WApp(f, es, phi) == WStmt(Call(m, f, es), phi)
  {
  }

  lemma IfUnfolds(c: Expr, t: Body, e: Option<Body>, phi: Weights)
    ensures WStmt(IfElse(c, t, e), phi) ==
            Max(W(c, phi), Max(WStmts(t.stmts, phi), if e.Some? then WStmts(e.value.stmts, phi) else 0))
    ensures WStmts([], phi) == 0
  {
  }

  // ---- a beta step takes weight away ----

  // The telescope that is left weighs no more than the abstraction on these arguments.
  lemma {:induction false} BetaLighter(t: Tele, values: seq<Expr>, phi: Weights)
    requires |values| == |t.args| && BetaOk(t, values) && LegalSeq(values)
    ensures WRun(BetaTele(t, values), [], phi) <= WRun(t, WEach(values, phi), phi)
    decreases |t.args|
  {
    if t.args != [] {
      var name, rest, ws := t.args[0].name, Rest(t), WEach(values[1..], phi);
      var next := if name.Some? then SubstTele(name.value, values[0], rest) else rest;
      if name.Some? {
        var u := ToNameless(values[0], []);
        SubstitutionTheoremTele(name.value, values[0], rest);
        NamelessIsClosed(values[0], []);
        if values[0].Bind? { LastNameless(values[0].tele, []); }
        WeightSubstRun(ToNamelessTele(rest, []), ws, name.value, u, [], phi);
      }
      BetaLighter(next, values[1..], phi);
      RunUnfolds(t, WEach(values, phi), phi);
    }
  }

  /** The body that a beta step leaves to be normalised weighs less than the application. */
  lemma RedexLighter(m: bool, t: Tele, values: seq<Expr>, phi: Weights)
    requires |values| == |t.args| && BetaOk(t, values) && LegalSeq(values)
    requires t.end.AbsEnd? && BetaTele(t, values).end.AbsEnd?
    ensures WStmts(BetaTele(t, values).end.body.stmts, phi) < W(App(m, Bind(t), values), phi)
  {
    BetaLighter(t, values, phi);
    EndLighter(BetaTele(t, values), phi);
    FuncUnfolds(Bind(t), WEach(values, phi), phi);
    AppUnfolds(m, Bind(t), values, phi);
  }

  lemma EndLighter(t: Tele, phi: Weights)
    requires t.args == [] && t.end.AbsEnd?
    ensures WStmts(t.end.body.stmts, phi) <= WRun(t, [], phi)
  {
  }

  // ---- nor does anything else make a term heavier ----

  lemma {:induction false} DropLighter(ss: seq<Stmt>, phi: Weights)
    ensures WStmts(Drop(ss), phi) <= WStmts(ss, phi)
    decreases SizeStmts(ss), 2
  {
    if ss != [] {
      DropUnfolds(ss);
      DropLighterStmt(ss[0], phi);
      var rest := if IsTerminator(ss[0]) then [] else Drop(ss[1..]);
      WeightCons(DropInStmt(ss[0]), rest, phi);
      if !IsTerminator(ss[0]) { DropLighter(ss[1..], phi); }
    }
  }

  lemma {:induction false} DropLighterStmt(s: Stmt, phi: Weights)
    ensures WStmt(DropInStmt(s), phi) <= WStmt(s, phi)
    decreases SizeStmt(s), 1
  {
    if s.IfElse? {
      var d := DropInStmt(s);
      IfUnfolds(s.cond, s.thenB, s.elseB, phi);
      IfUnfolds(d.cond, d.thenB, d.elseB, phi);
      DropLighter(s.thenB.stmts, phi);
      if s.elseB.Some? { DropLighter(s.elseB.value.stmts, phi); }
    }
  }

  lemma {:induction false} SecondPassLighter(ss: seq<Stmt>, phi: Weights)
    ensures WStmts(SecondPass(ss), phi) <= WStmts(ss, phi)
    decreases SizeStmts(ss)
  {
    if ss != [] {
      match Look(ss[0], ss[1..])
      case Keep =>
        SecondPassLighter(ss[1..], phi);
        WeightCons(ss[0], SecondPass(ss[1..]), phi);
      case Restart(next) =>
        LookLighter(ss[0], ss[1..], phi);
        SecondPassLighter(next, phi);
    }
  }

  lemma LookLighter(s: Stmt, rest: seq<Stmt>, phi: Weights)
    requires Look(s, rest).Restart?
    ensures WStmts(Look(s, rest).stmts, phi) <= Max(WStmt(s, phi), WStmts(rest, phi))
  {
    if s.IfElse? {
      IfUnfolds(s.cond, s.thenB, s.elseB, phi);
      WeightAppend(s.thenB.stmts, rest, phi);
      DropLighter(s.thenB.stmts, phi);
      DropLighter(s.thenB.stmts + rest, phi);
      if s.elseB.Some? {
        WeightAppend(s.elseB.value.stmts, rest, phi);
        DropLighter(s.elseB.value.stmts + rest, phi);
      }
    }
  }

  lemma {:induction false} NormaliseLighter(e: Expr, fuel: nat, phi: Weights)
    requires Legal(e) && RunsFresh(e, fuel)
    ensures W(Normalise(e, fuel), phi) <= W(e, phi)
    decreases fuel, Size(e), 1
  {
    match e
    case Atom(_) =>
    case VarE(_) =>
    case Node(_, es) => NormaliseLighterSeq(es, fuel, phi);
    case App(m, f, es) =>
      NormaliseLighterApp(m, f, es, fuel, phi);
      NormaliseLegalApp(m, f, es, fuel);
      AppUnfolds(m, f, es, phi);
      ExtractLighter(m, NormaliseApp(f, es, fuel), phi);
    case Because(v, r) => NormaliseLighter(v, fuel, phi); NormaliseLighter(r, fuel, phi);
    case Bind(t) => NormaliseLighterRun(t, [], fuel, phi);
  }

  lemma {:induction false} NormaliseLighterSeq(es: seq<Expr>, fuel: nat, phi: Weights)
    requires LegalSeq(es) && RunsFreshSeq(es, fuel)
    ensures WSeq(NormaliseSeq(es, fuel), phi) <= WSeq(es, phi)
            && Below(WEach(NormaliseSeq(es, fuel), phi), WEach(es, phi))
    decreases fuel, SizeSeq(es), 2
  {
    if es != [] {
      NormaliseLighter(es[0], fuel, phi);
      NormaliseLighterSeq(es[1..], fuel, phi);
      assert NormaliseSeq(es, fuel)[1..] == NormaliseSeq(es[1..], fuel);
    }
  }

  lemma {:induction false} NormaliseLighterApp(m: bool, f: Expr, es: seq<Expr>, fuel: nat, phi: Weights)
    requires Legal(App(m, f, es)) && RunsFreshApp(f, es, fuel)
    ensures var (g, vs) := NormaliseApp(f, es, fuel); WApp(g, vs, phi) <= WApp(f, es, phi)
    decreases fuel, 1 + Size(f) + SizeSeq(es), 0
  {
    var g, vs := Normalise(f, fuel), NormaliseSeq(es, fuel);
    NormaliseLighter(f, fuel, phi);
    NormaliseLighterSeq(es, fuel, phi);
    NormaliseLegal(f, fuel);
    NormaliseLegalSeq(es, fuel);
    FuncUnfolds(f, WEach(es, phi), phi);
    FuncUnfolds(g, WEach(vs, phi), phi);
    if IsAbs(f) {
      assert Size(f) == 1 + SizeTele(f.tele) && g == Bind(NormaliseTele(f.tele, fuel));
      NormaliseLighterRun(f.tele, WEach(vs, phi), fuel, phi);
      RunMonotone(f.tele, WEach(vs, phi), WEach(es, phi), phi);
      NormaliseLegalTele(f.tele, fuel);
      if !(AnyMutable(vs) || !IsRedex(g, vs) || fuel == 0) {
        BetaEnd(g.tele, vs);
        ContractedLighter(g.tele, vs, fuel, phi);
      }
    }
  }

  // What a beta step leaves, once its body is normalised.
  lemma {:induction false} ContractedLighter(t: Tele, vs: seq<Expr>, fuel: nat, phi: Weights)
    requires fuel > 0 && t.end.AbsEnd? && |t.args| == |vs| && LegalTele(t) && LegalSeq(vs) && !AnyMutable(vs)
             && BetaOk(t, vs)
    requires BetaTele(t, vs).end.AbsEnd? && RunsFreshBody(BetaTele(t, vs).end.body.stmts, fuel - 1)
    ensures var end := BetaTele(t, vs).end;
            WApp(Bind(Tele([], AbsEnd(end.isMutable, end.ret, Body(NormaliseBody(end.body.stmts, fuel - 1))))), [], phi)
            <= 1 + WRun(t, WEach(vs, phi), phi)
    decreases fuel, 0, 0
  {
    var end := BetaTele(t, vs).end;
    var body := NormaliseBody(end.body.stmts, fuel - 1);
    BetaLegal(t, vs);
    BetaLighter(t, vs, phi);
    NormaliseLighterBody(end.body.stmts, fuel - 1, phi);
    FuncUnfolds(Bind(Tele([], AbsEnd(end.isMutable, end.ret, Body(body)))), [], phi);
    assert BetaTele(t, vs) == Tele([], end);
  }

  lemma ExtractLighter(m: bool, app: (Expr, seq<Expr>), phi: Weights)
    requires Legal(App(m, app.0, app.1))
    ensures W(Extract(m, app), phi) <= WApp(app.0, app.1, phi)
  {
    var (f, es) := app;
    if es == [] && IsAbs(f) && |f.tele.end.body.stmts| == 1 {
      FuncUnfolds(f, [], phi);
      var s := f.tele.end.body.stmts[0];
      assert f.tele.end.body.stmts == [s] + [];
      WeightCons(s, [], phi);
      EndLighter(f.tele, phi);
    }
  }

  lemma {:induction false} NormaliseLighterRun(t: Tele, ws: seq<nat>, fuel: nat, phi: Weights)
    requires LegalTele(t) && RunsFreshTele(t, fuel)
    ensures WRun(NormaliseTele(t, fuel), ws, phi) <= WRun(t, ws, phi)
    decreases fuel, SizeTele(t), 4
  {
    if t.args == [] {
      match t.end
      case SigmaEnd =>
      case PiEnd(_, r) => NormaliseLighter(r, fuel, phi);
      case AbsEnd(_, r, b) => NormaliseLighter(r, fuel, phi); NormaliseLighterBody(b.stmts, fuel, phi);
    } else {
      var a, rest := t.args[0], Rest(t);
      NormaliseLighter(a.ty, fuel, phi);
      NormaliseLighterRun(rest, Later(ws), fuel, WithWeight(a.name, Front(ws), phi));
      RunUnfolds(t, ws, phi);
      RunUnfolds(NormaliseTele(t, fuel), ws, phi);
    }
  }

  lemma {:induction false} NormaliseLighterBody(ss: seq<Stmt>, fuel: nat, phi: Weights)
    requires LegalStmts(ss) && RunsFreshBody(ss, fuel)
    ensures WStmts(NormaliseBody(ss, fuel), phi) <= WStmts(ss, phi)
    decreases fuel, SizeStmts(ss), 4
  {
    DropLegal(ss);
    DropLighter(ss, phi);
    NormaliseLighterStmts(Drop(ss), fuel, phi);
    SecondPassLighter(NormaliseStmts(Drop(ss), fuel), phi);
  }

  lemma {:induction false} NormaliseLighterStmts(ss: seq<Stmt>, fuel: nat, phi: Weights)
    requires LegalStmts(ss) && RunsFreshStmts(ss, fuel)
    ensures WStmts(NormaliseStmts(ss, fuel), phi) <= WStmts(ss, phi)
    decreases fuel, SizeStmts(ss), 3
  {
    if ss != [] {
      NormaliseLighterStmt(ss[0], fuel, phi);
      NormaliseLighterStmts(ss[1..], fuel, phi);
      WeightCons(NormaliseStmt(ss[0], fuel), NormaliseStmts(ss[1..], fuel), phi);
    }
  }

  lemma {:induction false} NormaliseLighterStmt(s: Stmt, fuel: nat, phi: Weights)
    requires LegalStmt(s) && RunsFreshStmt(s, fuel)
    ensures WStmt(NormaliseStmt(s, fuel), phi) <= WStmt(s, phi)
    decreases fuel, SizeStmt(s), 2
  {
    match s
    case Call(m, f, es) =>
      NormaliseLighterApp(m, f, es, fuel, phi);
      var (g, vs) := NormaliseApp(f, es, fuel);
      AppUnfolds(m, f, es, phi);
      AppUnfolds(m, g, vs, phi);
    case IfElse(c, t, e) =>
      var r := NormaliseStmt(s, fuel);
      IfUnfolds(c, t, e, phi);
      IfUnfolds(r.cond, r.thenB, r.elseB, phi);
      NormaliseLighter(c, fuel, phi);
      NormaliseLighterBody(t.stmts, fuel, phi);
      if e.Some? { NormaliseLighterBody(e.value.stmts, fuel, phi); }
    case Return(e) => if e.Some? { NormaliseLighter(e.value, fuel, phi); }
    case Impossible(e) => if e.Some? { NormaliseLighter(e.value, fuel, phi); }
  }

  // ---- enough fuel is as good as more ----

  lemma {:induction false} Stable(e: Expr, fuel: nat, phi: Weights)
    requires Legal(e) && RunsFresh(e, fuel) && RunsFresh(e, fuel + 1) && W(e, phi) <= fuel
    ensures Normalise(e, fuel + 1) == Normalise(e, fuel)
    decreases fuel, Size(e), 1
  {
    match e
    case Atom(_) =>
    case VarE(_) =>
    case Node(_, es) => StableSeq(es, fuel, phi);
    case App(m, f, es) => AppUnfolds(m, f, es, phi); StableApp(m, f, es, fuel, phi);
    case Because(v, r) => Stable(v, fuel, phi); Stable(r, fuel, phi);
    case Bind(t) => StableTele(t, fuel, phi);
  }

  lemma {:induction false} StableSeq(es: seq<Expr>, fuel: nat, phi: Weights)
    requires LegalSeq(es) && RunsFreshSeq(es, fuel) && RunsFreshSeq(es, fuel + 1) && WSeq(es, phi) <= fuel
    ensures NormaliseSeq(es, fuel + 1) == NormaliseSeq(es, fuel)
    decreases fuel, SizeSeq(es), 2
  {
    if es != [] { Stable(es[0], fuel, phi); StableSeq(es[1..], fuel, phi); }
  }

  lemma {:induction false} StableApp(m: bool, f: Expr, es: seq<Expr>, fuel: nat, phi: Weights)
    requires Legal(App(m, f, es)) && RunsFreshApp(f, es, fuel) && RunsFreshApp(f, es, fuel + 1)
             && WApp(f, es, phi) <= fuel
    ensures NormaliseApp(f, es, fuel + 1) == NormaliseApp(f, es, fuel)
    decreases fuel, 1 + Size(f) + SizeSeq(es), 0
  {
    var g, vs := Normalise(f, fuel), NormaliseSeq(es, fuel);
    FunctionLighter(f, WEach(es, phi), phi);
    Stable(f, fuel, phi);
    StableSeq(es, fuel, phi);
    NormaliseLegal(f, fuel);
    NormaliseLegalSeq(es, fuel);
    if !AnyMutable(vs) && IsRedex(g, vs) {
      assert Size(f) == 1 + SizeTele(f.tele) && g == Bind(NormaliseTele(f.tele, fuel));
      FuncUnfolds(f, WEach(es, phi), phi);
      NormaliseLighterSeq(es, fuel, phi);
      NormaliseLighterRun(f.tele, WEach(vs, phi), fuel, phi);
      RunMonotone(f.tele, WEach(vs, phi), WEach(es, phi), phi);
      NormaliseLegalTele(f.tele, fuel);
      BetaEnd(g.tele, vs);
      BetaLegal(g.tele, vs);
      BetaLighter(g.tele, vs, phi);
      EndLighter(BetaTele(g.tele, vs), phi);
      StableBody(BetaTele(g.tele, vs).end.body.stmts, fuel - 1, phi);
    }
  }

  lemma FunctionLighter(f: Expr, ws: seq<nat>, phi: Weights)
    ensures W(f, phi) <= WFunc(f, ws, phi)
  {
    FuncUnfolds(f, ws, phi);
    if IsAbs(f) { RunMonotone(f.tele, [], ws, phi); }
  }

  lemma {:induction false} StableTele(t: Tele, fuel: nat, phi: Weights)
    requires LegalTele(t) && RunsFreshTele(t, fuel) && RunsFreshTele(t, fuel + 1) && WRun(t, [], phi) <= fuel
    ensures NormaliseTele(t, fuel + 1) == NormaliseTele(t, fuel)
    decreases fuel, SizeTele(t), 4
  {
    if t.args == [] {
      match t.end
      case SigmaEnd =>
      case PiEnd(_, r) => Stable(r, fuel, phi);
      case AbsEnd(_, r, b) => Stable(r, fuel, phi); StableBody(b.stmts, fuel, phi);
    } else {
      var a, rest := t.args[0], Rest(t);
      RunUnfolds(t, [], phi);
      Stable(a.ty, fuel, phi);
      StableTele(rest, fuel, WithWeight(a.name, 0, phi));
    }
  }

  lemma {:induction false} StableBody(ss: seq<Stmt>, fuel: nat, phi: Weights)
    requires LegalStmts(ss) && RunsFreshBody(ss, fuel) && RunsFreshBody(ss, fuel + 1) && WStmts(ss, phi) <= fuel
    ensures NormaliseBody(ss, fuel + 1) == NormaliseBody(ss, fuel)
    decreases fuel, SizeStmts(ss), 4
  {
    DropLegal(ss);
    DropLighter(ss, phi);
    StableStmts(Drop(ss), fuel, phi);
  }

  lemma {:induction false} StableStmts(ss: seq<Stmt>, fuel: nat, phi: Weights)
    requires LegalStmts(ss) && RunsFreshStmts(ss, fuel) && RunsFreshStmts(ss, fuel + 1) && WStmts(ss, phi) <= fuel
    ensures NormaliseStmts(ss, fuel + 1) == NormaliseStmts(ss, fuel)
    decreases fuel, SizeStmts(ss), 3
  {
    if ss != [] { StableStmt(ss[0], fuel, phi); StableStmts(ss[1..], fuel, phi); }
  }

  lemma {:induction false} StableStmt(s: Stmt, fuel: nat, phi: Weights)
    requires LegalStmt(s) && RunsFreshStmt(s, fuel) && RunsFreshStmt(s, fuel + 1) && WStmt(s, phi) <= fuel
    ensures NormaliseStmt(s, fuel + 1) == NormaliseStmt(s, fuel)
    decreases fuel, SizeStmt(s), 2
  {
    match s
    case Call(m, f, es) => AppUnfolds(m, f, es, phi); StableApp(m, f, es, fuel, phi);
    case IfElse(c, t, e) =>
      IfUnfolds(c, t, e, phi);
      Stable(c, fuel, phi);
      StableBody(t.stmts, fuel, phi);
      if e.Some? { StableBody(e.value.stmts, fuel, phi); }
    case Return(e) => if e.Some? { Stable(e.value, fuel, phi); }
    case Impossible(e) => if e.Some? { Stable(e.value, fuel, phi); }
  }

  // How deeply beta steps nest in a body, at most.
  function Enough(ss: seq<Stmt>): nat {
    WStmts(ss, map[])
  }

  /** Normalisation ends: with enough fuel the result is the one that any larger bound, and no bound at all, gives. */
  lemma {:induction false} NormalisationEnds(ss: seq<Stmt>, fuel: nat)
    requires LegalStmts(ss) && forall k :: RunsFreshBody(ss, k)
    requires fuel >= Enough(ss)
    ensures NormaliseBody(ss, fuel) == NormaliseBody(ss, Enough(ss))
    decreases fuel
  {
    if fuel > Enough(ss) {
      NormalisationEnds(ss, fuel - 1);
      StableBody(ss, fuel - 1, map[]);
    }
  }
}
