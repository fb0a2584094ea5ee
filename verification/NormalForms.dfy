/** What normalisation leaves: no beta step anywhere.

    The normal form is defined on terms, without the functions of the normaliser: at every position, in types, reasons
    and branches, no abstraction is applied to as many arguments as it takes if there is one and all are immutable, and
    no parameterless abstraction that only returns an expression stands applied in an expression. With enough fuel, and
    there is enough (`Termination.NormalisationEnds`), normalisation ends in one. */
module NormalForms {
  import opened Ast
  import opened Binders
  import opened Substitution
  import opened Semantics
  import opened Guarding
  import opened UnreachableCode
  import opened Normaliser
  import opened Legality
  import opened Depth
  import opened Termination
  import opened NormaliserTheorem
  import opened SourceClasses

  predicate Contractible(f: Expr, es: seq<Expr>) {
    es != [] && IsAbs(f) && |f.tele.args| == |es| && !AnyMutable(es)
  }

  // The body is `return e;` and nothing else.
  predicate Yields(t: Tele) {
    t.end.AbsEnd? && |t.end.body.stmts| == 1
    && t.end.body.stmts[0].Return? && t.end.body.stmts[0].value.Some?
  }

  predicate Extractable(f: Expr, es: seq<Expr>) {
    es == [] && f.Bind? && f.tele.args == [] && Yields(f.tele)
  }

  predicate BetaNormal(e: Expr)
    decreases Size(e), 0
  {
    match e
    case Atom(_) => true
    case VarE(_) => true
    case Node(_, es) => BetaNormalSeq(es)
    case App(_, f, es) => BetaNormal(f) && BetaNormalSeq(es) && !Contractible(f, es) && !Extractable(f, es)
    case Because(v, r) => BetaNormal(v) && BetaNormal(r)
    case Bind(t) => BetaNormalTele(t)
  }

  predicate BetaNormalSeq(es: seq<Expr>)
    decreases SizeSeq(es), 1
  {
    es != [] ==> BetaNormal(es[0]) && BetaNormalSeq(es[1..])
  }

  predicate BetaNormalTele(t: Tele)
    decreases SizeTele(t), 1
  {
    if t.args == [] then
      match t.end
      case SigmaEnd => true
      case PiEnd(_, r) => BetaNormal(r)
      case AbsEnd(_, r, b) => BetaNormal(r) && BetaNormalStmts(b.stmts)
    else
      var rest := Rest(t);
      BetaNormal(t.args[0].ty) && BetaNormalTele(rest)
  }

  predicate BetaNormalStmts(ss: seq<Stmt>)
    decreases SizeStmts(ss), 1
  {
    ss != [] ==> BetaNormalStmt(ss[0]) && BetaNormalStmts(ss[1..])
  }

  // A call is a statement, so that its function may only return.
  predicate BetaNormalStmt(s: Stmt)
    decreases SizeStmt(s), 0
  {
    match s
    case Call(_, f, es) => BetaNormal(f) && BetaNormalSeq(es) && !Contractible(f, es)
    case IfElse(c, t, e) =>
      BetaNormal(c) && BetaNormalStmts(t.stmts) && (e.Some? ==> BetaNormalStmts(e.value.stmts))
    case Return(e) => e.Some? ==> BetaNormal(e.value)
    case Impossible(e) => e.Some? ==> BetaNormal(e.value)
  }

  // ---- renaming and substitution make no step possible ----

  lemma {:induction false} ReplaceNormal(e: Expr, from: Var, to: Var)
    requires BetaNormal(e)
    ensures BetaNormal(Replace(from, to, e))
    decreases Size(e), 0
  {
    match e
    case Atom(_) =>
    case VarE(_) =>
    case Node(_, es) => ReplaceNormalSeq(es, from, to);
    case App(_, f, es) =>
      ReplaceNormal(f, from, to);
      ReplaceNormalSeq(es, from, to);
      ReplaceSteps(f, es, from, to);
    case Because(v, r) => ReplaceNormal(v, from, to); ReplaceNormal(r, from, to);
    case Bind(t) => ReplaceNormalTele(t, from, to);
  }

  lemma ReplaceSteps(f: Expr, es: seq<Expr>, from: Var, to: Var)
    ensures Contractible(Replace(from, to, f), ReplaceSeq(from, to, es)) == Contractible(f, es)
    ensures Extractable(Replace(from, to, f), ReplaceSeq(from, to, es)) == Extractable(f, es)
  {
    ReplaceLegal(f, from, to);
    ReplaceLegalSeq(es, from, to);
    if f.Bind? { ReplaceYields(f.tele, from, to); }
  }

  lemma {:induction false} ReplaceYields(t: Tele, from: Var, to: Var)
    ensures Yields(ReplaceTele(from, to, t)) == Yields(t)
    decreases |t.args|
  {
    if t.args != [] {
      ReplaceYields(Rest(t), from, to);
    } else if t.end.AbsEnd? && t.end.body.stmts != [] {
      assert ReplaceStmts(from, to, t.end.body.stmts)[0] == ReplaceStmt(from, to, t.end.body.stmts[0]);
    }
  }

  lemma {:induction false} ReplaceNormalSeq(es: seq<Expr>, from: Var, to: Var)
    requires BetaNormalSeq(es)
    ensures BetaNormalSeq(ReplaceSeq(from, to, es))
    decreases SizeSeq(es), 1
  {
    if es != [] { ReplaceNormal(es[0], from, to); ReplaceNormalSeq(es[1..], from, to); }
  }

  lemma {:induction false} ReplaceNormalTele(t: Tele, from: Var, to: Var)
    requires BetaNormalTele(t)
    ensures BetaNormalTele(ReplaceTele(from, to, t))
    decreases SizeTele(t), 1
  {
    if t.args == [] {
      match t.end
      case SigmaEnd =>
      case PiEnd(_, r) => ReplaceNormal(r, from, to);
      case AbsEnd(_, r, b) => ReplaceNormal(r, from, to); ReplaceNormalStmts(b.stmts, from, to);
    } else {
      var rest := Rest(t);
      ReplaceNormal(t.args[0].ty, from, to);
      ReplaceNormalTele(rest, from, to);
    }
  }

  lemma {:induction false} ReplaceNormalStmts(ss: seq<Stmt>, from: Var, to: Var)
    requires BetaNormalStmts(ss)
    ensures BetaNormalStmts(ReplaceStmts(from, to, ss))
    decreases SizeStmts(ss), 1
  {
    if ss != [] { ReplaceNormalStmt(ss[0], from, to); ReplaceNormalStmts(ss[1..], from, to); }
  }

  lemma {:induction false} ReplaceNormalStmt(s: Stmt, from: Var, to: Var)
    requires BetaNormalStmt(s)
    ensures BetaNormalStmt(ReplaceStmt(from, to, s))
    decreases SizeStmt(s), 0
  {
    match s
    case Call(_, f, es) =>
      ReplaceNormal(f, from, to);
      ReplaceNormalSeq(es, from, to);
      ReplaceSteps(f, es, from, to);
    case IfElse(c, t, e) =>
      ReplaceNormal(c, from, to);
      ReplaceNormalStmts(t.stmts, from, to);
      if e.Some? { ReplaceNormalStmts(e.value.stmts, from, to); }
    case Return(e) => if e.Some? { ReplaceNormal(e.value, from, to); }
    case Impossible(e) => if e.Some? { ReplaceNormal(e.value, from, to); }
  }

  // An immutable legal argument is no abstraction, and makes nothing mutable.
  lemma {:induction false} SubstNormal(e: Expr, x: Var, y: Expr)
    requires BetaNormal(e) && BetaNormal(y) && Pushable(y)
    ensures BetaNormal(Subst(x, y, e))
    decreases Size(e), 0
  {
    match e
    case Atom(_) =>
    case VarE(_) =>
    case Node(_, es) => SubstNormalSeq(es, x, y);
    case App(_, f, es) =>
      SubstNormal(f, x, y);
      SubstNormalSeq(es, x, y);
      SubstSteps(f, es, x, y);
    case Because(v, r) => SubstNormal(v, x, y); SubstNormal(r, x, y);
    case Bind(t) => SubstNormalTele(t, x, y);
  }

  lemma SubstSteps(f: Expr, es: seq<Expr>, x: Var, y: Expr)
    requires Pushable(y)
    ensures Contractible(Subst(x, y, f), SubstSeq(x, y, es)) == Contractible(f, es)
    ensures Extractable(Subst(x, y, f), SubstSeq(x, y, es)) == Extractable(f, es)
  {
    SubstLegal(f, x, y);
    SubstLegalSeq(es, x, y);
    if f.Bind? { SubstYields(f.tele, x, y); }
  }

  lemma {:induction false} SubstYields(t: Tele, x: Var, y: Expr)
    ensures Yields(SubstTele(x, y, t)) == Yields(t)
    decreases |t.args|
  {
    if t.args != [] {
      var name, rest := t.args[0].name, Rest(t);
      if name == Some(x) {
      } else if name.Some? && OccursIn(name.value, y, true) {
        var z := FreshVar(name.value, rest);
        ReplaceYields(rest, name.value, z);
        SubstYields(ReplaceTele(name.value, z, rest), x, y);
      } else {
        SubstYields(rest, x, y);
      }
    } else if t.end.AbsEnd? && t.end.body.stmts != [] {
      assert SubstStmts(x, y, t.end.body.stmts)[0] == SubstStmt(x, y, t.end.body.stmts[0]);
    }
  }

  lemma {:induction false} SubstNormalSeq(es: seq<Expr>, x: Var, y: Expr)
    requires BetaNormalSeq(es) && BetaNormal(y) && Pushable(y)
    ensures BetaNormalSeq(SubstSeq(x, y, es))
    decreases SizeSeq(es), 1
  {
    if es != [] { SubstNormal(es[0], x, y); SubstNormalSeq(es[1..], x, y); }
  }

  lemma {:induction false} SubstNormalTele(t: Tele, x: Var, y: Expr)
    requires BetaNormalTele(t) && BetaNormal(y) && Pushable(y)
    ensures BetaNormalTele(SubstTele(x, y, t))
    decreases SizeTele(t), 1
  {
    if t.args == [] {
      match t.end
      case SigmaEnd =>
      case PiEnd(_, r) => SubstNormal(r, x, y);
      case AbsEnd(_, r, b) => SubstNormal(r, x, y); SubstNormalStmts(b.stmts, x, y);
    } else {
      var name, rest := t.args[0].name, Rest(t);
      SubstNormal(t.args[0].ty, x, y);
      if name == Some(x) {
      } else if name.Some? && OccursIn(name.value, y, true) {
        var z := FreshVar(name.value, rest);
        ReplaceNormalTele(rest, name.value, z);
        SubstNormalTele(ReplaceTele(name.value, z, rest), x, y);
      } else {
        SubstNormalTele(rest, x, y);
      }
    }
  }

  lemma {:induction false} SubstNormalStmts(ss: seq<Stmt>, x: Var, y: Expr)
    requires BetaNormalStmts(ss) && BetaNormal(y) && Pushable(y)
    ensures BetaNormalStmts(SubstStmts(x, y, ss))
    decreases SizeStmts(ss), 1
  {
    if ss != [] { SubstNormalStmt(ss[0], x, y); SubstNormalStmts(ss[1..], x, y); }
  }

  lemma {:induction false} SubstNormalStmt(s: Stmt, x: Var, y: Expr)
    requires BetaNormalStmt(s) && BetaNormal(y) && Pushable(y)
    ensures BetaNormalStmt(SubstStmt(x, y, s))
    decreases SizeStmt(s), 0
  {
    match s
    case Call(_, f, es) =>
      SubstNormal(f, x, y);
      SubstNormalSeq(es, x, y);
      SubstSteps(f, es, x, y);
    case IfElse(c, t, e) =>
      SubstNormal(c, x, y);
      SubstNormalStmts(t.stmts, x, y);
      if e.Some? { SubstNormalStmts(e.value.stmts, x, y); }
    case Return(e) => if e.Some? { SubstNormal(e.value, x, y); }
    case Impossible(e) => if e.Some? { SubstNormal(e.value, x, y); }
  }

  // The return type that a step leaves is not normalised again: it need not be.
  lemma {:induction false} BetaNormalStep(t: Tele, values: seq<Expr>)
    requires |values| == |t.args| && BetaNormalTele(t) && BetaNormalSeq(values)
    requires LegalSeq(values) && !AnyMutable(values)
    ensures BetaNormalTele(BetaTele(t, values))
    decreases |t.args|
  {
    if t.args != [] {
      var name, rest := t.args[0].name, Rest(t);
      if name.Some? { SubstNormalTele(rest, name.value, values[0]); }
      BetaNormalStep(if name.Some? then SubstTele(name.value, values[0], rest) else rest, values[1..]);
    }
  }

  // ---- nor does dropping and splicing statements ----

  lemma {:induction false} NormalAppend(ss: seq<Stmt>, zs: seq<Stmt>)
    ensures BetaNormalStmts(ss + zs) <==> BetaNormalStmts(ss) && BetaNormalStmts(zs)
  {
    if ss == [] {
      assert ss + zs == zs;
    } else {
      assert (ss + zs)[0] == ss[0] && (ss + zs)[1..] == ss[1..] + zs;
      NormalAppend(ss[1..], zs);
    }
  }

  lemma {:induction false} DropNormal(ss: seq<Stmt>)
    requires BetaNormalStmts(ss)
    ensures BetaNormalStmts(Drop(ss))
    decreases SizeStmts(ss), 2
  {
    if ss != [] {
      DropUnfolds(ss);
      DropNormalStmt(ss[0]);
      if !IsTerminator(ss[0]) {
        DropNormal(ss[1..]);
        NormalAppend([DropInStmt(ss[0])], Drop(ss[1..]));
      }
    }
  }

  lemma {:induction false} DropNormalStmt(s: Stmt)
    requires BetaNormalStmt(s)
    ensures BetaNormalStmt(DropInStmt(s))
    decreases SizeStmt(s), 1
  {
    if s.IfElse? {
      DropNormal(s.thenB.stmts);
      if s.elseB.Some? { DropNormal(s.elseB.value.stmts); }
    }
  }

  lemma {:induction false} SecondPassNormal(ss: seq<Stmt>)
    requires BetaNormalStmts(ss)
    ensures BetaNormalStmts(SecondPass(ss))
    decreases SizeStmts(ss)
  {
    if ss != [] {
      match Look(ss[0], ss[1..])
      case Keep =>
        SecondPassNormal(ss[1..]);
        assert ([ss[0]] + SecondPass(ss[1..]))[1..] == SecondPass(ss[1..]);
      case Restart(next) =>
        LookNormal(ss[0], ss[1..]);
        SecondPassNormal(next);
    }
  }

  lemma LookNormal(s: Stmt, rest: seq<Stmt>)
    requires BetaNormalStmt(s) && BetaNormalStmts(rest) && Look(s, rest).Restart?
    ensures BetaNormalStmts(Look(s, rest).stmts)
  {
    if s.IfElse? {
      NormalAppend(s.thenB.stmts, rest);
      DropNormal(s.thenB.stmts);
      DropNormal(s.thenB.stmts + rest);
      if s.elseB.Some? {
        NormalAppend(s.elseB.value.stmts, rest);
        DropNormal(s.elseB.value.stmts + rest);
      }
    }
  }

  // ---- what normalisation with enough fuel leaves ----

  lemma {:induction false} NormaliseNormal(e: Expr, fuel: nat, phi: Weights)
    requires Legal(e) && RunsFresh(e, fuel) && W(e, phi) <= fuel
    ensures BetaNormal(Normalise(e, fuel))
    decreases fuel, Size(e), 1
  {
    match e
    case Atom(_) =>
    case VarE(_) =>
    case Node(_, es) => NormaliseNormalSeq(es, fuel, phi);
    case App(m, f, es) =>
      AppUnfolds(m, f, es, phi);
      NormaliseNormalApp(m, f, es, fuel, phi);
      ExtractNormal(m, NormaliseApp(f, es, fuel));
    case Because(v, r) => NormaliseNormal(v, fuel, phi); NormaliseNormal(r, fuel, phi);
    case Bind(t) => NormaliseNormalTele(t, fuel, phi);
  }

  lemma ExtractNormal(m: bool, app: (Expr, seq<Expr>))
    requires BetaNormal(app.0) && BetaNormalSeq(app.1) && !Contractible(app.0, app.1)
    ensures BetaNormal(Extract(m, app))
  {
    if IsAbs(app.0) { NormalEnd(app.0.tele); }
  }

  lemma {:induction false} NormalEnd(t: Tele)
    requires BetaNormalTele(t) && t.end.AbsEnd?
    ensures BetaNormalStmts(t.end.body.stmts)
    decreases |t.args|
  {
    if t.args != [] { NormalEnd(Rest(t)); }
  }

  lemma {:induction false} NormaliseNormalSeq(es: seq<Expr>, fuel: nat, phi: Weights)
    requires LegalSeq(es) && RunsFreshSeq(es, fuel) && WSeq(es, phi) <= fuel
    ensures BetaNormalSeq(NormaliseSeq(es, fuel))
    decreases fuel, SizeSeq(es), 2
  {
    if es != [] { NormaliseNormal(es[0], fuel, phi); NormaliseNormalSeq(es[1..], fuel, phi); }
  }

  // An abstraction applied weighs at least 1, so that a step is never left for want of fuel.
  lemma {:induction false} NormaliseNormalApp(m: bool, f: Expr, es: seq<Expr>, fuel: nat, phi: Weights)
    requires Legal(App(m, f, es)) && RunsFreshApp(f, es, fuel) && WApp(f, es, phi) <= fuel
    ensures var (g, vs) := NormaliseApp(f, es, fuel);
            BetaNormal(g) && BetaNormalSeq(vs) && !Contractible(g, vs)
    decreases fuel, 1 + Size(f) + SizeSeq(es), 0
  {
    var g, vs := Normalise(f, fuel), NormaliseSeq(es, fuel);
    FunctionLighter(f, WEach(es, phi), phi);
    NormaliseNormal(f, fuel, phi);
    NormaliseNormalSeq(es, fuel, phi);
    NormaliseLegal(f, fuel);
    NormaliseLegalSeq(es, fuel);
    if Contractible(g, vs) {
      assert Size(f) == 1 + SizeTele(f.tele) && g == Bind(NormaliseTele(f.tele, fuel));
      FuncUnfolds(f, WEach(es, phi), phi);
      NormaliseLighterSeq(es, fuel, phi);
      NormaliseLighterRun(f.tele, WEach(vs, phi), fuel, phi);
      RunMonotone(f.tele, WEach(vs, phi), WEach(es, phi), phi);
      NormaliseLegalTele(f.tele, fuel);
      BetaEnd(g.tele, vs);
      ContractedNormal(g.tele, vs, fuel, phi);
    }
  }

  lemma {:induction false} ContractedNormal(t: Tele, vs: seq<Expr>, fuel: nat, phi: Weights)
    requires fuel > 0 && t.end.AbsEnd? && |t.args| == |vs| && LegalTele(t) && LegalSeq(vs) && !AnyMutable(vs)
             && BetaOk(t, vs)
    requires BetaTele(t, vs).end.AbsEnd? && RunsFreshBody(BetaTele(t, vs).end.body.stmts, fuel - 1)
    requires BetaNormalTele(t) && BetaNormalSeq(vs) && WRun(t, WEach(vs, phi), phi) < fuel
    ensures var end := BetaTele(t, vs).end;
            BetaNormal(Bind(Tele([], AbsEnd(end.isMutable, end.ret, Body(NormaliseBody(end.body.stmts, fuel - 1))))))
    decreases fuel, 0, 0
  {
    var u := BetaTele(t, vs);
    BetaLegal(t, vs);
    BetaLighter(t, vs, phi);
    EndLighter(u, phi);
    NormaliseNormalBody(u.end.body.stmts, fuel - 1, phi);
    BetaNormalStep(t, vs);
    assert u == Tele([], u.end);
  }

  lemma {:induction false} NormaliseNormalTele(t: Tele, fuel: nat, phi: Weights)
    requires LegalTele(t) && RunsFreshTele(t, fuel) && WRun(t, [], phi) <= fuel
    ensures BetaNormalTele(NormaliseTele(t, fuel))
    decreases fuel, SizeTele(t), 4
  {
    if t.args == [] {
      match t.end
      case SigmaEnd =>
      case PiEnd(_, r) => NormaliseNormal(r, fuel, phi);
      case AbsEnd(_, r, b) => NormaliseNormal(r, fuel, phi); NormaliseNormalBody(b.stmts, fuel, phi);
    } else {
      var a, rest := t.args[0], Rest(t);
      RunUnfolds(t, [], phi);
      NormaliseNormal(a.ty, fuel, phi);
      NormaliseNormalTele(rest, fuel, WithWeight(a.name, 0, phi));
    }
  }

  lemma {:induction false} NormaliseNormalBody(ss: seq<Stmt>, fuel: nat, phi: Weights)
    requires LegalStmts(ss) && RunsFreshBody(ss, fuel) && WStmts(ss, phi) <= fuel
    ensures BetaNormalStmts(NormaliseBody(ss, fuel))
    decreases fuel, SizeStmts(ss), 4
  {
    DropLegal(ss);
    DropLighter(ss, phi);
    NormaliseNormalStmts(Drop(ss), fuel, phi);
    SecondPassNormal(NormaliseStmts(Drop(ss), fuel));
  }

  lemma {:induction false} NormaliseNormalStmts(ss: seq<Stmt>, fuel: nat, phi: Weights)
    requires LegalStmts(ss) && RunsFreshStmts(ss, fuel) && WStmts(ss, phi) <= fuel
    ensures BetaNormalStmts(NormaliseStmts(ss, fuel))
    decreases fuel, SizeStmts(ss), 3
  {
    if ss != [] { NormaliseNormalStmt(ss[0], fuel, phi); NormaliseNormalStmts(ss[1..], fuel, phi); }
  }

  lemma {:induction false} NormaliseNormalStmt(s: Stmt, fuel: nat, phi: Weights)
    requires LegalStmt(s) && RunsFreshStmt(s, fuel) && WStmt(s, phi) <= fuel
    ensures BetaNormalStmt(NormaliseStmt(s, fuel))
    decreases fuel, SizeStmt(s), 2
  {
    match s
    case Call(m, f, es) => AppUnfolds(m, f, es, phi); NormaliseNormalApp(m, f, es, fuel, phi);
    case IfElse(c, t, e) =>
      IfUnfolds(c, t, e, phi);
      NormaliseNormal(c, fuel, phi);
      NormaliseNormalBody(t.stmts, fuel, phi);
      if e.Some? { NormaliseNormalBody(e.value.stmts, fuel, phi); }
    case Return(e) => if e.Some? { NormaliseNormal(e.value, fuel, phi); }
    case Impossible(e) => if e.Some? { NormaliseNormal(e.value, fuel, phi); }
  }

  /** With enough fuel, and always without a bound, the result allows no beta step. */
  lemma NoStepLeft(ss: seq<Stmt>, fuel: nat)
    requires LegalStmts(ss) && RunsFreshBody(ss, fuel) && fuel >= Enough(ss)
    ensures BetaNormalStmts(NormaliseBody(ss, fuel))
  {
    NormaliseNormalBody(ss, fuel, map[]);
  }

  // The same for bodies whose names can be checked as written, with nothing asked of the run.
  lemma NoStepLeftInTame(ss: seq<Stmt>, fuel: nat)
    requires LegalStmts(ss) && TameStmts(Anything, ss) && fuel >= Enough(ss)
    ensures BetaNormalStmts(NormaliseBody(ss, fuel))
  {
    NormaliseTameBody(Anything, ss, fuel);
    NoStepLeft(ss, fuel);
  }

  // ---- statements, at any depth ----

  // Every call has an effect, and every condition can go either way as far as can be judged.
  predicate Trim(ss: seq<Stmt>)
    decreases SizeStmts(ss), 1
  {
    ss != [] ==> ReducedStmt(ss[0]) && TrimBelow(ss[0]) && Trim(ss[1..])
  }

  predicate TrimBelow(s: Stmt)
    decreases SizeStmt(s), 0
  {
    s.IfElse? ==> Trim(s.thenB.stmts) && (s.elseB.Some? ==> Trim(s.elseB.value.stmts))
  }

  predicate TrimBranches(ss: seq<Stmt>) {
    forall i :: 0 <= i < |ss| ==> TrimBelow(ss[i])
  }

  lemma {:induction false} TrimHasTrimBranches(ss: seq<Stmt>)
    requires Trim(ss)
    ensures TrimBranches(ss)
  {
    if ss != [] { TrimHasTrimBranches(ss[1..]); }
  }

  // What is dropped cannot make the rest impossible.
  lemma {:induction false} DropImpossible(ss: seq<Stmt>)
    requires ImpossibleRange(Drop(ss))
    ensures ImpossibleRange(ss)
    decreases SizeStmts(ss), 1
  {
    DropUnfolds(ss);
    assert IsTerminator(ss[0]) ==> Drop(ss)[1..] == [];
    assert !IsTerminator(ss[0]) ==> Drop(ss)[1..] == Drop(ss[1..]);
    if ImpossibleStmt(DropInStmt(ss[0])) {
      DropImpossibleStmt(ss[0]);
    } else {
      DropImpossible(ss[1..]);
      if ss[0].IfElse? && ImpossibleRange(Drop(ss[0].thenB.stmts)) { DropImpossible(ss[0].thenB.stmts); }
    }
  }

  lemma {:induction false} DropImpossibleStmt(s: Stmt)
    requires ImpossibleStmt(DropInStmt(s))
    ensures ImpossibleStmt(s)
    decreases SizeStmt(s), 0
  {
    if s.IfElse? && !IsImpossible(s.cond) {
      DropImpossible(s.thenB.stmts);
      DropImpossible(s.elseB.value.stmts);
    }
  }

  lemma {:induction false} DropTrim(ss: seq<Stmt>)
    requires TrimBranches(ss)
    ensures TrimBranches(Drop(ss)) && (Trim(ss) ==> Trim(Drop(ss)))
    decreases SizeStmts(ss), 1
  {
    if ss != [] {
      DropUnfolds(ss);
      DropTrimStmt(ss[0]);
      if IsTerminator(ss[0]) {
        assert Drop(ss)[1..] == [];
      } else {
        DropTrim(ss[1..]);
        assert Drop(ss)[1..] == Drop(ss[1..]);
      }
    }
  }

  lemma {:induction false} DropTrimStmt(s: Stmt)
    requires TrimBelow(s)
    ensures TrimBelow(DropInStmt(s)) && (ReducedStmt(s) ==> ReducedStmt(DropInStmt(s)))
    decreases SizeStmt(s), 0
  {
    if s.IfElse? {
      TrimHasTrimBranches(s.thenB.stmts);
      DropTrim(s.thenB.stmts);
      if ImpossibleRange(Drop(s.thenB.stmts)) { DropImpossible(s.thenB.stmts); }
      if s.elseB.Some? {
        TrimHasTrimBranches(s.elseB.value.stmts);
        DropTrim(s.elseB.value.stmts);
        if ImpossibleRange(Drop(s.elseB.value.stmts)) { DropImpossible(s.elseB.value.stmts); }
      }
    }
  }

  lemma LookTrim(s: Stmt, rest: seq<Stmt>)
    requires TrimBelow(s) && TrimBranches(rest)
    ensures Look(s, rest).Restart? ==> TrimBranches(Look(s, rest).stmts)
    ensures Look(s, rest).Keep? ==> ReducedStmt(s)
  {
    if s.IfElse? {
      TrimHasTrimBranches(s.thenB.stmts);
      DropTrim(s.thenB.stmts);
      DropTrim(s.thenB.stmts + rest);
      if s.elseB.Some? {
        TrimHasTrimBranches(s.elseB.value.stmts);
        DropTrim(s.elseB.value.stmts + rest);
      }
    }
  }

  lemma {:induction false} SecondPassTrim(ss: seq<Stmt>)
    requires TrimBranches(ss)
    ensures Trim(SecondPass(ss))
    decreases SizeStmts(ss)
  {
    if ss != [] {
      LookTrim(ss[0], ss[1..]);
      match Look(ss[0], ss[1..])
      case Keep =>
        SecondPassTrim(ss[1..]);
        assert ([ss[0]] + SecondPass(ss[1..]))[1..] == SecondPass(ss[1..]);
      case Restart(next) => SecondPassTrim(next);
    }
  }

  /** Whatever the fuel, and whatever the names: no call without effects, no constant condition and no impossible
      branch of an immutable condition is left, at any depth. */
  lemma {:induction false} TrimLeft(ss: seq<Stmt>, fuel: nat)
    ensures Trim(NormaliseBody(ss, fuel))
    decreases SizeStmts(ss), 1
  {
    TrimLeftBelow(Drop(ss), fuel);
    SecondPassTrim(NormaliseStmts(Drop(ss), fuel));
  }

  lemma {:induction false} TrimLeftBelow(ss: seq<Stmt>, fuel: nat)
    ensures TrimBranches(NormaliseStmts(ss, fuel))
    decreases SizeStmts(ss), 0
  {
    if ss != [] {
      TrimLeftBelow(ss[1..], fuel);
      assert SizeStmts(ss) == SizeStmt(ss[0]) + SizeStmts(ss[1..]);
      if ss[0].IfElse? {
        TrimLeft(ss[0].thenB.stmts, fuel);
        if ss[0].elseB.Some? { TrimLeft(ss[0].elseB.value.stmts, fuel); }
      }
    }
  }

  // ---- an `if` whose implicit else is impossible ----

  // No condition at the top is a constant.
  predicate NoConstant(ss: seq<Stmt>) {
    forall i :: 0 <= i < |ss| && ss[i].IfElse? ==> !IsConst(ss[i].cond)
  }

  // What follows an `if` without else and an immutable condition can be entered, as far as can be judged.
  predicate NothingToLift(ss: seq<Stmt>) {
    forall i :: 0 <= i < |ss| && ss[i].IfElse? && ss[i].elseB.None? && !IsMutable(ss[i].cond) ==>
      !ImpossibleRange(ss[i + 1..])
  }

  lemma {:induction false} ImpossibleInOne(ss: seq<Stmt>, zs: seq<Stmt>)
    requires ImpossibleRange(ss + zs)
    ensures ImpossibleRange(ss) || ImpossibleRange(zs)
  {
    if ss == [] {
      assert ss + zs == zs;
    } else {
      assert (ss + zs)[0] == ss[0] && (ss + zs)[1..] == ss[1..] + zs;
      if !ImpossibleStmt(ss[0]) { ImpossibleInOne(ss[1..], zs); }
    }
  }

  // A step of the second pass makes nothing impossible, but by entering what stands below a constant.
  lemma LookImpossible(s: Stmt, rest: seq<Stmt>)
    requires (s.IfElse? ==> !IsConst(s.cond)) && Look(s, rest).Restart? && ImpossibleRange(Look(s, rest).stmts)
    ensures ImpossibleRange([s] + rest)
  {
    assert ([s] + rest)[0] == s && ([s] + rest)[1..] == rest;
    if s.IfElse? && s.elseB.Some? {
      var branch := if ImpossibleRange(s.thenB.stmts) then s.elseB.value.stmts else s.thenB.stmts;
      DropImpossible(branch + rest);
      ImpossibleInOne(branch, rest);
    } else if s.IfElse? && !ImpossibleRange(s.thenB.stmts) {
      DropImpossible(s.thenB.stmts);
    }
  }

  lemma LookConstant(s: Stmt, rest: seq<Stmt>)
    requires SettledStmt(s) && Settled(rest) && Look(s, rest).Restart?
    ensures Settled(Look(s, rest).stmts)
  {
    if s.IfElse? {
      SettledAppend(s.thenB.stmts, rest);
      SettledDrop(s.thenB.stmts);
      SettledDrop(s.thenB.stmts + rest);
      if s.elseB.Some? {
        SettledAppend(s.elseB.value.stmts, rest);
        SettledDrop(s.elseB.value.stmts + rest);
      }
    }
  }

  lemma SettledDrop(ss: seq<Stmt>)
    requires Settled(ss)
    ensures Settled(Drop(ss))
  {
    SettledHasSettledBranches(ss);
    DropSettled(ss);
  }

  lemma {:induction false} SettledAppend(ss: seq<Stmt>, zs: seq<Stmt>)
    requires Settled(ss) && Settled(zs)
    ensures Settled(ss + zs)
  {
    if ss == [] {
      assert ss + zs == zs;
    } else {
      assert (ss + zs)[0] == ss[0] && (ss + zs)[1..] == ss[1..] + zs;
      SettledAppend(ss[1..], zs);
    }
  }

  lemma {:induction false} SecondPassImpossible(ss: seq<Stmt>)
    requires Settled(ss) && ImpossibleRange(SecondPass(ss))
    ensures ImpossibleRange(ss)
    decreases SizeStmts(ss)
  {
    if ss != [] {
      assert ss == [ss[0]] + ss[1..];
      match Look(ss[0], ss[1..])
      case Keep =>
        var r := SecondPass(ss);
        assert r[0] == ss[0] && r[1..] == SecondPass(ss[1..]);
        if !ImpossibleStmt(ss[0]) { SecondPassImpossible(ss[1..]); }
      case Restart(next) =>
        LookConstant(ss[0], ss[1..]);
        SecondPassImpossible(next);
        LookImpossible(ss[0], ss[1..]);
    }
  }

  lemma {:induction false} SecondPassLifts(ss: seq<Stmt>)
    requires Settled(ss)
    ensures NothingToLift(SecondPass(ss))
    decreases SizeStmts(ss)
  {
    if ss != [] {
      match Look(ss[0], ss[1..])
      case Keep =>
        var rest, r := SecondPass(ss[1..]), SecondPass(ss);
        SecondPassLifts(ss[1..]);
        assert r == [ss[0]] + rest;
        if ImpossibleRange(rest) { SecondPassImpossible(ss[1..]); }
        forall i | 0 <= i < |r| && r[i].IfElse? && r[i].elseB.None? && !IsMutable(r[i].cond)
          ensures !ImpossibleRange(r[i + 1..])
        {
          if i > 0 { assert r[i] == rest[i - 1] && r[i + 1..] == rest[i..]; } else { assert r[1..] == rest; }
        }
      case Restart(next) =>
        LookConstant(ss[0], ss[1..]);
        SecondPassLifts(next);
    }
  }

  /** Where no condition has become a constant, nothing is left that could be lifted. */
  lemma LiftsAll(ss: seq<Stmt>, fuel: nat)
    requires NoConstant(NormaliseStmts(Drop(ss), fuel))
    ensures NothingToLift(NormaliseBody(ss, fuel))
  {
    StmtsSettled(Drop(ss), fuel);
    BranchesSettle(NormaliseStmts(Drop(ss), fuel));
    SecondPassLifts(NormaliseStmts(Drop(ss), fuel));
  }

  lemma {:induction false} BranchesSettle(ss: seq<Stmt>)
    requires NoConstant(ss) && SettledBranches(ss)
    ensures Settled(ss)
  {
    if ss != [] {
      assert forall i :: 0 <= i < |ss[1..]| ==> ss[1..][i] == ss[i + 1];
      BranchesSettle(ss[1..]);
    }
  }

  /** Statements that cannot be reached make no difference. */
  lemma UnreachableIgnored(ss: seq<Stmt>, more: seq<Stmt>, fuel: nat)
    requires ReturnsFromAllBranches(ss)
    ensures NormaliseBody(ss + more, fuel) == NormaliseBody(ss, fuel) == NormaliseBody(Drop(ss), fuel)
  {
    DropStopsAt(ss, more);
    DropIdempotent(ss);
  }
}
