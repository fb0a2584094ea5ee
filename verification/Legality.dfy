/** Normalisation keeps terms legal, never makes an immutable term mutable, and keeps quiet bodies quiet. */
module Legality {
  import opened Ast
  import opened Binders
  import opened Substitution
  import opened Semantics
  import opened Guarding
  import opened UnreachableCode
  import opened Normaliser

  predicate QuietEnd(t: Tele) {
    t.end.AbsEnd? ==> Quiet(t.end.body.stmts)
  }

  // ---- renaming ----

  lemma {:induction false} ReplaceLegal(e: Expr, from: Var, to: Var)
    ensures Legal(e) ==> Legal(Replace(from, to, e))
    ensures IsMutable(Replace(from, to, e)) == IsMutable(e) && IsAbs(Replace(from, to, e)) == IsAbs(e)
    decreases Size(e), 0
  {
    match e
    case Atom(_) =>
    case VarE(_) =>
    case Node(_, es) => ReplaceLegalSeq(es, from, to);
    case App(_, f, es) =>
      ReplaceLegal(f, from, to);
      ReplaceLegalSeq(es, from, to);
      if IsAbs(f) { assert Size(f) == 1 + SizeTele(f.tele); ReplaceLegalTele(f.tele, from, to); }
    case Because(v, r) => ReplaceLegal(v, from, to); ReplaceLegal(r, from, to);
    case Bind(t) => ReplaceLegalTele(t, from, to);
  }

  lemma {:induction false} ReplaceLegalSeq(es: seq<Expr>, from: Var, to: Var)
    ensures LegalSeq(es) ==> LegalSeq(ReplaceSeq(from, to, es))
    ensures AnyMutable(ReplaceSeq(from, to, es)) == AnyMutable(es)
    decreases SizeSeq(es), 1
  {
    if es != [] { ReplaceLegal(es[0], from, to); ReplaceLegalSeq(es[1..], from, to); }
  }

  lemma {:induction false} ReplaceLegalTele(t: Tele, from: Var, to: Var)
    ensures LegalTele(t) ==> LegalTele(ReplaceTele(from, to, t))
    ensures ReplaceTele(from, to, t).end.AbsEnd? == t.end.AbsEnd?
    ensures QuietEnd(ReplaceTele(from, to, t)) == QuietEnd(t)
    decreases SizeTele(t), 1
  {
    if t.args == [] {
      match t.end
      case SigmaEnd =>
      case PiEnd(_, r) => ReplaceLegal(r, from, to);
      case AbsEnd(_, r, b) => ReplaceLegal(r, from, to); ReplaceLegalStmts(b.stmts, from, to);
    } else {
      var rest := Rest(t);
      ReplaceLegal(t.args[0].ty, from, to);
      ReplaceLegalTele(rest, from, to);
    }
  }

  lemma {:induction false} ReplaceLegalStmts(ss: seq<Stmt>, from: Var, to: Var)
    ensures LegalStmts(ss) ==> LegalStmts(ReplaceStmts(from, to, ss))
    ensures Quiet(ReplaceStmts(from, to, ss)) == Quiet(ss)
    decreases SizeStmts(ss), 2
  {
    if ss != [] { ReplaceLegalStmt(ss[0], from, to); ReplaceLegalStmts(ss[1..], from, to); }
  }

  lemma {:induction false} ReplaceLegalStmt(s: Stmt, from: Var, to: Var)
    ensures LegalStmt(s) ==> LegalStmt(ReplaceStmt(from, to, s))
    ensures QuietStmt(ReplaceStmt(from, to, s)) == QuietStmt(s)
    decreases SizeStmt(s), 1
  {
    match s
    case Call(m, f, es) => ReplaceLegal(App(m, f, es), from, to);
    case IfElse(c, t, e) =>
      ReplaceLegal(c, from, to);
      ReplaceLegalStmts(t.stmts, from, to);
      if e.Some? { ReplaceLegalStmts(e.value.stmts, from, to); }
    case Return(e) => if e.Some? { ReplaceLegal(e.value, from, to); }
    case Impossible(e) => if e.Some? { ReplaceLegal(e.value, from, to); }
  }

  // ---- substitution ----

  predicate Pushable(y: Expr) {
    Legal(y) && !IsMutable(y) && !IsAbs(y)
  }

  lemma {:induction false} SubstLegal(e: Expr, x: Var, y: Expr)
    requires Pushable(y)
    ensures Legal(e) ==> Legal(Subst(x, y, e))
    ensures IsMutable(Subst(x, y, e)) == IsMutable(e) && IsAbs(Subst(x, y, e)) == IsAbs(e)
    decreases Size(e), 0
  {
    match e
    case Atom(_) =>
    case VarE(_) =>
    case Node(_, es) => SubstLegalSeq(es, x, y);
    case App(_, f, es) =>
      SubstLegal(f, x, y);
      SubstLegalSeq(es, x, y);
      if IsAbs(f) { assert Size(f) == 1 + SizeTele(f.tele); SubstLegalTele(f.tele, x, y); }
    case Because(v, r) => SubstLegal(v, x, y); SubstLegal(r, x, y);
    case Bind(t) => SubstLegalTele(t, x, y);
  }

  lemma {:induction false} SubstLegalSeq(es: seq<Expr>, x: Var, y: Expr)
    requires Pushable(y)
    ensures LegalSeq(es) ==> LegalSeq(SubstSeq(x, y, es))
    ensures AnyMutable(SubstSeq(x, y, es)) == AnyMutable(es)
    decreases SizeSeq(es), 1
  {
    if es != [] { SubstLegal(es[0], x, y); SubstLegalSeq(es[1..], x, y); }
  }

  lemma {:induction false} SubstLegalTele(t: Tele, x: Var, y: Expr)
    requires Pushable(y)
    ensures LegalTele(t) ==> LegalTele(SubstTele(x, y, t))
    ensures SubstTele(x, y, t).end.AbsEnd? == t.end.AbsEnd?
    ensures QuietEnd(SubstTele(x, y, t)) == QuietEnd(t)
    decreases SizeTele(t), 1
  {
    if t.args == [] {
      match t.end
      case SigmaEnd =>
      case PiEnd(_, r) => SubstLegal(r, x, y);
      case AbsEnd(_, r, b) => SubstLegal(r, x, y); SubstLegalStmts(b.stmts, x, y);
    } else {
      var name, rest := t.args[0].name, Rest(t);
      SubstLegal(t.args[0].ty, x, y);
      if name == Some(x) {
      } else if name.Some? && OccursIn(name.value, y, true) {
        var z := FreshVar(name.value, rest);
        ReplaceLegalTele(rest, name.value, z);
        SubstLegalTele(ReplaceTele(name.value, z, rest), x, y);
      } else {
        SubstLegalTele(rest, x, y);
      }
    }
  }

  lemma {:induction false} SubstLegalStmts(ss: seq<Stmt>, x: Var, y: Expr)
    requires Pushable(y)
    ensures LegalStmts(ss) ==> LegalStmts(SubstStmts(x, y, ss))
    ensures Quiet(SubstStmts(x, y, ss)) == Quiet(ss)
    decreases SizeStmts(ss), 2
  {
    if ss != [] { SubstLegalStmt(ss[0], x, y); SubstLegalStmts(ss[1..], x, y); }
  }

  lemma {:induction false} SubstLegalStmt(s: Stmt, x: Var, y: Expr)
    requires Pushable(y)
    ensures LegalStmt(s) ==> LegalStmt(SubstStmt(x, y, s))
    ensures QuietStmt(SubstStmt(x, y, s)) == QuietStmt(s)
    decreases SizeStmt(s), 1
  {
    match s
    case Call(m, f, es) =>
      SubstLegal(App(m, f, es), x, y);
      assert Subst(x, y, App(m, f, es)) == App(m, Subst(x, y, f), SubstSeq(x, y, es));
    case IfElse(c, t, e) =>
      SubstLegal(c, x, y);
      SubstLegalStmts(t.stmts, x, y);
      if e.Some? { SubstLegalStmts(e.value.stmts, x, y); }
    case Return(e) => if e.Some? { SubstLegal(e.value, x, y); }
    case Impossible(e) => if e.Some? { SubstLegal(e.value, x, y); }
  }

  lemma {:induction false} BetaLegal(t: Tele, values: seq<Expr>)
    requires |values| == |t.args| && LegalTele(t) && LegalSeq(values) && !AnyMutable(values)
    ensures LegalTele(BetaTele(t, values)) && QuietEnd(BetaTele(t, values)) == QuietEnd(t)
    decreases |t.args|
  {
    if t.args != [] {
      var name, rest := t.args[0].name, Rest(t);
      if name.Some? { SubstLegalTele(rest, name.value, values[0]); }
      BetaLegal(if name.Some? then SubstTele(name.value, values[0], rest) else rest, values[1..]);
    }
  }

  // ---- statement lists ----

  lemma {:induction false} LegalAppend(ss: seq<Stmt>, zs: seq<Stmt>)
    ensures LegalStmts(ss + zs) <==> LegalStmts(ss) && LegalStmts(zs)
    ensures Quiet(ss + zs) <==> Quiet(ss) && Quiet(zs)
  {
    if ss == [] {
      assert ss + zs == zs;
    } else {
      assert (ss + zs)[0] == ss[0] && (ss + zs)[1..] == ss[1..] + zs;
      LegalAppend(ss[1..], zs);
    }
  }

  lemma {:induction false} DropLegal(ss: seq<Stmt>)
    requires LegalStmts(ss)
    ensures LegalStmts(Drop(ss)) && (Quiet(ss) ==> Quiet(Drop(ss)))
    decreases SizeStmts(ss), 2
  {
    if ss != [] {
      DropUnfolds(ss);
      DropLegalStmt(ss[0]);
      if !IsTerminator(ss[0]) {
        DropLegal(ss[1..]);
        LegalAppend([DropInStmt(ss[0])], Drop(ss[1..]));
      }
    }
  }

  lemma {:induction false} DropLegalStmt(s: Stmt)
    requires LegalStmt(s)
    ensures LegalStmt(DropInStmt(s)) && (QuietStmt(s) ==> QuietStmt(DropInStmt(s)))
    decreases SizeStmt(s), 1
  {
    if s.IfElse? {
      DropLegal(s.thenB.stmts);
      if s.elseB.Some? { DropLegal(s.elseB.value.stmts); }
    }
  }

  lemma {:induction false} SecondPassLegal(ss: seq<Stmt>)
    requires LegalStmts(ss)
    ensures LegalStmts(SecondPass(ss)) && (Quiet(ss) ==> Quiet(SecondPass(ss)))
    decreases SizeStmts(ss)
  {
    if ss != [] {
      match Look(ss[0], ss[1..])
      case Keep =>
        SecondPassLegal(ss[1..]);
        assert ([ss[0]] + SecondPass(ss[1..]))[1..] == SecondPass(ss[1..]);
      case Restart(next) =>
        LookLegal(ss[0], ss[1..]);
        SecondPassLegal(next);
    }
  }

  lemma LookLegal(s: Stmt, rest: seq<Stmt>)
    requires LegalStmt(s) && LegalStmts(rest) && Look(s, rest).Restart?
    ensures var next := Look(s, rest).stmts;
            LegalStmts(next) && (QuietStmt(s) && Quiet(rest) ==> Quiet(next))
  {
    if s.IfElse? {
      LegalAppend(s.thenB.stmts, rest);
      DropLegal(s.thenB.stmts);
      DropLegal(s.thenB.stmts + rest);
      if s.elseB.Some? {
        LegalAppend(s.elseB.value.stmts, rest);
        DropLegal(s.elseB.value.stmts + rest);
      }
    }
  }

  // ---- normalisation ----

  lemma {:induction false} NormaliseLegal(e: Expr, fuel: nat)
    requires Legal(e)
    ensures var r := Normalise(e, fuel);
            Legal(r) && (IsMutable(r) ==> IsMutable(e)) && (IsAbs(r) ==> IsAbs(e))
    decreases fuel, Size(e), 1
  {
    match e
    case Atom(_) =>
    case VarE(_) =>
    case Node(_, es) => NormaliseLegalSeq(es, fuel);
    case App(m, f, es) =>
      NormaliseLegalApp(m, f, es, fuel);
      ExtractLegal(m, NormaliseApp(f, es, fuel));
    case Because(v, r) => NormaliseLegal(v, fuel); NormaliseLegal(r, fuel);
    case Bind(t) => NormaliseLegalTele(t, fuel);
  }

  lemma {:induction false} NormaliseLegalSeq(es: seq<Expr>, fuel: nat)
    requires LegalSeq(es)
    ensures LegalSeq(NormaliseSeq(es, fuel)) && (AnyMutable(NormaliseSeq(es, fuel)) ==> AnyMutable(es))
    decreases fuel, SizeSeq(es), 2
  {
    if es != [] { NormaliseLegal(es[0], fuel); NormaliseLegalSeq(es[1..], fuel); }
  }

  lemma {:induction false} NormaliseLegalApp(m: bool, f: Expr, es: seq<Expr>, fuel: nat)
    requires Legal(App(m, f, es))
    ensures var (g, vs) := NormaliseApp(f, es, fuel);
            Legal(App(m, g, vs)) && (IsMutable(App(m, g, vs)) ==> IsMutable(App(m, f, es))) && (IsAbs(g) ==> IsAbs(f))
    decreases fuel, 1 + Size(f) + SizeSeq(es), 0
  {
    var g, vs := Normalise(f, fuel), NormaliseSeq(es, fuel);
    NormaliseLegal(f, fuel);
    NormaliseLegalSeq(es, fuel);
    if IsAbs(g) {
      assert Size(f) == 1 + SizeTele(f.tele);
      NormaliseLegalTele(f.tele, fuel);
      assert g == Bind(NormaliseTele(f.tele, fuel));
      if !(AnyMutable(vs) || !IsRedex(g, vs) || fuel == 0) {
        BetaEnd(g.tele, vs);
        BetaLegal(g.tele, vs);
        NormaliseLegalBody(BetaTele(g.tele, vs).end.body.stmts, fuel - 1);
        assert NormaliseApp(f, es, fuel).1 == [] && !AnyMutable([]);
      }
    }
  }

  lemma ExtractLegal(m: bool, app: (Expr, seq<Expr>))
    requires Legal(App(m, app.0, app.1))
    ensures var r := Extract(m, app);
            Legal(r) && !IsAbs(r) && (IsMutable(r) ==> IsMutable(App(m, app.0, app.1)))
  {
    if IsAbs(app.0) {
      LegalEnd(app.0.tele);
      var body := app.0.tele.end.body.stmts;
      if |body| == 1 { assert LegalStmt(body[0]) && (!m ==> QuietStmt(body[0])); }
    }
  }

  lemma {:induction false} NormaliseLegalTele(t: Tele, fuel: nat)
    requires LegalTele(t)
    ensures var r := NormaliseTele(t, fuel);
            LegalTele(r) && r.end.AbsEnd? == t.end.AbsEnd? && (QuietEnd(t) ==> QuietEnd(r))
    decreases fuel, SizeTele(t), 4
  {
    if t.args == [] {
      match t.end
      case SigmaEnd =>
      case PiEnd(_, r) => NormaliseLegal(r, fuel);
      case AbsEnd(_, r, b) => NormaliseLegal(r, fuel); NormaliseLegalBody(b.stmts, fuel);
    } else {
      var rest := Rest(t);
      NormaliseLegal(t.args[0].ty, fuel);
      NormaliseLegalTele(rest, fuel);
    }
  }

  lemma {:induction false} NormaliseLegalBody(ss: seq<Stmt>, fuel: nat)
    requires LegalStmts(ss)
    ensures LegalStmts(NormaliseBody(ss, fuel)) && (Quiet(ss) ==> Quiet(NormaliseBody(ss, fuel)))
    decreases fuel, SizeStmts(ss), 4
  {
    DropLegal(ss);
    NormaliseLegalStmts(Drop(ss), fuel);
    SecondPassLegal(NormaliseStmts(Drop(ss), fuel));
  }

  lemma {:induction false} NormaliseLegalStmts(ss: seq<Stmt>, fuel: nat)
    requires LegalStmts(ss)
    ensures LegalStmts(NormaliseStmts(ss, fuel)) && (Quiet(ss) ==> Quiet(NormaliseStmts(ss, fuel)))
    decreases fuel, SizeStmts(ss), 3
  {
    if ss != [] { NormaliseLegalStmt(ss[0], fuel); NormaliseLegalStmts(ss[1..], fuel); }
  }

  lemma {:induction false} NormaliseLegalStmt(s: Stmt, fuel: nat)
    requires LegalStmt(s)
    ensures LegalStmt(NormaliseStmt(s, fuel)) && (QuietStmt(s) ==> QuietStmt(NormaliseStmt(s, fuel)))
    decreases fuel, SizeStmt(s), 2
  {
    match s
    case Call(m, f, es) => NormaliseLegalApp(m, f, es, fuel);
    case IfElse(c, t, e) =>
      NormaliseLegal(c, fuel);
      NormaliseLegalBody(t.stmts, fuel);
      if e.Some? { NormaliseLegalBody(e.value.stmts, fuel); }
    case Return(e) => if e.Some? { NormaliseLegal(e.value, fuel); }
    case Impossible(e) => if e.Some? { NormaliseLegal(e.value, fuel); }
  }
}
