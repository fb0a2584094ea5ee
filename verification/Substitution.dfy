/** When capture-avoiding substitution means substitution.

    `rename` only looks at the rest of the telescope for a fresh index. `SubstOk` says when that is enough: at every
    binder that is renamed, the new name is neither a free variable of the substituted term whose target occurs below,
    nor the substituted variable itself while the binder is used. The theorem is an equivalence. */
module Substitution {
  import opened Ast
  import opened Binders
  import opened Nameless

  predicate SubstOk(x: Var, y: Expr, e: Expr)
    decreases Size(e), 0
  {
    match e
    case Atom(_) => true
    case VarE(_) => true
    case Node(_, es) => SubstOkSeq(x, y, es)
    case App(_, f, es) => SubstOk(x, y, f) && SubstOkSeq(x, y, es)
    case Because(v, r) => SubstOk(x, y, v) && SubstOk(x, y, r)
    case Bind(t) => SubstOkTele(x, y, t)
  }

  predicate SubstOkSeq(x: Var, y: Expr, es: seq<Expr>)
    decreases SizeSeq(es), 1
  {
    es != [] ==> SubstOk(x, y, es[0]) && SubstOkSeq(x, y, es[1..])
  }

  predicate SubstOkTele(x: Var, y: Expr, t: Tele)
    decreases SizeTele(t), 1
  {
    if t.args == [] then
      match t.end
      case SigmaEnd => true
      case PiEnd(_, r) => SubstOk(x, y, r)
      case AbsEnd(_, r, b) => SubstOk(x, y, r) && SubstOkStmts(x, y, b.stmts)
    else
      var a, rest := t.args[0], Rest(t);
      && SubstOk(x, y, a.ty)
      && (if a.name == Some(x) then true
          else if a.name.Some? && OccursIn(a.name.value, y, true) then
            var v := FreshVar(a.name.value, rest);
            RenameOk(x, y, a.name.value, v, rest) && SubstOkTele(x, y, ReplaceTele(a.name.value, v, rest))
          else SubstOkTele(x, y, rest))
  }

  predicate RenameOk(x: Var, y: Expr, binder: Var, renamed: Var, rest: Tele) {
    && (OccursIn(renamed, y, false) ==> !OccursInTele(x, rest, false))
    && (renamed == x ==> !OccursInTele(binder, rest, false))
  }

  predicate SubstOkStmts(x: Var, y: Expr, ss: seq<Stmt>)
    decreases SizeStmts(ss), 1
  {
    ss != [] ==> SubstOkStmt(x, y, ss[0]) && SubstOkStmts(x, y, ss[1..])
  }

  predicate SubstOkStmt(x: Var, y: Expr, s: Stmt)
    decreases SizeStmt(s), 0
  {
    match s
    case Call(_, f, es) => SubstOk(x, y, f) && SubstOkSeq(x, y, es)
    case IfElse(c, t, e) =>
      && SubstOk(x, y, c)
      && SubstOkStmts(x, y, t.stmts)
      && (e.Some? ==> SubstOkStmts(x, y, e.value.stmts))
    case Return(e) => e.Some? ==> SubstOk(x, y, e.value)
    case Impossible(e) => e.Some? ==> SubstOk(x, y, e.value)
  }

  // ---- if the renames are fine, substitution commutes with the translation ----

  lemma {:induction false} SubstNoop(e: Expr, x: Var, y: Expr, sc: Scope)
    requires !OccursIn(x, e, false) && SubstOk(x, y, e)
    ensures ToNameless(Subst(x, y, e), sc) == ToNameless(e, sc)
    decreases Size(e), 0
  {
    match e
    case Atom(_) =>
    case VarE(_) =>
    case Node(_, es) => SubstNoopSeq(es, x, y, sc);
    case App(_, f, es) => SubstNoop(f, x, y, sc); SubstNoopSeq(es, x, y, sc);
    case Because(v, r) => SubstNoop(v, x, y, sc); SubstNoop(r, x, y, sc);
    case Bind(t) => SubstNoopTele(t, x, y, sc);
  }

  lemma {:induction false} SubstNoopSeq(es: seq<Expr>, x: Var, y: Expr, sc: Scope)
    requires !OccursInSeq(x, es, false) && SubstOkSeq(x, y, es)
    ensures ToNamelessSeq(SubstSeq(x, y, es), sc) == ToNamelessSeq(es, sc)
    decreases SizeSeq(es), 1
  {
    if es != [] {
      SubstNoop(es[0], x, y, sc);
      SubstNoopSeq(es[1..], x, y, sc);
    }
  }

  lemma {:induction false} SubstNoopTele(t: Tele, x: Var, y: Expr, sc: Scope)
    requires !OccursInTele(x, t, false) && SubstOkTele(x, y, t)
    ensures ToNamelessTele(SubstTele(x, y, t), sc) == ToNamelessTele(t, sc)
    decreases SizeTele(t), 1
  {
    if t.args == [] {
      match t.end
      case SigmaEnd =>
      case PiEnd(_, r) => SubstNoop(r, x, y, sc);
      case AbsEnd(_, r, b) => SubstNoop(r, x, y, sc); SubstNoopStmts(b.stmts, x, y, sc);
    } else {
      var a, rest := t.args[0], Rest(t);
      SubstNoop(a.ty, x, y, sc);
      if a.name == Some(x) {
      } else if a.name.Some? && OccursIn(a.name.value, y, true) {
        var v := FreshVar(a.name.value, rest);
        RenameKeepsMeaning(a.name.value, rest, sc);
        ReplaceFreeTele(rest, a.name.value, v, x);
        SubstNoopTele(ReplaceTele(a.name.value, v, rest), x, y, Push(Some(v), sc));
      } else {
        SubstNoopTele(rest, x, y, Push(a.name, sc));
      }
    }
  }

  lemma {:induction false} SubstNoopStmts(ss: seq<Stmt>, x: Var, y: Expr, sc: Scope)
    requires !OccursInStmts(x, ss, false) && SubstOkStmts(x, y, ss)
    ensures ToNamelessStmts(SubstStmts(x, y, ss), sc) == ToNamelessStmts(ss, sc)
    decreases SizeStmts(ss), 1
  {
    if ss != [] {
      SubstNoopStmt(ss[0], x, y, sc);
      SubstNoopStmts(ss[1..], x, y, sc);
    }
  }

  lemma {:induction false} SubstNoopStmt(s: Stmt, x: Var, y: Expr, sc: Scope)
    requires !OccursInStmt(x, s, false) && SubstOkStmt(x, y, s)
    ensures ToNamelessStmt(SubstStmt(x, y, s), sc) == ToNamelessStmt(s, sc)
    decreases SizeStmt(s), 0
  {
    match s
    case Call(_, f, es) => SubstNoop(f, x, y, sc); SubstNoopSeq(es, x, y, sc);
    case IfElse(c, t, e) =>
      SubstNoop(c, x, y, sc);
      SubstNoopStmts(t.stmts, x, y, sc);
      if e.Some? { SubstNoopStmts(e.value.stmts, x, y, sc); }
    case Return(e) => if e.Some? { SubstNoop(e.value, x, y, sc); }
    case Impossible(e) => if e.Some? { SubstNoop(e.value, x, y, sc); }
  }

  // The scope hides neither the substituted variable nor a free variable of the substituted term.
  ghost predicate Transparent(x: Var, y: Expr, sc: Scope) {
    && Find(sc, x).None?
    && forall u :: OccursIn(u, y, false) ==> Find(sc, u).None?
  }

  lemma SubstCommutesVar(v: Var, x: Var, y: Expr, sc: Scope)
    requires Transparent(x, y, sc)
    ensures ToNameless(Subst(x, y, VarE(v)), sc) == NSubst(x, ToNameless(y, []), ToNameless(VarE(v), sc))
  {
    if v == x { Coincidence(y, sc, []); }
  }

  lemma SubstCommutesApp(m: bool, f: Expr, es: seq<Expr>, x: Var, y: Expr, sc: Scope)
    requires ToNameless(Subst(x, y, f), sc) == NSubst(x, ToNameless(y, []), ToNameless(f, sc))
    requires ToNamelessSeq(SubstSeq(x, y, es), sc) == NSubstSeq(x, ToNameless(y, []), ToNamelessSeq(es, sc))
    ensures ToNameless(Subst(x, y, App(m, f, es)), sc) == NSubst(x, ToNameless(y, []), ToNameless(App(m, f, es), sc))
  {
  }

  lemma {:induction false} SubstCommutes(e: Expr, x: Var, y: Expr, sc: Scope)
    requires Transparent(x, y, sc) && SubstOk(x, y, e)
    ensures ToNameless(Subst(x, y, e), sc) == NSubst(x, ToNameless(y, []), ToNameless(e, sc))
    decreases Size(e), 0
  {
    match e
    case Atom(_) =>
    case VarE(v) => SubstCommutesVar(v, x, y, sc);
    case Node(_, es) => SubstCommutesSeq(es, x, y, sc);
    case App(m, f, es) =>
      SubstCommutes(f, x, y, sc);
      SubstCommutesSeq(es, x, y, sc);
      SubstCommutesApp(m, f, es, x, y, sc);
    case Because(v, r) => SubstCommutes(v, x, y, sc); SubstCommutes(r, x, y, sc);
    case Bind(t) => SubstCommutesTele(t, x, y, sc);
  }

  lemma {:induction false} SubstCommutesSeq(es: seq<Expr>, x: Var, y: Expr, sc: Scope)
    requires Transparent(x, y, sc) && SubstOkSeq(x, y, es)
    ensures ToNamelessSeq(SubstSeq(x, y, es), sc) == NSubstSeq(x, ToNameless(y, []), ToNamelessSeq(es, sc))
    decreases SizeSeq(es), 1
  {
    if es != [] {
      SubstCommutes(es[0], x, y, sc);
      SubstCommutesSeq(es[1..], x, y, sc);
    }
  }

  lemma {:induction false} SubstCommutesTele(t: Tele, x: Var, y: Expr, sc: Scope)
    requires Transparent(x, y, sc) && SubstOkTele(x, y, t)
    ensures ToNamelessTele(SubstTele(x, y, t), sc) == NSubstTele(x, ToNameless(y, []), ToNamelessTele(t, sc))
    decreases SizeTele(t), 1
  {
    if t.args == [] {
      match t.end
      case SigmaEnd =>
      case PiEnd(_, r) => SubstCommutes(r, x, y, sc);
      case AbsEnd(_, r, b) => SubstCommutes(r, x, y, sc); SubstCommutesStmts(b.stmts, x, y, sc);
    } else {
      var a, rest := t.args[0], Rest(t);
      SubstCommutes(a.ty, x, y, sc);
      if a.name == Some(x) {
        FreeNamelessTele(rest, x, Push(a.name, sc));
        NSubstAbsentTele(ToNamelessTele(rest, Push(a.name, sc)), x, ToNameless(y, []));
      } else if a.name.Some? && OccursIn(a.name.value, y, true) {
        SubstCommutesRenamed(a.name.value, rest, x, y, sc);
      } else {
        if a.name.Some? { FreeIsAnywhere(y, a.name.value); }
        SubstCommutesTele(rest, x, y, Push(a.name, sc));
      }
    }
  }

  lemma {:induction false} SubstCommutesRenamed(name: Var, rest: Tele, x: Var, y: Expr, sc: Scope)
    requires Transparent(x, y, sc) && name != x
    requires var v := FreshVar(name, rest);
             RenameOk(x, y, name, v, rest)
             && SubstOkTele(x, y, ReplaceTele(name, v, rest))
    ensures var v := FreshVar(name, rest);
            ToNamelessTele(SubstTele(x, y, ReplaceTele(name, v, rest)), Push(Some(v), sc)) ==
            NSubstTele(x, ToNameless(y, []), ToNamelessTele(rest, Push(Some(name), sc)))
    decreases SizeTele(rest), 2
  {
    var v := FreshVar(name, rest);
    var renamed := ReplaceTele(name, v, rest);
    RenameKeepsMeaning(name, rest, sc);
    ReplaceFreeTele(rest, name, v, x);
    if OccursIn(v, y, false) || v == x {
      SubstNoopTele(renamed, x, y, Push(Some(v), sc));
      FreeNamelessTele(rest, x, Push(Some(name), sc));
      NSubstAbsentTele(ToNamelessTele(rest, Push(Some(name), sc)), x, ToNameless(y, []));
    } else {
      SubstCommutesTele(renamed, x, y, Push(Some(v), sc));
    }
  }

  lemma {:induction false} SubstCommutesStmts(ss: seq<Stmt>, x: Var, y: Expr, sc: Scope)
    requires Transparent(x, y, sc) && SubstOkStmts(x, y, ss)
    ensures ToNamelessStmts(SubstStmts(x, y, ss), sc) == NSubstStmts(x, ToNameless(y, []), ToNamelessStmts(ss, sc))
    decreases SizeStmts(ss), 1
  {
    if ss != [] {
      SubstCommutesStmt(ss[0], x, y, sc);
      SubstCommutesStmts(ss[1..], x, y, sc);
    }
  }

  // An `if`, from what is known of its condition and branches.
  lemma CommutesAtIf(s: Stmt, x: Var, y: Expr, sc: Scope)
    requires s.IfElse?
    requires ToNameless(Subst(x, y, s.cond), sc) == NSubst(x, ToNameless(y, []), ToNameless(s.cond, sc))
    requires ToNamelessStmts(SubstStmts(x, y, s.thenB.stmts), sc)
             == NSubstStmts(x, ToNameless(y, []), ToNamelessStmts(s.thenB.stmts, sc))
    requires s.elseB.Some? ==>
               var e := s.elseB.value.stmts;
               ToNamelessStmts(SubstStmts(x, y, e), sc) == NSubstStmts(x, ToNameless(y, []), ToNamelessStmts(e, sc))
    ensures ToNamelessStmt(SubstStmt(x, y, s), sc) == NSubstStmt(x, ToNameless(y, []), ToNamelessStmt(s, sc))
  {
  }

  lemma {:induction false} SubstCommutesStmt(s: Stmt, x: Var, y: Expr, sc: Scope)
    requires Transparent(x, y, sc) && SubstOkStmt(x, y, s)
    ensures ToNamelessStmt(SubstStmt(x, y, s), sc) == NSubstStmt(x, ToNameless(y, []), ToNamelessStmt(s, sc))
    decreases SizeStmt(s), 0
  {
    match s
    case Call(_, f, es) => SubstCommutes(f, x, y, sc); SubstCommutesSeq(es, x, y, sc);
    case IfElse(c, t, e) =>
      SubstCommutes(c, x, y, sc);
      SubstCommutesStmts(t.stmts, x, y, sc);
      if e.Some? { SubstCommutesStmts(e.value.stmts, x, y, sc); }
      CommutesAtIf(s, x, y, sc);
    case Return(e) => if e.Some? { SubstCommutes(e.value, x, y, sc); }
    case Impossible(e) => if e.Some? { SubstCommutes(e.value, x, y, sc); }
  }

  // ---- and if it commutes, the renames were fine ----

  lemma {:induction false} SizeGrows(e: Expr, x: Var, y: Expr)
    ensures Size(Subst(x, y, e)) >= Size(e)
    ensures OccursIn(x, e, false) && Size(y) > 1 ==> Size(Subst(x, y, e)) > Size(e)
    decreases Size(e), 0
  {
    match e
    case Atom(_) =>
    case VarE(_) =>
    case Node(_, es) => SizeGrowsSeq(es, x, y);
    case App(_, f, es) => SizeGrows(f, x, y); SizeGrowsSeq(es, x, y);
    case Because(v, r) => SizeGrows(v, x, y); SizeGrows(r, x, y);
    case Bind(t) => SizeGrowsTele(t, x, y);
  }

  lemma {:induction false} SizeGrowsSeq(es: seq<Expr>, x: Var, y: Expr)
    ensures SizeSeq(SubstSeq(x, y, es)) >= SizeSeq(es)
    ensures OccursInSeq(x, es, false) && Size(y) > 1 ==> SizeSeq(SubstSeq(x, y, es)) > SizeSeq(es)
    decreases SizeSeq(es), 1
  {
    if es != [] {
      SizeGrows(es[0], x, y);
      SizeGrowsSeq(es[1..], x, y);
    }
  }

  lemma {:induction false} SizeGrowsTele(t: Tele, x: Var, y: Expr)
    ensures SizeTele(SubstTele(x, y, t)) >= SizeTele(t)
    ensures OccursInTele(x, t, false) && Size(y) > 1 ==> SizeTele(SubstTele(x, y, t)) > SizeTele(t)
    decreases SizeTele(t), 1
  {
    if t.args == [] {
      match t.end
      case SigmaEnd =>
      case PiEnd(_, r) => SizeGrows(r, x, y);
      case AbsEnd(_, r, b) => SizeGrows(r, x, y); SizeGrowsStmts(b.stmts, x, y);
    } else {
      var a, rest := t.args[0], Rest(t);
      SizeGrows(a.ty, x, y);
      if a.name == Some(x) {
      } else if a.name.Some? && OccursIn(a.name.value, y, true) {
        SizeGrowsRenamed(a.name.value, rest, x, y);
      } else {
        SizeGrowsTele(rest, x, y);
      }
    }
  }

  lemma {:induction false} SizeGrowsRenamed(name: Var, rest: Tele, x: Var, y: Expr)
    requires name != x
    ensures var r := SubstTele(x, y, ReplaceTele(name, FreshVar(name, rest), rest));
            SizeTele(r) >= SizeTele(rest) && (OccursInTele(x, rest, false) && Size(y) > 1 ==>
              SizeTele(r) > SizeTele(rest))
    decreases SizeTele(rest), 2
  {
    var v := FreshVar(name, rest);
    IndexAboveMaxTele(rest, v);
    FreeIsAnywhereTele(rest, v);
    ReplaceFreeTele(rest, name, v, x);
    SizeGrowsTele(ReplaceTele(name, v, rest), x, y);
  }

  lemma {:induction false} SizeGrowsStmts(ss: seq<Stmt>, x: Var, y: Expr)
    ensures SizeStmts(SubstStmts(x, y, ss)) >= SizeStmts(ss)
    ensures OccursInStmts(x, ss, false) && Size(y) > 1 ==> SizeStmts(SubstStmts(x, y, ss)) > SizeStmts(ss)
    decreases SizeStmts(ss), 1
  {
    if ss != [] {
      SizeGrowsStmt(ss[0], x, y);
      SizeGrowsStmts(ss[1..], x, y);
    }
  }

  lemma {:induction false} SizeGrowsStmt(s: Stmt, x: Var, y: Expr)
    ensures SizeStmt(SubstStmt(x, y, s)) >= SizeStmt(s)
    ensures OccursInStmt(x, s, false) && Size(y) > 1 ==> SizeStmt(SubstStmt(x, y, s)) > SizeStmt(s)
    decreases SizeStmt(s), 0
  {
    match s
    case Call(_, f, es) => SizeGrows(f, x, y); SizeGrowsSeq(es, x, y);
    case IfElse(c, t, e) =>
      SizeGrows(c, x, y);
      SizeGrowsStmts(t.stmts, x, y);
      if e.Some? { SizeGrowsStmts(e.value.stmts, x, y); }
    case Return(e) => if e.Some? { SizeGrows(e.value, x, y); }
    case Impossible(e) => if e.Some? { SizeGrows(e.value, x, y); }
  }

  lemma {:induction false} VariableLands(e: Expr, x: Var, w: Var)
    requires !OccursIn(w, e, true) && w != x
    ensures OccursIn(x, e, false) ==> OccursIn(w, Subst(x, VarE(w), e), false)
    decreases Size(e), 0
  {
    match e
    case Atom(_) =>
    case VarE(_) =>
    case Node(_, es) => VariableLandsSeq(es, x, w);
    case App(_, f, es) => VariableLands(f, x, w); VariableLandsSeq(es, x, w);
    case Because(v, r) => VariableLands(v, x, w); VariableLands(r, x, w);
    case Bind(t) => VariableLandsTele(t, x, w);
  }

  lemma {:induction false} VariableLandsSeq(es: seq<Expr>, x: Var, w: Var)
    requires !OccursInSeq(w, es, true) && w != x
    ensures OccursInSeq(x, es, false) ==> OccursInSeq(w, SubstSeq(x, VarE(w), es), false)
    decreases SizeSeq(es), 1
  {
    if es != [] {
      VariableLands(es[0], x, w);
      VariableLandsSeq(es[1..], x, w);
    }
  }

  lemma {:induction false} VariableLandsTele(t: Tele, x: Var, w: Var)
    requires !OccursInTele(w, t, true) && w != x
    ensures OccursInTele(x, t, false) ==> OccursInTele(w, SubstTele(x, VarE(w), t), false)
    decreases SizeTele(t), 1
  {
    if t.args == [] {
      match t.end
      case SigmaEnd =>
      case PiEnd(_, r) => VariableLands(r, x, w);
      case AbsEnd(_, r, b) => VariableLands(r, x, w); VariableLandsStmts(b.stmts, x, w);
    } else {
      var a, rest := t.args[0], Rest(t);
      VariableLands(a.ty, x, w);
      if a.name != Some(x) { VariableLandsTele(rest, x, w); }
    }
  }

  lemma {:induction false} VariableLandsStmts(ss: seq<Stmt>, x: Var, w: Var)
    requires !OccursInStmts(w, ss, true) && w != x
    ensures OccursInStmts(x, ss, false) ==> OccursInStmts(w, SubstStmts(x, VarE(w), ss), false)
    decreases SizeStmts(ss), 1
  {
    if ss != [] {
      VariableLandsStmt(ss[0], x, w);
      VariableLandsStmts(ss[1..], x, w);
    }
  }

  lemma {:induction false} VariableLandsStmt(s: Stmt, x: Var, w: Var)
    requires !OccursInStmt(w, s, true) && w != x
    ensures OccursInStmt(x, s, false) ==> OccursInStmt(w, SubstStmt(x, VarE(w), s), false)
    decreases SizeStmt(s), 0
  {
    match s
    case Call(_, f, es) => VariableLands(f, x, w); VariableLandsSeq(es, x, w);
    case IfElse(c, t, e) =>
      VariableLands(c, x, w);
      VariableLandsStmts(t.stmts, x, w);
      if e.Some? { VariableLandsStmts(e.value.stmts, x, w); }
    case Return(e) => if e.Some? { VariableLands(e.value, x, w); }
    case Impossible(e) => if e.Some? { VariableLands(e.value, x, w); }
  }

  lemma SameHeadAndTail<T>(a: T, s: seq<T>, b: T, t: seq<T>)
    ensures [a] + s == [b] + t ==> a == b && s == t
  {
    if [a] + s == [b] + t {
      assert a == ([a] + s)[0] == ([b] + t)[0] == b;
      assert s == ([a] + s)[1..] == ([b] + t)[1..] == t;
    }
  }

  lemma {:induction false} SameSize(p: Expr, q: Expr, sc: Scope, sd: Scope)
    requires ToNameless(p, sc) == ToNameless(q, sd)
    ensures Size(p) == Size(q)
    decreases Size(p), 0
  {
    match p
    case Atom(_) =>
    case VarE(_) =>
    case Node(_, es) => SameSizeSeq(es, q.operands, sc, sd);
    case App(_, f, es) => SameSize(f, q.func, sc, sd); SameSizeSeq(es, q.args, sc, sd);
    case Because(v, r) => SameSize(v, q.value, sc, sd); SameSize(r, q.reason, sc, sd);
    case Bind(t) => SameSizeTele(t, q.tele, sc, sd);
  }

  lemma {:induction false} SameSizeSeq(p: seq<Expr>, q: seq<Expr>, sc: Scope, sd: Scope)
    requires ToNamelessSeq(p, sc) == ToNamelessSeq(q, sd)
    ensures SizeSeq(p) == SizeSeq(q)
    decreases SizeSeq(p), 1
  {
    if p != [] && q != [] {
      SameHeadAndTail(ToNameless(p[0], sc), ToNamelessSeq(p[1..], sc), ToNameless(q[0], sd), ToNamelessSeq(q[1..], sd));
      SameSize(p[0], q[0], sc, sd);
      SameSizeSeq(p[1..], q[1..], sc, sd);
    }
  }

  lemma {:induction false} SameSizeTele(p: Tele, q: Tele, sc: Scope, sd: Scope)
    requires ToNamelessTele(p, sc) == ToNamelessTele(q, sd)
    ensures SizeTele(p) == SizeTele(q)
    decreases SizeTele(p), 1
  {
    if p.args == [] {
      match p.end
      case SigmaEnd =>
      case PiEnd(_, r) => SameSize(r, q.end.ret, sc, sd);
      case AbsEnd(_, r, b) => SameSize(r, q.end.ret, sc, sd); SameSizeStmts(b.stmts, q.end.body.stmts, sc, sd);
    } else {
      var a, b := p.args[0], q.args[0];
      SameSize(a.ty, b.ty, sc, sd);
      SameSizeTele(Rest(p), Rest(q), Push(a.name, sc), Push(b.name, sd));
    }
  }

  lemma {:induction false} SameSizeStmts(p: seq<Stmt>, q: seq<Stmt>, sc: Scope, sd: Scope)
    requires ToNamelessStmts(p, sc) == ToNamelessStmts(q, sd)
    ensures SizeStmts(p) == SizeStmts(q)
    decreases SizeStmts(p), 1
  {
    if p != [] && q != [] {
      SameHeadAndTail(
        ToNamelessStmt(p[0], sc), ToNamelessStmts(p[1..], sc),
        ToNamelessStmt(q[0], sd), ToNamelessStmts(q[1..], sd));
      SameSizeStmt(p[0], q[0], sc, sd);
      SameSizeStmts(p[1..], q[1..], sc, sd);
    }
  }

  lemma {:induction false} SameSizeStmt(p: Stmt, q: Stmt, sc: Scope, sd: Scope)
    requires ToNamelessStmt(p, sc) == ToNamelessStmt(q, sd)
    ensures SizeStmt(p) == SizeStmt(q)
    decreases SizeStmt(p), 0
  {
    match p
    case Call(_, f, es) => SameSize(f, q.func, sc, sd); SameSizeSeq(es, q.args, sc, sd);
    case IfElse(c, t, e) =>
      SameSize(c, q.cond, sc, sd);
      SameSizeStmts(t.stmts, q.thenB.stmts, sc, sd);
      if e.Some? { SameSizeStmts(e.value.stmts, q.elseB.value.stmts, sc, sd); }
    case Return(e) => if e.Some? { SameSize(e.value, q.value.value, sc, sd); }
    case Impossible(e) => if e.Some? { SameSize(e.value, q.reason.value, sc, sd); }
  }

  // A binder that is renamed to the very variable being substituted loses its own occurrences.
  lemma RenamedToTarget(x: Var, y: Expr, name: Var, rest: Tele, sc: Scope)
    requires name != x && x == FreshVar(name, rest)
    requires OccursIn(name, y, true) && OccursInTele(name, rest, false)
    requires y.VarE? ==> Find(sc, y.v).None?
    ensures ToNamelessTele(SubstTele(x, y, ReplaceTele(name, x, rest)), Push(Some(x), sc))
         != ToNamelessTele(rest, Push(Some(name), sc))
  {
    var renamed := ReplaceTele(name, x, rest);
    RenameKeepsMeaning(name, rest, sc);
    ReplaceFreeTele(rest, name, x, x);
    var left, right := SubstTele(x, y, renamed), rest;
    if ToNamelessTele(left, Push(Some(x), sc)) == ToNamelessTele(right, Push(Some(name), sc)) {
      if y.VarE? {
        ReplaceGoneTele(rest, name, x);
        VariableLandsTele(renamed, x, name);
        FreeNamelessTele(left, name, Push(Some(x), sc));
        FreeNamelessTele(right, name, Push(Some(name), sc));
      } else {
        assert Size(y) > 1 by { assert y.Node? ==> y.operands != []; }
        SizeGrowsTele(renamed, x, y);
        SameSizeTele(left, right, Push(Some(x), sc), Push(Some(name), sc));
      }
    }
  }

  // A binder that is renamed to a free variable of the substituted term captures that variable.
  lemma RenamedIntoCapture(x: Var, y: Expr, name: Var, rest: Tele, sc: Scope)
    requires Find(Push(Some(name), sc), x).None? && OccursInTele(x, rest, false)
    requires OccursIn(FreshVar(name, rest), y, false)
    ensures var v := FreshVar(name, rest);
            (ToNamelessTele(SubstTele(x, y, ReplaceTele(name, v, rest)), Push(Some(v), sc))
             != NSubstTele(x, ToNameless(y, []), ToNamelessTele(rest, Push(Some(name), sc))))
  {
    var v := FreshVar(name, rest);
    FreeNameless(y, v, []);
    FreeNamelessTele(rest, x, Push(Some(name), sc));
    NSubstOccursTele(ToNamelessTele(rest, Push(Some(name), sc)), v, x, ToNameless(y, []));
    FreeNamelessTele(SubstTele(x, y, ReplaceTele(name, v, rest)), v, Push(Some(v), sc));
  }

  lemma {:induction false} NoopOnlyIf(e: Expr, x: Var, y: Expr, sc: Scope)
    requires !OccursIn(x, e, false) && (y.VarE? ==> Find(sc, y.v).None?)
    requires ToNameless(Subst(x, y, e), sc) == ToNameless(e, sc)
    ensures SubstOk(x, y, e)
    decreases Size(e), 0
  {
    match e
    case Atom(_) =>
    case VarE(_) =>
    case Node(_, es) => NoopOnlyIfSeq(es, x, y, sc);
    case App(_, f, es) => NoopOnlyIf(f, x, y, sc); NoopOnlyIfSeq(es, x, y, sc);
    case Because(v, r) => NoopOnlyIf(v, x, y, sc); NoopOnlyIf(r, x, y, sc);
    case Bind(t) => NoopOnlyIfTele(t, x, y, sc);
  }

  lemma {:induction false} NoopOnlyIfSeq(es: seq<Expr>, x: Var, y: Expr, sc: Scope)
    requires !OccursInSeq(x, es, false) && (y.VarE? ==> Find(sc, y.v).None?)
    requires ToNamelessSeq(SubstSeq(x, y, es), sc) == ToNamelessSeq(es, sc)
    ensures SubstOkSeq(x, y, es)
    decreases SizeSeq(es), 1
  {
    if es != [] {
      SameHeadAndTail(
        ToNameless(Subst(x, y, es[0]), sc), ToNamelessSeq(SubstSeq(x, y, es[1..]), sc),
        ToNameless(es[0], sc), ToNamelessSeq(es[1..], sc));
      NoopOnlyIf(es[0], x, y, sc);
      NoopOnlyIfSeq(es[1..], x, y, sc);
    }
  }

  lemma {:induction false} NoopOnlyIfTele(t: Tele, x: Var, y: Expr, sc: Scope)
    requires !OccursInTele(x, t, false) && (y.VarE? ==> Find(sc, y.v).None?)
    requires ToNamelessTele(SubstTele(x, y, t), sc) == ToNamelessTele(t, sc)
    ensures SubstOkTele(x, y, t)
    decreases SizeTele(t), 1
  {
    if t.args == [] {
      match t.end
      case SigmaEnd =>
      case PiEnd(_, r) => NoopOnlyIf(r, x, y, sc);
      case AbsEnd(_, r, b) => NoopOnlyIf(r, x, y, sc); NoopOnlyIfStmts(b.stmts, x, y, sc);
    } else {
      var a, rest := t.args[0], Rest(t);
      NoopOnlyIf(a.ty, x, y, sc);
      if a.name == Some(x) {
      } else if a.name.Some? && OccursIn(a.name.value, y, true) {
        NoopOnlyIfRenamed(a.name.value, rest, x, y, sc);
      } else {
        NoopOnlyIfTele(rest, x, y, Push(a.name, sc));
      }
    }
  }

  lemma {:induction false} NoopOnlyIfRenamed(name: Var, rest: Tele, x: Var, y: Expr, sc: Scope)
    requires name != x && OccursIn(name, y, true) && !OccursInTele(x, rest, false) && (y.VarE? ==> Find(sc, y.v).None?)
    requires var v := FreshVar(name, rest);
             ToNamelessTele(SubstTele(x, y, ReplaceTele(name, v, rest)), Push(Some(v), sc))
               == ToNamelessTele(rest, Push(Some(name), sc))
    ensures var v := FreshVar(name, rest);
            RenameOk(x, y, name, v, rest)
            && SubstOkTele(x, y, ReplaceTele(name, v, rest))
    decreases SizeTele(rest), 2
  {
    var v := FreshVar(name, rest);
    RenameKeepsMeaning(name, rest, sc);
    ReplaceFreeTele(rest, name, v, x);
    if v == x && OccursInTele(name, rest, false) {
      RenamedToTarget(x, y, name, rest, sc);
    }
    NoopOnlyIfTele(ReplaceTele(name, v, rest), x, y, Push(Some(v), sc));
  }

  lemma {:induction false} NoopOnlyIfStmts(ss: seq<Stmt>, x: Var, y: Expr, sc: Scope)
    requires !OccursInStmts(x, ss, false) && (y.VarE? ==> Find(sc, y.v).None?)
    requires ToNamelessStmts(SubstStmts(x, y, ss), sc) == ToNamelessStmts(ss, sc)
    ensures SubstOkStmts(x, y, ss)
    decreases SizeStmts(ss), 1
  {
    if ss != [] {
      SameHeadAndTail(
        ToNamelessStmt(SubstStmt(x, y, ss[0]), sc), ToNamelessStmts(SubstStmts(x, y, ss[1..]), sc),
        ToNamelessStmt(ss[0], sc), ToNamelessStmts(ss[1..], sc));
      NoopOnlyIfStmt(ss[0], x, y, sc);
      NoopOnlyIfStmts(ss[1..], x, y, sc);
    }
  }

  lemma {:induction false} NoopOnlyIfStmt(s: Stmt, x: Var, y: Expr, sc: Scope)
    requires !OccursInStmt(x, s, false) && (y.VarE? ==> Find(sc, y.v).None?)
    requires ToNamelessStmt(SubstStmt(x, y, s), sc) == ToNamelessStmt(s, sc)
    ensures SubstOkStmt(x, y, s)
    decreases SizeStmt(s), 0
  {
    match s
    case Call(_, f, es) => NoopOnlyIf(f, x, y, sc); NoopOnlyIfSeq(es, x, y, sc);
    case IfElse(c, t, e) =>
      NoopOnlyIf(c, x, y, sc);
      NoopOnlyIfStmts(t.stmts, x, y, sc);
      if e.Some? { NoopOnlyIfStmts(e.value.stmts, x, y, sc); }
    case Return(e) => if e.Some? { NoopOnlyIf(e.value, x, y, sc); }
    case Impossible(e) => if e.Some? { NoopOnlyIf(e.value, x, y, sc); }
  }

  lemma {:induction false} CommutesOnlyIf(e: Expr, x: Var, y: Expr, sc: Scope)
    requires Transparent(x, y, sc)
    requires ToNameless(Subst(x, y, e), sc) == NSubst(x, ToNameless(y, []), ToNameless(e, sc))
    ensures SubstOk(x, y, e)
    decreases Size(e), 0
  {
    match e
    case Atom(_) =>
    case VarE(_) =>
    case Node(_, es) => CommutesOnlyIfSeq(es, x, y, sc);
    case App(_, f, es) => CommutesOnlyIf(f, x, y, sc); CommutesOnlyIfSeq(es, x, y, sc);
    case Because(v, r) => CommutesOnlyIf(v, x, y, sc); CommutesOnlyIf(r, x, y, sc);
    case Bind(t) => CommutesOnlyIfTele(t, x, y, sc);
  }

  lemma {:induction false} CommutesOnlyIfSeq(es: seq<Expr>, x: Var, y: Expr, sc: Scope)
    requires Transparent(x, y, sc)
    requires ToNamelessSeq(SubstSeq(x, y, es), sc) == NSubstSeq(x, ToNameless(y, []), ToNamelessSeq(es, sc))
    ensures SubstOkSeq(x, y, es)
    decreases SizeSeq(es), 1
  {
    if es != [] {
      SameHeadAndTail(
        ToNameless(Subst(x, y, es[0]), sc), ToNamelessSeq(SubstSeq(x, y, es[1..]), sc),
        NSubst(x, ToNameless(y, []), ToNameless(es[0], sc)),
          NSubstSeq(x, ToNameless(y, []), ToNamelessSeq(es[1..], sc)));
      CommutesOnlyIf(es[0], x, y, sc);
      CommutesOnlyIfSeq(es[1..], x, y, sc);
    }
  }

  lemma {:induction false} CommutesOnlyIfTele(t: Tele, x: Var, y: Expr, sc: Scope)
    requires Transparent(x, y, sc)
    requires ToNamelessTele(SubstTele(x, y, t), sc) == NSubstTele(x, ToNameless(y, []), ToNamelessTele(t, sc))
    ensures SubstOkTele(x, y, t)
    decreases SizeTele(t), 1
  {
    if t.args == [] {
      match t.end
      case SigmaEnd =>
      case PiEnd(_, r) => CommutesOnlyIf(r, x, y, sc);
      case AbsEnd(_, r, b) => CommutesOnlyIf(r, x, y, sc); CommutesOnlyIfStmts(b.stmts, x, y, sc);
    } else {
      var a, rest := t.args[0], Rest(t);
      CommutesOnlyIf(a.ty, x, y, sc);
      if a.name == Some(x) {
      } else if a.name.Some? && OccursIn(a.name.value, y, true) {
        CommutesOnlyIfRenamed(rest, a.name.value, x, y, sc);
      } else {
        if a.name.Some? { FreeIsAnywhere(y, a.name.value); }
        CommutesOnlyIfTele(rest, x, y, Push(a.name, sc));
      }
    }
  }

  lemma {:induction false} CommutesOnlyIfStmts(ss: seq<Stmt>, x: Var, y: Expr, sc: Scope)
    requires Transparent(x, y, sc)
    requires ToNamelessStmts(SubstStmts(x, y, ss), sc) == NSubstStmts(x, ToNameless(y, []), ToNamelessStmts(ss, sc))
    ensures SubstOkStmts(x, y, ss)
    decreases SizeStmts(ss), 1
  {
    if ss != [] {
      SameHeadAndTail(
        ToNamelessStmt(SubstStmt(x, y, ss[0]), sc), ToNamelessStmts(SubstStmts(x, y, ss[1..]), sc),
        NSubstStmt(x, ToNameless(y, []), ToNamelessStmt(ss[0], sc)),
          NSubstStmts(x, ToNameless(y, []), ToNamelessStmts(ss[1..], sc)));
      CommutesOnlyIfStmt(ss[0], x, y, sc);
      CommutesOnlyIfStmts(ss[1..], x, y, sc);
    }
  }

  lemma {:induction false} CommutesOnlyIfStmt(s: Stmt, x: Var, y: Expr, sc: Scope)
    requires Transparent(x, y, sc)
    requires ToNamelessStmt(SubstStmt(x, y, s), sc) == NSubstStmt(x, ToNameless(y, []), ToNamelessStmt(s, sc))
    ensures SubstOkStmt(x, y, s)
    decreases SizeStmt(s), 0
  {
    match s
    case Call(_, f, es) => CommutesOnlyIf(f, x, y, sc); CommutesOnlyIfSeq(es, x, y, sc);
    case IfElse(c, t, e) =>
      CommutesOnlyIf(c, x, y, sc);
      CommutesOnlyIfStmts(t.stmts, x, y, sc);
      if e.Some? { CommutesOnlyIfStmts(e.value.stmts, x, y, sc); }
    case Return(e) => if e.Some? { CommutesOnlyIf(e.value, x, y, sc); }
    case Impossible(e) => if e.Some? { CommutesOnlyIf(e.value, x, y, sc); }
  }

  lemma {:induction false} CommutesOnlyIfRenamed(rest: Tele, name: Var, x: Var, y: Expr, sc: Scope)
    requires Transparent(x, y, sc) && name != x && OccursIn(name, y, true)
    requires var v := FreshVar(name, rest);
             (ToNamelessTele(SubstTele(x, y, ReplaceTele(name, v, rest)), Push(Some(v), sc))
              == NSubstTele(x, ToNameless(y, []), ToNamelessTele(rest, Push(Some(name), sc))))
    ensures var v := FreshVar(name, rest);
            RenameOk(x, y, name, v, rest) && SubstOkTele(x, y, ReplaceTele(name, v, rest))
    decreases SizeTele(rest), 2
  {
    var v := FreshVar(name, rest);
    var renamed := ReplaceTele(name, v, rest);
    RenameKeepsMeaning(name, rest, sc);
    if OccursInTele(x, rest, false) {
      FreeIsAnywhereTele(rest, x);
      if OccursIn(v, y, false) {
        RenamedIntoCapture(x, y, name, rest, sc);
      }
      CommutesOnlyIfTele(renamed, x, y, Push(Some(v), sc));
    } else {
      ReplaceFreeTele(rest, name, v, x);
      FreeNamelessTele(rest, x, Push(Some(name), sc));
      NSubstAbsentTele(ToNamelessTele(rest, Push(Some(name), sc)), x, ToNameless(y, []));
      if v == x && OccursInTele(name, rest, false) {
        RenamedToTarget(x, y, name, rest, sc);
      }
      NoopOnlyIfTele(renamed, x, y, Push(Some(v), sc));
    }
  }

  // ---- the theorem ----

  lemma SubstitutionTheorem(x: Var, y: Expr, e: Expr)
    ensures ToNameless(Subst(x, y, e), []) == NSubst(x, ToNameless(y, []), ToNameless(e, [])) <==> SubstOk(x, y, e)
  {
    if SubstOk(x, y, e) {
      SubstCommutes(e, x, y, []);
    } else if ToNameless(Subst(x, y, e), []) == NSubst(x, ToNameless(y, []), ToNameless(e, [])) {
      CommutesOnlyIf(e, x, y, []);
    }
  }

  lemma SubstitutionTheoremTele(x: Var, y: Expr, t: Tele)
    ensures ToNamelessTele(SubstTele(x, y, t), []) == NSubstTele(x, ToNameless(y, []), ToNamelessTele(t, []))
       <==> SubstOkTele(x, y, t)
  {
    if SubstOkTele(x, y, t) {
      SubstCommutesTele(t, x, y, []);
    } else if ToNamelessTele(SubstTele(x, y, t), []) == NSubstTele(x, ToNameless(y, []), ToNamelessTele(t, [])) {
      CommutesOnlyIfTele(t, x, y, []);
    }
  }

  // Every free variable has index 0, as in the source program; bound ones may have been renamed.
  ghost predicate Unindexed(y: Expr) {
    forall v :: OccursIn(v, y, false) ==> v.idx == 0
  }

  // Names straight from the source program are always fine: every renamed binder has a larger index.
  lemma {:induction false} UnrenamedIsOk(e: Expr, x: Var, y: Expr)
    requires x.idx == 0 && Unindexed(y)
    ensures SubstOk(x, y, e)
    decreases Size(e), 0
  {
    match e
    case Atom(_) =>
    case VarE(_) =>
    case Node(_, es) => UnrenamedIsOkSeq(es, x, y);
    case App(_, f, es) => UnrenamedIsOk(f, x, y); UnrenamedIsOkSeq(es, x, y);
    case Because(v, r) => UnrenamedIsOk(v, x, y); UnrenamedIsOk(r, x, y);
    case Bind(t) => UnrenamedIsOkTele(t, x, y);
  }

  lemma {:induction false} UnrenamedIsOkSeq(es: seq<Expr>, x: Var, y: Expr)
    requires x.idx == 0 && Unindexed(y)
    ensures SubstOkSeq(x, y, es)
    decreases SizeSeq(es), 1
  {
    if es != [] {
      UnrenamedIsOk(es[0], x, y);
      UnrenamedIsOkSeq(es[1..], x, y);
    }
  }

  lemma {:induction false} UnrenamedIsOkTele(t: Tele, x: Var, y: Expr)
    requires x.idx == 0 && Unindexed(y)
    ensures SubstOkTele(x, y, t)
    decreases SizeTele(t), 1
  {
    if t.args == [] {
      match t.end
      case SigmaEnd =>
      case PiEnd(_, r) => UnrenamedIsOk(r, x, y);
      case AbsEnd(_, r, b) => UnrenamedIsOk(r, x, y); UnrenamedIsOkStmts(b.stmts, x, y);
    } else {
      var a, rest := t.args[0], Rest(t);
      UnrenamedIsOk(a.ty, x, y);
      if a.name == Some(x) {
      } else if a.name.Some? && OccursIn(a.name.value, y, true) {
        var v := FreshVar(a.name.value, rest);
        UnrenamedIsOkTele(ReplaceTele(a.name.value, v, rest), x, y);
      } else {
        UnrenamedIsOkTele(rest, x, y);
      }
    }
  }

  lemma {:induction false} UnrenamedIsOkStmts(ss: seq<Stmt>, x: Var, y: Expr)
    requires x.idx == 0 && Unindexed(y)
    ensures SubstOkStmts(x, y, ss)
    decreases SizeStmts(ss), 1
  {
    if ss != [] {
      UnrenamedIsOkStmt(ss[0], x, y);
      UnrenamedIsOkStmts(ss[1..], x, y);
    }
  }

  lemma {:induction false} UnrenamedIsOkStmt(s: Stmt, x: Var, y: Expr)
    requires x.idx == 0 && Unindexed(y)
    ensures SubstOkStmt(x, y, s)
    decreases SizeStmt(s), 0
  {
    match s
    case Call(_, f, es) => UnrenamedIsOk(f, x, y); UnrenamedIsOkSeq(es, x, y);
    case IfElse(c, t, e) =>
      UnrenamedIsOk(c, x, y);
      UnrenamedIsOkStmts(t.stmts, x, y);
      if e.Some? { UnrenamedIsOkStmts(e.value.stmts, x, y); }
    case Return(e) => if e.Some? { UnrenamedIsOk(e.value, x, y); }
    case Impossible(e) => if e.Some? { UnrenamedIsOk(e.value, x, y); }
  }

  // `(t) -> x` with `t + t:1` for `x`: the binder becomes `t:1` and captures the second operand.
  lemma RenameCanCapture()
    ensures var t, t1, x := Var("t", 0, 0), Var("t", 1, 0), Var("x", 0, 0);
            var e := Bind(Tele([Arg(Many, Atom(BoolT), Some(t))], PiEnd(false, VarE(x))));
            var y := Node(Plus, [VarE(t), VarE(t1)]);
            && Subst(x, y, e) == Bind(Tele([Arg(Many, Atom(BoolT), Some(t1))], PiEnd(false, y)))
            && ToNameless(Subst(x, y, e), []) != NSubst(x, ToNameless(y, []), ToNameless(e, []))
  {
    var t, t1, x := Var("t", 0, 0), Var("t", 1, 0), Var("x", 0, 0);
    var tele := Tele([Arg(Many, Atom(BoolT), Some(t))], PiEnd(false, VarE(x)));
    var y := Node(Plus, [VarE(t), VarE(t1)]);
    var rest := Tele([], PiEnd(false, VarE(x)));
    assert Rest(tele) == rest;
    assert y.operands[0] == VarE(t) && y.operands[1..] == [VarE(t1)];
    assert OccursIn(t, y, true);
    assert FreshVar(t, rest) == t1;
    assert ReplaceTele(t, t1, rest) == rest;
    assert SubstTele(x, y, rest) == Tele([], PiEnd(false, y));
    assert SubstTele(x, y, tele) == Cons(Arg(Many, Atom(BoolT), Some(t1)), Tele([], PiEnd(false, y)));
    assert OccursIn(t1, y, false) by { assert OccursInSeq(t1, y.operands[1..], false); }
    assert !RenameOk(x, y, t, t1, rest);
    SubstitutionTheorem(x, y, Bind(tele));
  }

  // ---- applying an abstraction: one substitution per argument, each renaming the binders that follow ----

  function BetaTele(t: Tele, values: seq<Expr>): (r: Tele)
    requires |values| == |t.args|
    ensures r.args == []
    decreases |t.args|
  {
    if t.args == [] then t
    else
      var name, rest := t.args[0].name, Rest(t);
      BetaTele(if name.Some? then SubstTele(name.value, values[0], rest) else rest, values[1..])
  }

  // Every substitution of the beta step is fine.
  predicate BetaOk(t: Tele, values: seq<Expr>)
    requires |values| == |t.args|
    decreases |t.args|
  {
    t.args != [] ==>
      var name, rest := t.args[0].name, Rest(t);
      if name.Some? then
        SubstOkTele(name.value, values[0], rest) && BetaOk(SubstTele(name.value, values[0], rest), values[1..])
      else BetaOk(rest, values[1..])
  }

  /** A condition that can be checked before the step: parameters are named as in the source program, later ones do not
      occur in earlier values, and what is free in the values is named as in the source program. */
  ghost predicate BetaFresh(t: Tele, values: seq<Expr>)
    requires |values| == |t.args|
  {
    && (forall i :: 0 <= i < |t.args| && t.args[i].name.Some? ==> t.args[i].name.value.idx == 0 && Unindexed(values[i]))
    && (forall i, j :: 0 <= j < i < |t.args| && t.args[i].name.Some? ==>
       !OccursIn(t.args[i].name.value, values[j], true))
  }

  lemma {:induction false} FreshIsOk(t: Tele, values: seq<Expr>)
    requires |values| == |t.args| && BetaFresh(t, values)
    ensures BetaOk(t, values)
    decreases |t.args|
  {
    if t.args != [] {
      var name, rest := t.args[0].name, Rest(t);
      assert forall i :: 0 <= i < |rest.args| ==> rest.args[i] == t.args[i + 1] && values[1..][i] == values[i + 1];
      var next := if name.Some? then SubstTele(name.value, values[0], rest) else rest;
      if name.Some? {
        UnrenamedIsOkTele(rest, name.value, values[0]);
        NamesKept(rest, name.value, values[0]);
      }
      FreshIsOk(next, values[1..]);
    }
  }

  lemma {:induction false} NamesKept(t: Tele, x: Var, y: Expr)
    requires forall i :: 0 <= i < |t.args| && t.args[i].name.Some? ==> !OccursIn(t.args[i].name.value, y, true)
    ensures forall i :: 0 <= i < |t.args| ==> SubstTele(x, y, t).args[i].name == t.args[i].name
    decreases |t.args|
  {
    if t.args != [] {
      var a, rest := t.args[0], Rest(t);
      assert forall i :: 0 <= i < |rest.args| ==> rest.args[i] == t.args[i + 1];
      if a.name != Some(x) {
        NamesKept(rest, x, y);
        var r := SubstTele(x, y, rest);
        assert Rest(SubstTele(x, y, t)) == r;
      }
    }
  }

  // Each substitution in turn does what instantiating its binder does.
  ghost predicate EachStepRight(t: Tele, values: seq<Expr>)
    requires |values| == |t.args|
    decreases |t.args|
  {
    t.args != [] ==>
      var name, rest := t.args[0].name, Rest(t);
      var next := if name.Some? then SubstTele(name.value, values[0], rest) else rest;
      && ToNamelessTele(next, []) == NInstTele([ToNameless(values[0], [])], 0, ToNamelessTele(rest, Push(name, [])))
      && EachStepRight(next, values[1..])
  }

  /** The steps are all right if and only if every name chosen on the way is fine. */
  lemma {:induction false} BetaStepsExact(t: Tele, values: seq<Expr>)
    requires |values| == |t.args|
    ensures EachStepRight(t, values) <==> BetaOk(t, values)
    decreases |t.args|
  {
    if t.args != [] {
      var name, rest, u := t.args[0].name, Rest(t), ToNameless(values[0], []);
      NamelessIsClosed(values[0], []);
      SubstIsInstTele(rest, name, u, []);
      assert [] + [name] == Push(name, []);
      if name.Some? { SubstitutionTheoremTele(name.value, values[0], rest); }
      BetaStepsExact(if name.Some? then SubstTele(name.value, values[0], rest) else rest, values[1..]);
    }
  }

  // The loop of the source over the arguments of the abstraction.
  method BetaSubstitute(t: Tele, values: seq<Expr>) returns (r: Tele)
    requires |values| == |t.args|
    ensures r == BetaTele(t, values)
  {
    var args, end := t.args, t.end;
    var i := 0;
    while i < |args|
      invariant 0 <= i <= |args| == |values|
      invariant BetaTele(Tele(args[i..], end), values[i..]) == BetaTele(t, values)
    {
      var name := args[i].name;
      var rest := Tele(args[i + 1..], end);
      assert rest == Rest(Tele(args[i..], end)) && values[i..][1..] == values[i + 1..];
      if name.Some? {
        rest := SubstituteInTelescope(name.value, values[i], rest);
        args, end := args[..i + 1] + rest.args, rest.end;
      }
      assert Tele(args[i + 1..], end) == rest;
      i := i + 1;
    }
    r := Tele([], end);
  }

  // Simultaneous instantiation of the `|us|` binders above depth `d`; `us` is innermost first.
  function NInst(us: seq<NExpr>, d: nat, e: NExpr): NExpr
    decreases e, 1
  {
    match e
    case NAtom(_) => e
    case NFree(_) => e
    case NBound(i) => if i < d then e else if i < d + |us| then us[i - d] else NBound(i - |us|)
    case NNode(op, es) => NNode(op, NInstSeq(us, d, es))
    case NApp(m, f, es) => NApp(m, NInst(us, d, f), NInstSeq(us, d, es))
    case NBecause(v, r) => NBecause(NInst(us, d, v), NInst(us, d, r))
    case NBind(t) => NBind(NInstTele(us, d, t))
  }

  function NInstSeq(us: seq<NExpr>, d: nat, es: seq<NExpr>): seq<NExpr>
    decreases es, 0
  {
    if es == [] then [] else [NInst(us, d, es[0])] + NInstSeq(us, d, es[1..])
  }

  function NInstTele(us: seq<NExpr>, d: nat, t: NTele): NTele
    decreases t, 1
  {
    match t
    case NArg(q, ty, rest) => NArg(q, NInst(us, d, ty), NInstTele(us, d + 1, rest))
    case NSigmaEnd => t
    case NPiEnd(m, r) => NPiEnd(m, NInst(us, d, r))
    case NAbsEnd(m, r, b) => NAbsEnd(m, NInst(us, d, r), NBody(NInstStmts(us, d, b.stmts)))
  }

  function NInstStmts(us: seq<NExpr>, d: nat, ss: seq<NStmt>): seq<NStmt>
    decreases ss, 0
  {
    if ss == [] then [] else [NInstStmt(us, d, ss[0])] + NInstStmts(us, d, ss[1..])
  }

  function NInstStmt(us: seq<NExpr>, d: nat, s: NStmt): NStmt
    decreases s, 1
  {
    match s
    case NCall(m, f, es) => NCall(m, NInst(us, d, f), NInstSeq(us, d, es))
    case NIfElse(c, t, e) =>
      NIfElse(NInst(us, d, c), NBody(NInstStmts(us, d, t.stmts)),
              match e case None => None case Some(b) => Some(NBody(NInstStmts(us, d, b.stmts))))
    case NReturn(e) => NReturn(match e case None => None case Some(r) => Some(NInst(us, d, r)))
    case NImpossible(e) => NImpossible(match e case None => None case Some(r) => Some(NInst(us, d, r)))
  }

  // No bound variable points further out than `d` binders.
  predicate NClosed(d: nat, e: NExpr)
    decreases e, 1
  {
    match e
    case NAtom(_) => true
    case NFree(_) => true
    case NBound(i) => i < d
    case NNode(_, es) => NClosedSeq(d, es)
    case NApp(_, f, es) => NClosed(d, f) && NClosedSeq(d, es)
    case NBecause(v, r) => NClosed(d, v) && NClosed(d, r)
    case NBind(t) => NClosedTele(d, t)
  }

  predicate NClosedSeq(d: nat, es: seq<NExpr>)
    decreases es, 0
  {
    es != [] ==> NClosed(d, es[0]) && NClosedSeq(d, es[1..])
  }

  predicate NClosedTele(d: nat, t: NTele)
    decreases t, 1
  {
    match t
    case NArg(_, ty, rest) => NClosed(d, ty) && NClosedTele(d + 1, rest)
    case NSigmaEnd => true
    case NPiEnd(_, r) => NClosed(d, r)
    case NAbsEnd(_, r, b) => NClosed(d, r) && NClosedStmts(d, b.stmts)
  }

  predicate NClosedStmts(d: nat, ss: seq<NStmt>)
    decreases ss, 0
  {
    ss != [] ==> NClosedStmt(d, ss[0]) && NClosedStmts(d, ss[1..])
  }

  predicate NClosedStmt(d: nat, s: NStmt)
    decreases s, 1
  {
    match s
    case NCall(_, f, es) => NClosed(d, f) && NClosedSeq(d, es)
    case NIfElse(c, t, e) =>
      && NClosed(d, c)
      && NClosedStmts(d, t.stmts)
      && (e.Some? ==> NClosedStmts(d, e.value.stmts))
    case NReturn(e) => e.Some? ==> NClosed(d, e.value)
    case NImpossible(e) => e.Some? ==> NClosed(d, e.value)
  }

  lemma {:induction false} FindBelow(sc: Scope, v: Var)
    ensures Find(sc, v).Some? ==> Find(sc, v).value < |sc| && sc[Find(sc, v).value] == Some(v)
  {
    if sc != [] { FindBelow(sc[1..], v); }
  }

  lemma {:induction false} FindAppend(sc: Scope, name: Option<Var>, v: Var)
    ensures Find(sc + [name], v) ==
            if Find(sc, v).Some? then Find(sc, v) else if name == Some(v) then Some(|sc|) else None
  {
    if sc == [] {
      assert sc + [name] == [name];
    } else {
      assert (sc + [name])[1..] == sc[1..] + [name];
      FindAppend(sc[1..], name, v);
    }
  }

  lemma PushAppend(n: Option<Var>, sc: Scope, name: Option<Var>)
    ensures Push(n, sc + [name]) == Push(n, sc) + [name]
  {
    assert [n] + (sc + [name]) == ([n] + sc) + [name];
  }

  lemma {:induction false} NamelessIsClosed(e: Expr, sc: Scope)
    ensures NClosed(|sc|, ToNameless(e, sc))
    decreases Size(e), 0
  {
    match e
    case Atom(_) =>
    case VarE(v) => FindBelow(sc, v);
    case Node(_, es) => NamelessIsClosedSeq(es, sc);
    case App(_, f, es) => NamelessIsClosed(f, sc); NamelessIsClosedSeq(es, sc);
    case Because(v, r) => NamelessIsClosed(v, sc); NamelessIsClosed(r, sc);
    case Bind(t) => NamelessIsClosedTele(t, sc);
  }

  lemma {:induction false} NamelessIsClosedSeq(es: seq<Expr>, sc: Scope)
    ensures NClosedSeq(|sc|, ToNamelessSeq(es, sc))
    decreases SizeSeq(es), 1
  {
    if es != [] {
      NamelessIsClosed(es[0], sc);
      NamelessIsClosedSeq(es[1..], sc);
    }
  }

  lemma {:induction false} NamelessIsClosedTele(t: Tele, sc: Scope)
    ensures NClosedTele(|sc|, ToNamelessTele(t, sc))
    decreases SizeTele(t), 1
  {
    if t.args == [] {
      match t.end
      case SigmaEnd =>
      case PiEnd(_, r) => NamelessIsClosed(r, sc);
      case AbsEnd(_, r, b) => NamelessIsClosed(r, sc); NamelessIsClosedStmts(b.stmts, sc);
    } else {
      var a, rest := t.args[0], Rest(t);
      NamelessIsClosed(a.ty, sc);
      NamelessIsClosedTele(rest, Push(a.name, sc));
    }
  }

  lemma {:induction false} NamelessIsClosedStmts(ss: seq<Stmt>, sc: Scope)
    ensures NClosedStmts(|sc|, ToNamelessStmts(ss, sc))
    decreases SizeStmts(ss), 1
  {
    if ss != [] {
      NamelessIsClosedStmt(ss[0], sc);
      NamelessIsClosedStmts(ss[1..], sc);
    }
  }

  lemma {:induction false} NamelessIsClosedStmt(s: Stmt, sc: Scope)
    ensures NClosedStmt(|sc|, ToNamelessStmt(s, sc))
    decreases SizeStmt(s), 0
  {
    match s
    case Call(_, f, es) => NamelessIsClosed(f, sc); NamelessIsClosedSeq(es, sc);
    case IfElse(c, t, e) =>
      NamelessIsClosed(c, sc);
      NamelessIsClosedStmts(t.stmts, sc);
      if e.Some? { NamelessIsClosedStmts(e.value.stmts, sc); }
    case Return(e) => if e.Some? { NamelessIsClosed(e.value, sc); }
    case Impossible(e) => if e.Some? { NamelessIsClosed(e.value, sc); }
  }

  lemma {:induction false} InstClosed(e: NExpr, us: seq<NExpr>, d: nat)
    requires NClosed(d, e)
    ensures NInst(us, d, e) == e
    decreases e, 1
  {
    match e
    case NAtom(_) =>
    case NFree(_) =>
    case NBound(_) =>
    case NNode(_, es) => InstClosedSeq(es, us, d);
    case NApp(_, f, es) => InstClosed(f, us, d); InstClosedSeq(es, us, d);
    case NBecause(v, r) => InstClosed(v, us, d); InstClosed(r, us, d);
    case NBind(t) => InstClosedTele(t, us, d);
  }

  lemma {:induction false} InstClosedSeq(es: seq<NExpr>, us: seq<NExpr>, d: nat)
    requires NClosedSeq(d, es)
    ensures NInstSeq(us, d, es) == es
    decreases es, 0
  {
    if es != [] {
      InstClosed(es[0], us, d);
      InstClosedSeq(es[1..], us, d);
    }
  }

  lemma {:induction false} InstClosedTele(t: NTele, us: seq<NExpr>, d: nat)
    requires NClosedTele(d, t)
    ensures NInstTele(us, d, t) == t
    decreases t, 1
  {
    match t
    case NArg(_, ty, rest) => InstClosed(ty, us, d); InstClosedTele(rest, us, d + 1);
    case NSigmaEnd =>
    case NPiEnd(_, r) => InstClosed(r, us, d);
    case NAbsEnd(_, r, b) => InstClosed(r, us, d); InstClosedStmts(b.stmts, us, d);
  }

  lemma {:induction false} InstClosedStmts(ss: seq<NStmt>, us: seq<NExpr>, d: nat)
    requires NClosedStmts(d, ss)
    ensures NInstStmts(us, d, ss) == ss
    decreases ss, 0
  {
    if ss != [] {
      InstClosedStmt(ss[0], us, d);
      InstClosedStmts(ss[1..], us, d);
    }
  }

  lemma {:induction false} InstClosedStmt(s: NStmt, us: seq<NExpr>, d: nat)
    requires NClosedStmt(d, s)
    ensures NInstStmt(us, d, s) == s
    decreases s, 1
  {
    match s
    case NCall(_, f, es) => InstClosed(f, us, d); InstClosedSeq(es, us, d);
    case NIfElse(c, t, e) =>
      InstClosed(c, us, d);
      InstClosedStmts(t.stmts, us, d);
      if e.Some? { InstClosedStmts(e.value.stmts, us, d); }
    case NReturn(e) => if e.Some? { InstClosed(e.value, us, d); }
    case NImpossible(e) => if e.Some? { InstClosed(e.value, us, d); }
  }

  lemma {:induction false} ClosedDeeper(e: NExpr, d: nat, k: nat)
    requires d <= k && NClosed(d, e)
    ensures NClosed(k, e)
    decreases e, 1
  {
    match e
    case NAtom(_) =>
    case NFree(_) =>
    case NBound(_) =>
    case NNode(_, es) => ClosedDeeperSeq(es, d, k);
    case NApp(_, f, es) => ClosedDeeper(f, d, k); ClosedDeeperSeq(es, d, k);
    case NBecause(v, r) => ClosedDeeper(v, d, k); ClosedDeeper(r, d, k);
    case NBind(t) => ClosedDeeperTele(t, d, k);
  }

  lemma {:induction false} ClosedDeeperSeq(es: seq<NExpr>, d: nat, k: nat)
    requires d <= k && NClosedSeq(d, es)
    ensures NClosedSeq(k, es)
    decreases es, 0
  {
    if es != [] {
      ClosedDeeper(es[0], d, k);
      ClosedDeeperSeq(es[1..], d, k);
    }
  }

  lemma {:induction false} ClosedDeeperTele(t: NTele, d: nat, k: nat)
    requires d <= k && NClosedTele(d, t)
    ensures NClosedTele(k, t)
    decreases t, 1
  {
    match t
    case NArg(_, ty, rest) => ClosedDeeper(ty, d, k); ClosedDeeperTele(rest, d + 1, k + 1);
    case NSigmaEnd =>
    case NPiEnd(_, r) => ClosedDeeper(r, d, k);
    case NAbsEnd(_, r, b) => ClosedDeeper(r, d, k); ClosedDeeperStmts(b.stmts, d, k);
  }

  lemma {:induction false} ClosedDeeperStmts(ss: seq<NStmt>, d: nat, k: nat)
    requires d <= k && NClosedStmts(d, ss)
    ensures NClosedStmts(k, ss)
    decreases ss, 0
  {
    if ss != [] {
      ClosedDeeperStmt(ss[0], d, k);
      ClosedDeeperStmts(ss[1..], d, k);
    }
  }

  lemma {:induction false} ClosedDeeperStmt(s: NStmt, d: nat, k: nat)
    requires d <= k && NClosedStmt(d, s)
    ensures NClosedStmt(k, s)
    decreases s, 1
  {
    match s
    case NCall(_, f, es) => ClosedDeeper(f, d, k); ClosedDeeperSeq(es, d, k);
    case NIfElse(c, t, e) =>
      ClosedDeeper(c, d, k);
      ClosedDeeperStmts(t.stmts, d, k);
      if e.Some? { ClosedDeeperStmts(e.value.stmts, d, k); }
    case NReturn(e) => if e.Some? { ClosedDeeper(e.value, d, k); }
    case NImpossible(e) => if e.Some? { ClosedDeeper(e.value, d, k); }
  }

  // Substituting for a free name is instantiating the binder that would have bound it outermost.
  lemma {:induction false} SubstIsInst(e: Expr, name: Option<Var>, u: NExpr, sc: Scope)
    requires NClosed(0, u)
    ensures (if name.Some? then NSubst(name.value, u, ToNameless(e, sc)) else ToNameless(e, sc)) ==
            NInst([u], |sc|, ToNameless(e, sc + [name]))
    decreases Size(e), 0
  {
    match e
    case Atom(_) =>
    case VarE(v) => FindBelow(sc, v); FindAppend(sc, name, v);
    case Node(_, es) => SubstIsInstSeq(es, name, u, sc);
    case App(_, f, es) => SubstIsInst(f, name, u, sc); SubstIsInstSeq(es, name, u, sc);
    case Because(v, r) => SubstIsInst(v, name, u, sc); SubstIsInst(r, name, u, sc);
    case Bind(t) => SubstIsInstTele(t, name, u, sc);
  }

  lemma {:induction false} SubstIsInstSeq(es: seq<Expr>, name: Option<Var>, u: NExpr, sc: Scope)
    requires NClosed(0, u)
    ensures (if name.Some? then NSubstSeq(name.value, u, ToNamelessSeq(es, sc)) else ToNamelessSeq(es, sc)) ==
            NInstSeq([u], |sc|, ToNamelessSeq(es, sc + [name]))
    decreases SizeSeq(es), 1
  {
    if es != [] {
      SubstIsInst(es[0], name, u, sc);
      SubstIsInstSeq(es[1..], name, u, sc);
    }
  }

  lemma {:induction false} SubstIsInstTele(t: Tele, name: Option<Var>, u: NExpr, sc: Scope)
    requires NClosed(0, u)
    ensures (if name.Some? then NSubstTele(name.value, u, ToNamelessTele(t, sc)) else ToNamelessTele(t, sc)) ==
            NInstTele([u], |sc|, ToNamelessTele(t, sc + [name]))
    decreases SizeTele(t), 1
  {
    if t.args == [] {
      match t.end
      case SigmaEnd =>
      case PiEnd(_, r) => SubstIsInst(r, name, u, sc);
      case AbsEnd(_, r, b) => SubstIsInst(r, name, u, sc); SubstIsInstStmts(b.stmts, name, u, sc);
    } else {
      var a, rest := t.args[0], Rest(t);
      SubstIsInst(a.ty, name, u, sc);
      PushAppend(a.name, sc, name);
      SubstIsInstTele(rest, name, u, Push(a.name, sc));
    }
  }

  lemma {:induction false} SubstIsInstStmts(ss: seq<Stmt>, name: Option<Var>, u: NExpr, sc: Scope)
    requires NClosed(0, u)
    ensures (if name.Some? then NSubstStmts(name.value, u, ToNamelessStmts(ss, sc)) else ToNamelessStmts(ss, sc)) ==
            NInstStmts([u], |sc|, ToNamelessStmts(ss, sc + [name]))
    decreases SizeStmts(ss), 1
  {
    if ss != [] {
      SubstIsInstStmt(ss[0], name, u, sc);
      SubstIsInstStmts(ss[1..], name, u, sc);
    }
  }

  lemma {:induction false} SubstIsInstStmt(s: Stmt, name: Option<Var>, u: NExpr, sc: Scope)
    requires NClosed(0, u)
    ensures (if name.Some? then NSubstStmt(name.value, u, ToNamelessStmt(s, sc)) else ToNamelessStmt(s, sc)) ==
            NInstStmt([u], |sc|, ToNamelessStmt(s, sc + [name]))
    decreases SizeStmt(s), 0
  {
    match s
    case Call(_, f, es) => SubstIsInst(f, name, u, sc); SubstIsInstSeq(es, name, u, sc);
    case IfElse(c, t, e) =>
      SubstIsInst(c, name, u, sc);
      SubstIsInstStmts(t.stmts, name, u, sc);
      if e.Some? { SubstIsInstStmts(e.value.stmts, name, u, sc); }
    case Return(e) => if e.Some? { SubstIsInst(e.value, name, u, sc); }
    case Impossible(e) => if e.Some? { SubstIsInst(e.value, name, u, sc); }
  }

  lemma {:induction false} ClosedAt(es: seq<NExpr>, i: nat)
    requires i < |es| && NClosedSeq(0, es)
    ensures NClosed(0, es[i])
  {
    if i > 0 { ClosedAt(es[1..], i - 1); }
  }

  // Instantiating outer binders first and inner ones after them is instantiating all of them at once.
  lemma {:induction false} InstFuses(e: NExpr, us: seq<NExpr>, ws: seq<NExpr>, d: nat)
    requires NClosedSeq(0, ws)
    ensures NInst(us, d, NInst(ws, d + |us|, e)) == NInst(us + ws, d, e)
    decreases e, 1
  {
    match e
    case NAtom(_) =>
    case NFree(_) =>
    case NBound(i) =>
      if d + |us| <= i < d + |us| + |ws| {
        ClosedAt(ws, i - d - |us|);
        ClosedDeeper(ws[i - d - |us|], 0, d);
        InstClosed(ws[i - d - |us|], us, d);
      }
    case NNode(_, es) => InstFusesSeq(es, us, ws, d);
    case NApp(_, f, es) => InstFuses(f, us, ws, d); InstFusesSeq(es, us, ws, d);
    case NBecause(v, r) => InstFuses(v, us, ws, d); InstFuses(r, us, ws, d);
    case NBind(t) => InstFusesTele(t, us, ws, d);
  }

  lemma {:induction false} InstFusesSeq(es: seq<NExpr>, us: seq<NExpr>, ws: seq<NExpr>, d: nat)
    requires NClosedSeq(0, ws)
    ensures NInstSeq(us, d, NInstSeq(ws, d + |us|, es)) == NInstSeq(us + ws, d, es)
    decreases es, 0
  {
    if es != [] {
      InstFuses(es[0], us, ws, d);
      InstFusesSeq(es[1..], us, ws, d);
    }
  }

  lemma {:induction false} InstFusesTele(t: NTele, us: seq<NExpr>, ws: seq<NExpr>, d: nat)
    requires NClosedSeq(0, ws)
    ensures NInstTele(us, d, NInstTele(ws, d + |us|, t)) == NInstTele(us + ws, d, t)
    decreases t, 1
  {
    match t
    case NArg(_, ty, rest) => InstFuses(ty, us, ws, d); InstFusesTele(rest, us, ws, d + 1);
    case NSigmaEnd =>
    case NPiEnd(_, r) => InstFuses(r, us, ws, d);
    case NAbsEnd(_, r, b) => InstFuses(r, us, ws, d); InstFusesStmts(b.stmts, us, ws, d);
  }

  lemma {:induction false} InstFusesStmts(ss: seq<NStmt>, us: seq<NExpr>, ws: seq<NExpr>, d: nat)
    requires NClosedSeq(0, ws)
    ensures NInstStmts(us, d, NInstStmts(ws, d + |us|, ss)) == NInstStmts(us + ws, d, ss)
    decreases ss, 0
  {
    if ss != [] {
      InstFusesStmt(ss[0], us, ws, d);
      InstFusesStmts(ss[1..], us, ws, d);
    }
  }

  lemma {:induction false} InstFusesStmt(s: NStmt, us: seq<NExpr>, ws: seq<NExpr>, d: nat)
    requires NClosedSeq(0, ws)
    ensures NInstStmt(us, d, NInstStmt(ws, d + |us|, s)) == NInstStmt(us + ws, d, s)
    decreases s, 1
  {
    match s
    case NCall(_, f, es) => InstFuses(f, us, ws, d); InstFusesSeq(es, us, ws, d);
    case NIfElse(c, t, e) =>
      InstFuses(c, us, ws, d);
      InstFusesStmts(t.stmts, us, ws, d);
      if e.Some? { InstFusesStmts(e.value.stmts, us, ws, d); }
    case NReturn(e) => if e.Some? { InstFuses(e.value, us, ws, d); }
    case NImpossible(e) => if e.Some? { InstFuses(e.value, us, ws, d); }
  }

  // What a telescope binds over: its end below all its arguments.
  function NLast(t: NTele): NTele {
    match t
    case NArg(_, _, rest) => NLast(rest)
    case NSigmaEnd => t
    case NPiEnd(_, _) => t
    case NAbsEnd(_, _, _) => t
  }

  function NArity(t: NTele): nat {
    if t.NArg? then 1 + NArity(t.rest) else 0
  }

  lemma {:induction false} LastOfInst(us: seq<NExpr>, d: nat, t: NTele)
    ensures NLast(NInstTele(us, d, t)) == NInstTele(us, d + NArity(t), NLast(t))
    ensures NArity(NInstTele(us, d, t)) == NArity(t)
    decreases t
  {
    if t.NArg? { LastOfInst(us, d + 1, t.rest); }
  }

  lemma {:induction false} ArityOfNameless(t: Tele, sc: Scope)
    ensures NArity(ToNamelessTele(t, sc)) == |t.args|
    decreases |t.args|
  {
    if t.args != [] { ArityOfNameless(Rest(t), Push(t.args[0].name, sc)); }
  }

  function Reversed<T>(s: seq<T>): (r: seq<T>)
    ensures |r| == |s|
  {
    if s == [] then [] else Reversed(s[1..]) + [s[0]]
  }

  // One substitution of the beta step instantiates one binder.
  lemma BetaStep(name: Option<Var>, value: Expr, rest: Tele)
    requires name.Some? ==> SubstOkTele(name.value, value, rest)
    ensures ToNamelessTele(if name.Some? then SubstTele(name.value, value, rest) else rest, [])
         == NInstTele([ToNameless(value, [])], 0, ToNamelessTele(rest, Push(name, [])))
  {
    NamelessIsClosed(value, []);
    if name.Some? { SubstitutionTheoremTele(name.value, value, rest); }
    SubstIsInstTele(rest, name, ToNameless(value, []), []);
    assert [] + [name] == Push(name, []);
  }

  // The substitutions made one by one give what instantiating all the binders at once gives.
  lemma {:induction false} BetaIsSimultaneous(t: Tele, values: seq<Expr>)
    requires |values| == |t.args| && BetaOk(t, values)
    ensures ToNamelessTele(BetaTele(t, values), [])
         == NInstTele(Reversed(ToNamelessSeq(values, [])), 0, NLast(ToNamelessTele(t, [])))
    decreases |t.args|
  {
    if t.args == [] {
      NamelessIsClosedTele(t, []);
      InstClosedTele(ToNamelessTele(t, []), [], 0);
    } else {
      var name, rest, u, us := t.args[0].name, Rest(t), ToNameless(values[0], []), ToNamelessSeq(values[1..], []);
      var next := if name.Some? then SubstTele(name.value, values[0], rest) else rest;
      var inner := ToNamelessTele(rest, Push(name, []));
      BetaStep(name, values[0], rest);
      BetaIsSimultaneous(next, values[1..]);
      ArityOfNameless(rest, Push(name, []));
      NamelessIsClosed(values[0], []);
      OneBinderMore(inner, u, Reversed(us));
      assert ToNamelessSeq(values, []) == [u] + us;
      ReversedStep(u, us);
    }
  }

  lemma OneBinderMore(inner: NTele, u: NExpr, rs: seq<NExpr>)
    requires NClosed(0, u) && |rs| == NArity(inner)
    ensures NInstTele(rs, 0, NLast(NInstTele([u], 0, inner))) == NInstTele(rs + [u], 0, NLast(inner))
  {
    LastOfInst([u], 0, inner);
    FuseAt(NLast(inner), u, rs, NInstTele([u], |rs|, NLast(inner)));
  }

  lemma FuseAt(last: NTele, u: NExpr, rs: seq<NExpr>, mid: NTele)
    requires NClosed(0, u) && mid == NInstTele([u], |rs|, last)
    ensures NInstTele(rs, 0, mid) == NInstTele(rs + [u], 0, last)
  {
    InstFusesTele(last, rs, [u], 0);
  }

  lemma ReversedStep<T>(u: T, us: seq<T>)
    ensures Reversed([u] + us) == Reversed(us) + [u]
  {
    assert ([u] + us)[1..] == us;
  }
}
