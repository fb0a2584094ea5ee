/** Bodies on which normalisation is right, told by looking at the source.

    An applied abstraction is tame if its arguments bind nothing and use no name that it binds: then no beta step,
    however deeply nested, ever renames. And no lift loses anything in a body without `impossible`, where there is none,
    or in one whose every `if` has an else or a branch that returns, as in `if (c) return x; impossible;`. */
module SourceClasses {
  import opened Ast
  import opened Binders
  import opened BoundNames
  import opened Substitution
  import opened Semantics
  import opened Guarding
  import opened UnreachableCode
  import opened Normaliser
  import opened Legality
  import opened NormaliserTheorem
  import opened Termination

  // ---- the classes ----

  datatype Lifting = Anything | NoImpossible | ElseOrReturns

  // The arguments bind nothing and use no name that the function binds.
  predicate NoClash(f: Expr, es: seq<Expr>) {
    BindersOfSeq(es) == {} && BindersOf(f) !! NamesOfSeq(es)
  }

  predicate Tame(k: Lifting, e: Expr)
    decreases Size(e), 0
  {
    match e
    case Atom(_) => true
    case VarE(_) => true
    case Node(_, es) => TameSeq(k, es)
    case App(_, f, es) => Tame(k, f) && TameSeq(k, es) && (IsAbs(f) ==> NoClash(f, es))
    case Because(v, r) => Tame(k, v) && Tame(k, r)
    case Bind(t) => TameTele(k, t)
  }

  predicate TameSeq(k: Lifting, es: seq<Expr>)
    decreases SizeSeq(es), 1
  {
    es != [] ==> Tame(k, es[0]) && TameSeq(k, es[1..])
  }

  predicate TameTele(k: Lifting, t: Tele)
    decreases SizeTele(t), 1
  {
    if t.args == [] then
      match t.end
      case SigmaEnd => true
      case PiEnd(_, r) => Tame(k, r)
      case AbsEnd(_, r, b) => Tame(k, r) && TameStmts(k, b.stmts)
    else
      var a, rest := t.args[0], Rest(t);
      Tame(k, a.ty) && TameTele(k, rest)
  }

  predicate TameStmts(k: Lifting, ss: seq<Stmt>)
    decreases SizeStmts(ss), 1
  {
    ss != [] ==> TameStmt(k, ss[0]) && TameStmts(k, ss[1..])
  }

  predicate TameStmt(k: Lifting, s: Stmt)
    decreases SizeStmt(s), 0
  {
    match s
    case Call(_, f, es) => Tame(k, f) && TameSeq(k, es) && (IsAbs(f) ==> NoClash(f, es))
    case IfElse(c, t, e) =>
      && Tame(k, c)
      && TameStmts(k, t.stmts)
      && (e.Some? ==> TameStmts(k, e.value.stmts))
      && (k == ElseOrReturns ==> e.Some? || IsConst(c) || Returns(t.stmts))
    case Return(e) => e.Some? ==> Tame(k, e.value)
    case Impossible(e) => k != NoImpossible && (e.Some? ==> Tame(k, e.value))
  }

  // ---- substitution: nothing is renamed, and only names of the two terms are left ----

  // What may be pushed into a term that binds these names.
  predicate Fits(k: Lifting, y: Expr, binders: set<Var>) {
    Tame(k, y) && BindersOf(y) == {} && !IsAbs(y) && binders !! NamesOf(y)
  }

  lemma {:induction false} ApartOk(e: Expr, x: Var, y: Expr)
    requires BindersOf(e) !! NamesOf(y)
    ensures SubstOk(x, y, e)
    decreases Size(e), 0
  {
    match e
    case Atom(_) =>
    case VarE(_) =>
    case Node(_, es) => ApartOkSeq(es, x, y);
    case App(_, f, es) => ApartOk(f, x, y); ApartOkSeq(es, x, y);
    case Because(v, r) => ApartOk(v, x, y); ApartOk(r, x, y);
    case Bind(t) => ApartOkTele(t, x, y);
  }

  lemma {:induction false} ApartOkSeq(es: seq<Expr>, x: Var, y: Expr)
    requires BindersOfSeq(es) !! NamesOf(y)
    ensures SubstOkSeq(x, y, es)
    decreases SizeSeq(es), 1
  {
    if es != [] {
      ApartOk(es[0], x, y);
      ApartOkSeq(es[1..], x, y);
      assert SubstSeq(x, y, es)[1..] == SubstSeq(x, y, es[1..]);
    }
  }

  lemma {:induction false} ApartOkTele(t: Tele, x: Var, y: Expr)
    requires BindersOfTele(t) !! NamesOf(y)
    ensures SubstOkTele(x, y, t)
    decreases SizeTele(t), 1
  {
    if t.args == [] {
      match t.end
      case SigmaEnd =>
      case PiEnd(_, r) => ApartOk(r, x, y);
      case AbsEnd(_, r, b) => ApartOk(r, x, y); ApartOkStmts(b.stmts, x, y);
    } else {
      var a, rest := t.args[0], Rest(t);
      ApartOk(a.ty, x, y);
      if a.name.Some? { OccursNamed(y, a.name.value); }
      if a.name != Some(x) { ApartOkTele(rest, x, y); }
    }
  }

  lemma {:induction false} ApartOkStmts(ss: seq<Stmt>, x: Var, y: Expr)
    requires BindersOfStmts(ss) !! NamesOf(y)
    ensures SubstOkStmts(x, y, ss)
    decreases SizeStmts(ss), 1
  {
    if ss != [] {
      ApartOkStmt(ss[0], x, y);
      ApartOkStmts(ss[1..], x, y);
      assert SubstStmts(x, y, ss)[1..] == SubstStmts(x, y, ss[1..]);
    }
  }

  lemma {:induction false} ApartOkStmt(s: Stmt, x: Var, y: Expr)
    requires BindersOfStmt(s) !! NamesOf(y)
    ensures SubstOkStmt(x, y, s)
    decreases SizeStmt(s), 0
  {
    match s
    case Call(_, f, es) => ApartOk(f, x, y); ApartOkSeq(es, x, y);
    case IfElse(c, t, e) =>
      ApartOk(c, x, y);
      ApartOkStmts(t.stmts, x, y);
      if e.Some? { ApartOkStmts(e.value.stmts, x, y); }
    case Return(e) => if e.Some? { ApartOk(e.value, x, y); }
    case Impossible(e) => if e.Some? { ApartOk(e.value, x, y); }
  }

  lemma {:induction false} SubstNames(e: Expr, x: Var, y: Expr)
    requires BindersOf(e) !! NamesOf(y) && BindersOf(y) == {}
    ensures var r := Subst(x, y, e); BindersOf(r) == BindersOf(e) && NamesOf(r) <= NamesOf(e) + NamesOf(y)
    decreases Size(e), 0
  {
    match e
    case Atom(_) =>
    case VarE(_) =>
    case Node(_, es) => SubstNamesSeq(es, x, y);
    case App(_, f, es) => SubstNames(f, x, y); SubstNamesSeq(es, x, y);
    case Because(v, r) => SubstNames(v, x, y); SubstNames(r, x, y);
    case Bind(t) => SubstNamesTele(t, x, y);
  }

  lemma {:induction false} SubstNamesSeq(es: seq<Expr>, x: Var, y: Expr)
    requires BindersOfSeq(es) !! NamesOf(y) && BindersOf(y) == {}
    ensures var r := SubstSeq(x, y, es);
            BindersOfSeq(r) == BindersOfSeq(es)
            && NamesOfSeq(r) <= NamesOfSeq(es) + NamesOf(y)
    decreases SizeSeq(es), 1
  {
    if es != [] {
      SubstNames(es[0], x, y);
      SubstNamesSeq(es[1..], x, y);
      assert SubstSeq(x, y, es)[1..] == SubstSeq(x, y, es[1..]);
    }
  }

  lemma {:induction false} SubstNamesTele(t: Tele, x: Var, y: Expr)
    requires BindersOfTele(t) !! NamesOf(y) && BindersOf(y) == {}
    ensures var r := SubstTele(x, y, t);
            BindersOfTele(r) == BindersOfTele(t)
            && NamesOfTele(r) <= NamesOfTele(t) + NamesOf(y)
    decreases SizeTele(t), 1
  {
    if t.args == [] {
      match t.end
      case SigmaEnd =>
      case PiEnd(_, r) => SubstNames(r, x, y);
      case AbsEnd(_, r, b) => SubstNames(r, x, y); SubstNamesStmts(b.stmts, x, y);
    } else {
      var a, rest := t.args[0], Rest(t);
      SubstNames(a.ty, x, y);
      if a.name.Some? { OccursNamed(y, a.name.value); }
      if a.name != Some(x) { SubstNamesTele(rest, x, y); }
    }
  }

  lemma {:induction false} SubstNamesStmts(ss: seq<Stmt>, x: Var, y: Expr)
    requires BindersOfStmts(ss) !! NamesOf(y) && BindersOf(y) == {}
    ensures var r := SubstStmts(x, y, ss);
            BindersOfStmts(r) == BindersOfStmts(ss)
            && NamesOfStmts(r) <= NamesOfStmts(ss) + NamesOf(y)
    decreases SizeStmts(ss), 1
  {
    if ss != [] {
      SubstNamesStmt(ss[0], x, y);
      SubstNamesStmts(ss[1..], x, y);
      assert SubstStmts(x, y, ss)[1..] == SubstStmts(x, y, ss[1..]);
    }
  }

  lemma {:induction false} SubstNamesStmt(s: Stmt, x: Var, y: Expr)
    requires BindersOfStmt(s) !! NamesOf(y) && BindersOf(y) == {}
    ensures var r := SubstStmt(x, y, s);
            BindersOfStmt(r) == BindersOfStmt(s)
            && NamesOfStmt(r) <= NamesOfStmt(s) + NamesOf(y)
    decreases SizeStmt(s), 0
  {
    match s
    case Call(_, f, es) => SubstNames(f, x, y); SubstNamesSeq(es, x, y);
    case IfElse(c, t, e) =>
      SubstNames(c, x, y);
      SubstNamesStmts(t.stmts, x, y);
      if e.Some? { SubstNamesStmts(e.value.stmts, x, y); }
    case Return(e) => if e.Some? { SubstNames(e.value, x, y); }
    case Impossible(e) => if e.Some? { SubstNames(e.value, x, y); }
  }

  lemma SubstApart(f: Expr, es: seq<Expr>, x: Var, y: Expr)
    requires (BindersOf(f) + BindersOfSeq(es)) !! NamesOf(y) && BindersOf(y) == {}
    ensures NoClash(f, es) ==> NoClash(Subst(x, y, f), SubstSeq(x, y, es))
  {
    SubstNames(f, x, y);
    SubstNamesSeq(es, x, y);
  }

  lemma {:induction false} SubstTame(k: Lifting, e: Expr, x: Var, y: Expr)
    requires Tame(k, e) && Fits(k, y, BindersOf(e))
    ensures Tame(k, Subst(x, y, e)) && IsAbs(Subst(x, y, e)) == IsAbs(e)
    decreases Size(e), 0
  {
    match e
    case Atom(_) =>
    case VarE(_) =>
    case Node(_, es) => SubstTameSeq(k, es, x, y);
    case App(_, f, es) => SubstTame(k, f, x, y); SubstTameSeq(k, es, x, y); SubstApart(f, es, x, y);
    case Because(v, r) => SubstTame(k, v, x, y); SubstTame(k, r, x, y);
    case Bind(t) => SubstTameTele(k, t, x, y);
  }

  lemma {:induction false} SubstTameSeq(k: Lifting, es: seq<Expr>, x: Var, y: Expr)
    requires TameSeq(k, es) && Fits(k, y, BindersOfSeq(es))
    ensures TameSeq(k, SubstSeq(x, y, es))
    decreases SizeSeq(es), 1
  {
    if es != [] {
      SubstTame(k, es[0], x, y);
      SubstTameSeq(k, es[1..], x, y);
      assert SubstSeq(x, y, es)[1..] == SubstSeq(x, y, es[1..]);
    }
  }

  lemma {:induction false} SubstTameTele(k: Lifting, t: Tele, x: Var, y: Expr)
    requires TameTele(k, t) && Fits(k, y, BindersOfTele(t))
    ensures TameTele(k, SubstTele(x, y, t)) && SubstTele(x, y, t).end.AbsEnd? == t.end.AbsEnd?
    decreases SizeTele(t), 1
  {
    if t.args == [] {
      match t.end
      case SigmaEnd =>
      case PiEnd(_, r) => SubstTame(k, r, x, y);
      case AbsEnd(_, r, b) => SubstTame(k, r, x, y); SubstTameStmts(k, b.stmts, x, y);
    } else {
      var a, rest := t.args[0], Rest(t);
      SubstTame(k, a.ty, x, y);
      if a.name.Some? { OccursNamed(y, a.name.value); }
      if a.name != Some(x) { SubstTameTele(k, rest, x, y); }
    }
  }

  lemma {:induction false} SubstTameStmts(k: Lifting, ss: seq<Stmt>, x: Var, y: Expr)
    requires TameStmts(k, ss) && Fits(k, y, BindersOfStmts(ss))
    ensures TameStmts(k, SubstStmts(x, y, ss))
    decreases SizeStmts(ss), 1
  {
    if ss != [] {
      SubstTameStmt(k, ss[0], x, y);
      SubstTameStmts(k, ss[1..], x, y);
      assert SubstStmts(x, y, ss)[1..] == SubstStmts(x, y, ss[1..]);
    }
  }

  lemma {:induction false} SubstTameStmt(k: Lifting, s: Stmt, x: Var, y: Expr)
    requires TameStmt(k, s) && Fits(k, y, BindersOfStmt(s))
    ensures TameStmt(k, SubstStmt(x, y, s))
    decreases SizeStmt(s), 0
  {
    match s
    case Call(_, f, es) => SubstTame(k, f, x, y); SubstTameSeq(k, es, x, y); SubstApart(f, es, x, y);
    case IfElse(c, t, e) =>
      SubstTame(k, c, x, y);
      SubstTameStmts(k, t.stmts, x, y);
      SubstReturns(t.stmts, x, y);
      if e.Some? { SubstTameStmts(k, e.value.stmts, x, y); }
    case Return(e) => if e.Some? { SubstTame(k, e.value, x, y); }
    case Impossible(e) => if e.Some? { SubstTame(k, e.value, x, y); }
  }

  // What returns, modulo constant conditions, still does when more conditions have become constants.
  lemma {:induction false} SubstReturns(ss: seq<Stmt>, x: Var, y: Expr)
    ensures Returns(ss) ==> Returns(SubstStmts(x, y, ss))
    decreases SizeStmts(ss), 1
  {
    if ss != [] {
      SubstReturnsStmt(ss[0], x, y);
      SubstReturns(ss[1..], x, y);
      assert SubstStmts(x, y, ss)[1..] == SubstStmts(x, y, ss[1..]);
    }
  }

  lemma {:induction false} SubstReturnsStmt(s: Stmt, x: Var, y: Expr)
    ensures ReturnsStmt(s) ==> ReturnsStmt(SubstStmt(x, y, s))
    decreases SizeStmt(s), 0
  {
    if s.IfElse? {
      SubstReturns(s.thenB.stmts, x, y);
      if s.elseB.Some? { SubstReturns(s.elseB.value.stmts, x, y); }
    }
  }

  // ---- without `impossible`, nothing is judged impossible ----

  lemma {:induction false} NothingImpossible(e: Expr)
    requires Tame(NoImpossible, e)
    ensures !IsImpossible(e)
    decreases Size(e), 0
  {
    match e
    case Atom(_) =>
    case VarE(_) =>
    case Node(_, es) => NothingImpossibleSeq(es);
    case App(_, f, es) => NothingImpossibleApp(f, es);
    case Because(v, _) => NothingImpossible(v);
    case Bind(t) => NothingImpossibleTele(t);
  }

  lemma {:induction false} NothingImpossibleApp(f: Expr, es: seq<Expr>)
    requires Tame(NoImpossible, f) && TameSeq(NoImpossible, es)
    ensures forall m :: !IsImpossible(App(m, f, es))
    decreases Size(f) + SizeSeq(es), 2
  {
    NothingImpossible(f);
    NothingImpossibleSeq(es);
    if IsAbs(f) {
      assert Size(f) == 1 + SizeTele(f.tele);
      NothingImpossibleBody(f.tele);
    }
  }

  lemma {:induction false} NothingImpossibleSeq(es: seq<Expr>)
    requires TameSeq(NoImpossible, es)
    ensures !AnyImpossible(es)
    decreases SizeSeq(es), 1
  {
    if es != [] { NothingImpossible(es[0]); NothingImpossibleSeq(es[1..]); }
  }

  lemma {:induction false} NothingImpossibleTele(t: Tele)
    requires TameTele(NoImpossible, t)
    ensures !ImpossibleSignature(t)
    decreases SizeTele(t), 1
  {
    if t.args == [] {
      match t.end
      case SigmaEnd =>
      case PiEnd(_, r) => NothingImpossible(r);
      case AbsEnd(_, r, _) => NothingImpossible(r);
    } else {
      var a, rest := t.args[0], Rest(t);
      NothingImpossible(a.ty);
      NothingImpossibleTele(rest);
    }
  }

  lemma {:induction false} NothingImpossibleBody(t: Tele)
    requires TameTele(NoImpossible, t) && t.end.AbsEnd?
    ensures !ImpossibleRange(t.end.body.stmts)
    decreases SizeTele(t), 1
  {
    if t.args == [] { NothingImpossibleStmts(t.end.body.stmts); } else { NothingImpossibleBody(Rest(t)); }
  }

  lemma {:induction false} NothingImpossibleStmts(ss: seq<Stmt>)
    requires TameStmts(NoImpossible, ss)
    ensures !ImpossibleRange(ss)
    decreases SizeStmts(ss), 1
  {
    if ss != [] { NothingImpossibleStmt(ss[0]); NothingImpossibleStmts(ss[1..]); }
  }

  lemma {:induction false} NothingImpossibleStmt(s: Stmt)
    requires TameStmt(NoImpossible, s)
    ensures !ImpossibleStmt(s)
    decreases SizeStmt(s), 0
  {
    match s
    case Call(m, f, es) => NothingImpossibleApp(f, es);
    case IfElse(c, t, e) => NothingImpossible(c); NothingImpossibleStmts(t.stmts);
    case Return(e) => if e.Some? { NothingImpossible(e.value); }
    case Impossible(_) =>
  }

  // ---- what the passes over statements leave ----

  predicate Within(ss: seq<Stmt>, zs: seq<Stmt>) {
    BindersOfStmts(ss) <= BindersOfStmts(zs) && NamesOfStmts(ss) <= NamesOfStmts(zs)
  }

  lemma {:induction false} TameAppend(k: Lifting, ss: seq<Stmt>, zs: seq<Stmt>)
    ensures TameStmts(k, ss + zs) <==> TameStmts(k, ss) && TameStmts(k, zs)
    ensures BindersOfStmts(ss + zs) == BindersOfStmts(ss) + BindersOfStmts(zs)
    ensures NamesOfStmts(ss + zs) == NamesOfStmts(ss) + NamesOfStmts(zs)
  {
    if ss == [] {
      assert ss + zs == zs;
    } else {
      assert (ss + zs)[0] == ss[0] && (ss + zs)[1..] == ss[1..] + zs;
      TameAppend(k, ss[1..], zs);
    }
  }

  lemma {:induction false} DropTame(k: Lifting, ss: seq<Stmt>)
    requires TameStmts(k, ss)
    ensures TameStmts(k, Drop(ss)) && Within(Drop(ss), ss)
    decreases SizeStmts(ss), 2
  {
    if ss != [] {
      DropUnfolds(ss);
      DropTameStmt(k, ss[0]);
      if !IsTerminator(ss[0]) { DropTame(k, ss[1..]); }
      var rest := if IsTerminator(ss[0]) then [] else Drop(ss[1..]);
      assert ([DropInStmt(ss[0])] + rest)[1..] == rest;
    }
  }

  lemma {:induction false} DropTameStmt(k: Lifting, s: Stmt)
    requires TameStmt(k, s)
    ensures TameStmt(k, DropInStmt(s))
    ensures BindersOfStmt(DropInStmt(s)) <= BindersOfStmt(s) && NamesOfStmt(DropInStmt(s)) <= NamesOfStmt(s)
    decreases SizeStmt(s), 1
  {
    if s.IfElse? {
      DropTame(k, s.thenB.stmts);
      DropReturns(s.thenB.stmts);
      if s.elseB.Some? { DropTame(k, s.elseB.value.stmts); }
    }
  }

  lemma {:induction false} SecondPassTame(k: Lifting, ss: seq<Stmt>)
    requires TameStmts(k, ss) && (k == ElseOrReturns ==> SettledBranches(ss))
    ensures TameStmts(k, SecondPass(ss)) && Within(SecondPass(ss), ss) && (k != Anything ==> LiftOk(ss))
    decreases SizeStmts(ss)
  {
    if ss != [] {
      assert [ss[0]] + ss[1..] == ss;
      if k == NoImpossible { NothingImpossibleStmts(ss[1..]); }
      if k == ElseOrReturns {
        LookSettled(ss[0], ss[1..]);
        if Lifts(ss[0], ss[1..]) { SettledReturns(ss[0].thenB.stmts); }
      }
      match Look(ss[0], ss[1..])
      case Keep =>
        SecondPassTame(k, ss[1..]);
        assert ([ss[0]] + SecondPass(ss[1..]))[1..] == SecondPass(ss[1..]);
      case Restart(next) =>
        LookTame(k, ss[0], ss[1..]);
        SecondPassTame(k, next);
    }
  }

  lemma LookTame(k: Lifting, s: Stmt, rest: seq<Stmt>)
    requires TameStmt(k, s) && TameStmts(k, rest) && Look(s, rest).Restart?
    ensures var next := Look(s, rest).stmts;
            && TameStmts(k, next)
            && BindersOfStmts(next) <= BindersOfStmt(s) + BindersOfStmts(rest)
            && NamesOfStmts(next) <= NamesOfStmt(s) + NamesOfStmts(rest)
  {
    LookShape(s, rest);
    if s.IfElse? {
      IfNames(k, s);
      BranchTame(k, s.thenB.stmts, rest);
      if s.elseB.Some? { BranchTame(k, s.elseB.value.stmts, rest); }
    }
  }

  lemma LookShape(s: Stmt, rest: seq<Stmt>)
    requires Look(s, rest).Restart?
    ensures var next := Look(s, rest).stmts;
            || next == rest
            || (s.IfElse? && (next == Drop(s.thenB.stmts) || next == Drop(s.thenB.stmts + rest)))
            || (s.IfElse? && s.elseB.Some? && next == Drop(s.elseB.value.stmts + rest))
  {
  }

  lemma IfNames(k: Lifting, s: Stmt)
    requires s.IfElse? && TameStmt(k, s)
    ensures TameStmts(k, s.thenB.stmts) && (s.elseB.Some? ==> TameStmts(k, s.elseB.value.stmts))
    ensures BindersOfStmts(s.thenB.stmts) <= BindersOfStmt(s) && NamesOfStmts(s.thenB.stmts) <= NamesOfStmt(s)
    ensures s.elseB.Some? ==>
              BindersOfStmts(s.elseB.value.stmts) <= BindersOfStmt(s)
                && NamesOfStmts(s.elseB.value.stmts) <= NamesOfStmt(s)
  {
  }

  lemma BranchTame(k: Lifting, branch: seq<Stmt>, rest: seq<Stmt>)
    requires TameStmts(k, branch) && TameStmts(k, rest)
    ensures TameStmts(k, Drop(branch)) && Within(Drop(branch), branch)
    ensures TameStmts(k, Drop(branch + rest))
    ensures BindersOfStmts(Drop(branch + rest)) <= BindersOfStmts(branch) + BindersOfStmts(rest)
    ensures NamesOfStmts(Drop(branch + rest)) <= NamesOfStmts(branch) + NamesOfStmts(rest)
  {
    TameAppend(k, branch, rest);
    DropTame(k, branch);
    DropTame(k, branch + rest);
  }

  // ---- beta steps ----

  lemma {:induction false} BetaTame(k: Lifting, t: Tele, values: seq<Expr>)
    requires |values| == |t.args| && TameTele(k, t) && TameSeq(k, values) && LegalSeq(values)
    requires BindersOfSeq(values) == {} && BindersOfTele(t) !! NamesOfSeq(values)
    ensures var r := BetaTele(t, values);
            && BetaOk(t, values) && TameTele(k, r)
            && BindersOfTele(r) <= BindersOfTele(t) && NamesOfTele(r) <= NamesOfTele(t) + NamesOfSeq(values)
    decreases |t.args|
  {
    if t.args != [] {
      var name, rest, y := t.args[0].name, Rest(t), values[0];
      var next := if name.Some? then SubstTele(name.value, y, rest) else rest;
      if name.Some? {
        ApartOkTele(rest, name.value, y);
        SubstNamesTele(rest, name.value, y);
        SubstTameTele(k, rest, name.value, y);
      }
      BetaTame(k, next, values[1..]);
    }
  }

  // ---- normalisation ----

  lemma {:induction false} NormaliseTame(k: Lifting, e: Expr, fuel: nat)
    requires Tame(k, e) && Legal(e)
    ensures var r := Normalise(e, fuel);
            && Tame(k, r) && BindersOf(r) <= BindersOf(e) && NamesOf(r) <= NamesOf(e)
            && RunsFresh(e, fuel) && (k != Anything ==> Clean(e, fuel))
    decreases fuel, Size(e), 1
  {
    match e
    case Atom(_) =>
    case VarE(_) =>
    case Node(_, es) => NormaliseTameSeq(k, es, fuel);
    case App(m, f, es) =>
      NormaliseTameApp(k, m, f, es, fuel);
      NormaliseLegalApp(m, f, es, fuel);
      ExtractTame(k, m, NormaliseApp(f, es, fuel));
    case Because(v, r) => NormaliseTame(k, v, fuel); NormaliseTame(k, r, fuel);
    case Bind(t) => NormaliseTameTele(k, t, fuel);
  }

  lemma {:induction false} NormaliseTameSeq(k: Lifting, es: seq<Expr>, fuel: nat)
    requires TameSeq(k, es) && LegalSeq(es)
    ensures var r := NormaliseSeq(es, fuel);
            && TameSeq(k, r) && BindersOfSeq(r) <= BindersOfSeq(es) && NamesOfSeq(r) <= NamesOfSeq(es)
            && RunsFreshSeq(es, fuel) && (k != Anything ==> CleanSeq(es, fuel))
    decreases fuel, SizeSeq(es), 2
  {
    if es != [] {
      NormaliseTame(k, es[0], fuel);
      NormaliseTameSeq(k, es[1..], fuel);
      assert NormaliseSeq(es, fuel)[1..] == NormaliseSeq(es[1..], fuel);
    }
  }

  // A function and its arguments, none the wilder for having been normalised.
  predicate TameCall(k: Lifting, f: Expr, es: seq<Expr>) {
    Tame(k, f) && TameSeq(k, es) && (IsAbs(f) ==> NoClash(f, es))
  }

  lemma {:induction false} NormaliseTameApp(k: Lifting, m: bool, f: Expr, es: seq<Expr>, fuel: nat)
    requires TameCall(k, f, es) && Legal(App(m, f, es))
    ensures var (g, vs) := NormaliseApp(f, es, fuel);
            && TameCall(k, g, vs) && BindersOf(g) + BindersOfSeq(vs) <= BindersOf(f) + BindersOfSeq(es)
            && NamesOf(g) + NamesOfSeq(vs) <= NamesOf(f) + NamesOfSeq(es)
    ensures RunsFreshApp(f, es, fuel) && (k != Anything ==> CleanApp(f, es, fuel))
    decreases fuel, 1 + Size(f) + SizeSeq(es), 0
  {
    var g, vs := Normalise(f, fuel), NormaliseSeq(es, fuel);
    NormaliseTame(k, f, fuel);
    NormaliseTameSeq(k, es, fuel);
    NormaliseLegal(f, fuel);
    NormaliseLegalSeq(es, fuel);
    if !AnyMutable(vs) && IsRedex(g, vs) && fuel > 0 {
      assert Size(f) == 1 + SizeTele(f.tele) && g == Bind(NormaliseTele(f.tele, fuel));
      NormaliseLegalTele(f.tele, fuel);
      BetaEnd(g.tele, vs);
      ContractedTame(k, g.tele, vs, fuel);
    }
  }

  lemma {:induction false} ContractedTame(k: Lifting, t: Tele, vs: seq<Expr>, fuel: nat)
    requires fuel > 0 && t.end.AbsEnd? && |t.args| == |vs| && LegalTele(t) && LegalSeq(vs) && !AnyMutable(vs)
    requires TameTele(k, t) && TameSeq(k, vs) && NoClash(Bind(t), vs) && BetaTele(t, vs).end.AbsEnd?
    ensures var end := BetaTele(t, vs).end;
            var r := Bind(Tele([], AbsEnd(end.isMutable, end.ret, Body(NormaliseBody(end.body.stmts, fuel - 1)))));
            && Tame(k, r) && BindersOf(r) <= BindersOfTele(t) && NamesOf(r) <= NamesOfTele(t) + NamesOfSeq(vs)
            && BetaOk(t, vs) && RunsFreshBody(end.body.stmts, fuel - 1)
            && (k != Anything ==> CleanBody(end.body.stmts, fuel - 1))
    decreases fuel, 0, 0
  {
    BetaTame(k, t, vs);
    BetaLegal(t, vs);
    NormaliseTameBody(k, BetaTele(t, vs).end.body.stmts, fuel - 1);
  }

  lemma EndTame(k: Lifting, t: Tele)
    requires t.args == [] && t.end.AbsEnd? && TameTele(k, t)
    ensures var ss := t.end.body.stmts;
            TameStmts(k, ss) && BindersOfStmts(ss) <= BindersOfTele(t) && NamesOfStmts(ss) <= NamesOfTele(t)
  {
  }

  lemma ReturnTame(k: Lifting, e: Expr)
    requires TameStmt(k, Return(Some(e)))
    ensures Tame(k, e) && BindersOf(e) == BindersOfStmt(Return(Some(e))) && NamesOf(e) == NamesOfStmt(Return(Some(e)))
  {
  }

  lemma ExtractTame(k: Lifting, m: bool, app: (Expr, seq<Expr>))
    requires TameCall(k, app.0, app.1) && Legal(App(m, app.0, app.1))
    ensures var r := Extract(m, app);
            && Tame(k, r) && BindersOf(r) <= BindersOf(app.0) + BindersOfSeq(app.1)
            && NamesOf(r) <= NamesOf(app.0) + NamesOfSeq(app.1)
  {
    var (f, es) := app;
    if es == [] && IsAbs(f) && |f.tele.end.body.stmts| == 1 {
      EndTame(k, f.tele);
      var s := f.tele.end.body.stmts[0];
      assert TameStmts(k, [s]) && f.tele.end.body.stmts == [s];
      assert BindersOfStmt(s) <= BindersOfStmts([s]) && NamesOfStmt(s) <= NamesOfStmts([s]);
      if s.Return? && s.value.Some? { ReturnTame(k, s.value.value); }
    }
  }

  lemma {:induction false} NormaliseTameTele(k: Lifting, t: Tele, fuel: nat)
    requires TameTele(k, t) && LegalTele(t)
    ensures var r := NormaliseTele(t, fuel);
            && TameTele(k, r) && BindersOfTele(r) <= BindersOfTele(t) && NamesOfTele(r) <= NamesOfTele(t)
            && RunsFreshTele(t, fuel) && (k != Anything ==> CleanTele(t, fuel))
    decreases fuel, SizeTele(t), 4
  {
    if t.args == [] {
      match t.end
      case SigmaEnd =>
      case PiEnd(_, r) => NormaliseTame(k, r, fuel);
      case AbsEnd(_, r, b) => NormaliseTame(k, r, fuel); NormaliseTameBody(k, b.stmts, fuel);
    } else {
      var a, rest := t.args[0], Rest(t);
      NormaliseTame(k, a.ty, fuel);
      NormaliseTameTele(k, rest, fuel);
    }
  }

  lemma {:induction false} NormaliseTameBody(k: Lifting, ss: seq<Stmt>, fuel: nat)
    requires TameStmts(k, ss) && LegalStmts(ss)
    ensures var r := NormaliseBody(ss, fuel);
            && TameStmts(k, r) && Within(r, ss)
            && RunsFreshBody(ss, fuel) && (k != Anything ==> CleanBody(ss, fuel))
    decreases fuel, SizeStmts(ss), 4
  {
    DropLegal(ss);
    DropTame(k, ss);
    NormaliseTameStmts(k, Drop(ss), fuel);
    StmtsSettled(Drop(ss), fuel);
    SecondPassTame(k, NormaliseStmts(Drop(ss), fuel));
  }

  lemma {:induction false} NormaliseTameStmts(k: Lifting, ss: seq<Stmt>, fuel: nat)
    requires TameStmts(k, ss) && LegalStmts(ss)
    ensures var r := NormaliseStmts(ss, fuel);
            && TameStmts(k, r) && Within(r, ss)
            && RunsFreshStmts(ss, fuel) && (k != Anything ==> CleanStmts(ss, fuel))
    decreases fuel, SizeStmts(ss), 3
  {
    if ss != [] {
      NormaliseTameStmt(k, ss[0], fuel);
      NormaliseTameStmts(k, ss[1..], fuel);
      assert NormaliseStmts(ss, fuel)[1..] == NormaliseStmts(ss[1..], fuel);
    }
  }

  lemma {:induction false} NormaliseTameStmt(k: Lifting, s: Stmt, fuel: nat)
    requires TameStmt(k, s) && LegalStmt(s)
    ensures var r := NormaliseStmt(s, fuel);
            && TameStmt(k, r) && BindersOfStmt(r) <= BindersOfStmt(s) && NamesOfStmt(r) <= NamesOfStmt(s)
            && RunsFreshStmt(s, fuel) && (k != Anything ==> CleanStmt(s, fuel))
    decreases fuel, SizeStmt(s), 2
  {
    match s
    case Call(m, f, es) => NormaliseTameApp(k, m, f, es, fuel);
    case IfElse(c, t, e) =>
      NormaliseTame(k, c, fuel);
      NormaliseTameBody(k, t.stmts, fuel);
      if k == ElseOrReturns && Returns(t.stmts) { BodyReturns(t.stmts, fuel); }
      if e.Some? { NormaliseTameBody(k, e.value.stmts, fuel); }
    case Return(e) => if e.Some? { NormaliseTame(k, e.value, fuel); }
    case Impossible(e) => if e.Some? { NormaliseTame(k, e.value, fuel); }
  }

  /** `if (c) return e; impossible;` is in the class, is lifted, and becomes `return e;`. */
  lemma EarlyReturn(c: Expr, e: Expr)
    requires Tame(ElseOrReturns, c) && Tame(ElseOrReturns, e) && !IsMutable(c) && !IsConst(c) && !IsImpossible(e)
    ensures var ss := [IfElse(c, Body([Return(Some(e))]), None), Impossible(None)];
            TameStmts(ElseOrReturns, ss) && Lifts(ss[0], ss[1..]) && SecondPass(ss) == [Return(Some(e))]
  {
    var branch, rest := [Return(Some(e))], [Impossible(None)];
    var s := IfElse(c, Body(branch), None);
    var ss := [s, Impossible(None)];
    assert ss[0] == s && ss[1..] == rest && rest[1..] == [] && branch[1..] == [];
    assert TameStmts(ElseOrReturns, []) && TameStmt(ElseOrReturns, branch[0]) && TameStmt(ElseOrReturns, rest[0]);
    assert TameStmts(ElseOrReturns, branch) && TameStmts(ElseOrReturns, rest) && Returns(branch);
    assert !ImpossibleRange(branch) && ImpossibleRange(rest);
    DropUnfolds(branch);
    assert Drop(branch) == branch;
    assert Look(s, rest) == Restart(branch);
    assert SecondPass(branch) == branch;
  }

  // ---- the theorems ----

  /** The normal form, which no further fuel changes, means what the body means wherever the hypotheses it was typed
      under hold; it is guarded there, and legal. */
  lemma LimitTheorem(I: Interp, H: Env -> bool, ss: seq<Stmt>)
    requires LegalStmts(ss) && (forall fuel :: RunsFreshBody(ss, fuel)) && CleanBody(ss, Enough(ss))
    requires forall env | H(env) :: GuardedStmts(I, ss, env)
    ensures var r := NormaliseBody(ss, Enough(ss));
            && (forall fuel :: fuel >= Enough(ss) ==> NormaliseBody(ss, fuel) == r)
            && LegalStmts(r) && (Returns(ss) ==> Returns(r))
            && (forall env | H(env) :: GuardedStmts(I, r, env))
            && (forall env, tr | H(env) :: Exec(I, r, env, tr) == Exec(I, ss, env, tr))
  {
    var enough := Enough(ss);
    NormaliserTheorem.NormaliserTheorem(I, H, ss, enough);
    forall fuel | fuel >= enough ensures NormaliseBody(ss, fuel) == NormaliseBody(ss, enough) {
      NormalisationEnds(ss, fuel);
    }
  }

  /** Tame bodies are normalised in finitely many steps. */
  lemma TameEnds(ss: seq<Stmt>, fuel: nat)
    requires LegalStmts(ss) && TameStmts(Anything, ss) && fuel >= Enough(ss)
    ensures NormaliseBody(ss, fuel) == NormaliseBody(ss, Enough(ss))
  {
    forall k ensures RunsFreshBody(ss, k) { NormaliseTameBody(Anything, ss, k); }
    NormalisationEnds(ss, fuel);
  }

  /** For a tame body without `impossible`, or in which every `if` has an else or a branch that returns, nothing else
      needs to be known. */
  lemma TameTheorem(I: Interp, H: Env -> bool, k: Lifting, ss: seq<Stmt>)
    requires LegalStmts(ss) && k != Anything && TameStmts(k, ss)
    requires forall env | H(env) :: GuardedStmts(I, ss, env)
    ensures var r := NormaliseBody(ss, Enough(ss));
            && (forall fuel :: fuel >= Enough(ss) ==> NormaliseBody(ss, fuel) == r)
            && LegalStmts(r) && TameStmts(k, r) && (Returns(ss) ==> Returns(r))
            && (forall env | H(env) :: GuardedStmts(I, r, env))
            && (forall env, tr | H(env) :: Exec(I, r, env, tr) == Exec(I, ss, env, tr))
  {
    forall fuel ensures RunsFreshBody(ss, fuel) { NormaliseTameBody(k, ss, fuel); }
    NormaliseTameBody(k, ss, Enough(ss));
    LimitTheorem(I, H, ss);
  }
}
