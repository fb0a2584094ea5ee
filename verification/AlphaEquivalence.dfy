/** Alpha-equivalence as the source decides it, by renaming two telescopes in lock-step, against equality of nameless
    terms. What alpha-equivalence ignores by design (quantities, scope ids, reasons) is erased from the nameless
    side. */
module AlphaEquivalence {
  import opened Ast
  import opened Binders
  import opened Nameless
  import opened Substitution

  predicate SameOp(p: Op, q: Op) {
    p == q || (p.ScopeOf? && q.ScopeOf?)
  }

  predicate AlphaEq(x: Expr, y: Expr)
    decreases Size(x) + Size(y), 0
  {
    if x.Because? && y.Because? then AlphaEq(x.value, y.value)
    else if x.Because? then AlphaEq(x.value, y)
    else if y.Because? then AlphaEq(x, y.value)
    else match (x, y)
      case (Atom(a), Atom(b)) => a == b
      case (VarE(v), VarE(w)) => v == w
      case (Node(p, es), Node(q, fs)) => SameOp(p, q) && AlphaEqSeq(es, fs)
      case (App(_, f, es), App(_, g, fs)) => |es| == |fs| && AlphaEq(f, g) && AlphaEqSeq(es, fs)
      case (Bind(t), Bind(u)) => AlphaEqTele(t, u)
      case _ => false
  }

  predicate AlphaEqSeq(es: seq<Expr>, fs: seq<Expr>)
    decreases SizeSeq(es) + SizeSeq(fs), 1
  {
    if es == [] || fs == [] then es == fs
    else AlphaEq(es[0], fs[0]) && AlphaEqSeq(es[1..], fs[1..])
  }

  // Names of two corresponding binders are made equal by renaming, in the telescope where the fresh index is smaller.
  function Align(v: Var, t: Tele, w: Var, u: Tele): (r: (Tele, Tele))
    ensures SizeTele(r.0) == SizeTele(t) && SizeTele(r.1) == SizeTele(u)
  {
    if v == w then (t, u)
    else
      var v', w' := FreshVar(v, t), FreshVar(w, u);
      var t', u' := ReplaceTele(v, v', t), ReplaceTele(w, w', u);
      if v' == w' then (t', u')
      else if v'.idx > w'.idx then (t', ReplaceTele(w', v', u'))
      else (ReplaceTele(v', w', t'), u')
  }

  predicate AlphaEqTele(t: Tele, u: Tele)
    decreases SizeTele(t) + SizeTele(u), 1
  {
    if t.args == [] && u.args == [] then
      match (t.end, u.end)
      case (SigmaEnd, SigmaEnd) => true
      case (PiEnd(m, r), PiEnd(n, s)) => m == n && AlphaEq(r, s)
      case (AbsEnd(m, r, b), AbsEnd(n, s, c)) => m == n && AlphaEq(r, s) && AlphaEqStmts(b.stmts, c.stmts)
      case _ => false
    else if t.args == [] || u.args == [] then false
    else
      var a, b := t.args[0], u.args[0];
      var t', u' := Rest(t), Rest(u);
      && AlphaEq(a.ty, b.ty)
      && (match (a.name, b.name)
          case (Some(v), Some(w)) =>
            var aligned := Align(v, t', w, u');
            AlphaEqTele(aligned.0, aligned.1)
          case (Some(v), None) => !OccursInTele(v, t', false) && AlphaEqTele(t', u')
          case (None, Some(w)) => !OccursInTele(w, u', false) && AlphaEqTele(t', u')
          case (None, None) => AlphaEqTele(t', u'))
  }

  predicate AlphaEqStmts(ss: seq<Stmt>, zs: seq<Stmt>)
    decreases SizeStmts(ss) + SizeStmts(zs), 1
  {
    if ss == [] || zs == [] then ss == zs
    else AlphaEqStmt(ss[0], zs[0]) && AlphaEqStmts(ss[1..], zs[1..])
  }

  predicate AlphaEqStmt(s: Stmt, z: Stmt)
    decreases SizeStmt(s) + SizeStmt(z), 0
  {
    match (s, z)
    case (Call(_, f, es), Call(_, g, fs)) => |es| == |fs| && AlphaEq(f, g) && AlphaEqSeq(es, fs)
    case (IfElse(c, t, e), IfElse(d, u, k)) =>
      && AlphaEq(c, d)
      && AlphaEqStmts(t.stmts, u.stmts)
      && (e.Some? <==> k.Some?)
      && (e.Some? && k.Some? ==> AlphaEqStmts(e.value.stmts, k.value.stmts))
    case (Return(e), Return(k)) => (e.Some? <==> k.Some?) && (e.Some? && k.Some? ==> AlphaEq(e.value, k.value))
    case (Impossible(_), Impossible(_)) => true
    case _ => false
  }

  // ---- reflexivity, with or without reasons ----

  lemma {:induction false} AlphaRefl(e: Expr)
    ensures AlphaEq(e, e)
    decreases Size(e), 0
  {
    match e
    case Atom(_) =>
    case VarE(_) =>
    case Node(_, es) => AlphaReflSeq(es);
    case App(_, f, es) => AlphaRefl(f); AlphaReflSeq(es);
    case Because(v, _) => AlphaRefl(v);
    case Bind(t) => AlphaReflTele(t);
  }

  lemma {:induction false} AlphaReflSeq(es: seq<Expr>)
    ensures AlphaEqSeq(es, es)
    decreases SizeSeq(es), 1
  {
    if es != [] { AlphaRefl(es[0]); AlphaReflSeq(es[1..]); }
  }

  lemma {:induction false} AlphaReflTele(t: Tele)
    ensures AlphaEqTele(t, t)
    decreases SizeTele(t), 1
  {
    if t.args == [] {
      match t.end
      case SigmaEnd =>
      case PiEnd(_, r) => AlphaRefl(r);
      case AbsEnd(_, r, b) => AlphaRefl(r); AlphaReflStmts(b.stmts);
    } else {
      var a, rest := t.args[0], Rest(t);
      AlphaRefl(a.ty);
      AlphaReflTele(rest);
    }
  }

  lemma {:induction false} AlphaReflStmts(ss: seq<Stmt>)
    ensures AlphaEqStmts(ss, ss)
    decreases SizeStmts(ss), 1
  {
    if ss != [] { AlphaReflStmt(ss[0]); AlphaReflStmts(ss[1..]); }
  }

  lemma {:induction false} AlphaReflStmt(s: Stmt)
    ensures AlphaEqStmt(s, s)
    decreases SizeStmt(s), 0
  {
    match s
    case Call(_, f, es) => AlphaRefl(f); AlphaReflSeq(es);
    case IfElse(c, t, e) =>
      AlphaRefl(c);
      AlphaReflStmts(t.stmts);
      if e.Some? { AlphaReflStmts(e.value.stmts); }
    case Return(e) => if e.Some? { AlphaRefl(e.value); }
    case Impossible(_) =>
  }

  // The binder case as the source runs it: both telescopes are edited while the loop walks down them.
  method AlphaEquivalentTelescopes(t: Tele, u: Tele) returns (eq: bool)
    ensures eq == AlphaEqTele(t, u)
  {
    if |t.args| != |u.args| {
      DifferentLengths(t, u);
      return false;
    }
    var x, y := t, u;
    while x.args != []
      invariant |x.args| == |y.args|
      invariant AlphaEqTele(x, y) == AlphaEqTele(t, u)
      decreases |x.args|
    {
      var a, b := x.args[0], y.args[0];
      var x', y' := Rest(x), Rest(y);
      if !AlphaEq(a.ty, b.ty) {
        return false;
      }
      if a.name.Some? && b.name.Some? {
        if a.name != b.name {
          var v, w;
          v, x' := Rename(a.name.value, x');
          w, y' := Rename(b.name.value, y');
          if v == w {
          } else if v.idx > w.idx {
            y' := ReplaceInTelescope(w, v, y');
          } else {
            x' := ReplaceInTelescope(v, w, x');
          }
        }
        assert (x', y') == Align(a.name.value, Rest(x), b.name.value, Rest(y));
      } else if a.name.Some? {
        if OccursInTele(a.name.value, x', false) {
          return false;
        }
      } else if b.name.Some? {
        if OccursInTele(b.name.value, y', false) {
          return false;
        }
      }
      x, y := x', y';
    }
    eq := match (x.end, y.end)
      case (SigmaEnd, SigmaEnd) => true
      case (PiEnd(m, r), PiEnd(n, s)) => m == n && AlphaEq(r, s)
      case (AbsEnd(m, r, b), AbsEnd(n, s, c)) => m == n && AlphaEq(r, s) && AlphaEqStmts(b.stmts, c.stmts)
      case _ => false;
  }

  lemma {:induction false} DifferentLengths(t: Tele, u: Tele)
    requires |t.args| != |u.args|
    ensures !AlphaEqTele(t, u)
    decreases |t.args|
  {
    if t.args != [] && u.args != [] {
      var t', u' := Rest(t), Rest(u);
      match (t.args[0].name, u.args[0].name)
      case (Some(v), Some(w)) => var aligned := Align(v, t', w, u'); DifferentLengths(aligned.0, aligned.1);
      case _ => DifferentLengths(t', u');
    }
  }

  // ---- what alpha-equivalence does not look at ----

  function Erase(e: NExpr): NExpr
    decreases e, 1
  {
    match e
    case NAtom(_) => e
    case NFree(_) => e
    case NBound(_) => e
    case NNode(op, es) => NNode(if op.ScopeOf? then ScopeOf(0) else op, EraseSeq(es))
    case NApp(_, f, es) => NApp(false, Erase(f), EraseSeq(es))
    case NBecause(v, _) => Erase(v)
    case NBind(t) => NBind(EraseTele(t))
  }

  function EraseSeq(es: seq<NExpr>): (r: seq<NExpr>)
    ensures |r| == |es|
    decreases es, 0
  {
    if es == [] then [] else [Erase(es[0])] + EraseSeq(es[1..])
  }

  function EraseTele(t: NTele): NTele
    decreases t, 1
  {
    match t
    case NArg(_, ty, rest) => NArg(Many, Erase(ty), EraseTele(rest))
    case NSigmaEnd => t
    case NPiEnd(m, r) => NPiEnd(m, Erase(r))
    case NAbsEnd(m, r, b) => NAbsEnd(m, Erase(r), NBody(EraseStmts(b.stmts)))
  }

  function EraseStmts(ss: seq<NStmt>): (r: seq<NStmt>)
    ensures |r| == |ss|
    decreases ss, 0
  {
    if ss == [] then [] else [EraseStmt(ss[0])] + EraseStmts(ss[1..])
  }

  function EraseStmt(s: NStmt): NStmt
    decreases s, 1
  {
    match s
    case NCall(_, f, es) => NCall(false, Erase(f), EraseSeq(es))
    case NIfElse(c, t, e) =>
      NIfElse(Erase(c), NBody(EraseStmts(t.stmts)),
              match e case None => None case Some(b) => Some(NBody(EraseStmts(b.stmts))))
    case NReturn(e) => NReturn(match e case None => None case Some(r) => Some(Erase(r)))
    case NImpossible(_) => NImpossible(None)
  }

  // No `because` and no reason for an `impossible`.
  predicate ReasonFree(e: Expr)
    decreases Size(e), 0
  {
    match e
    case Atom(_) => true
    case VarE(_) => true
    case Node(_, es) => ReasonFreeSeq(es)
    case App(_, f, es) => ReasonFree(f) && ReasonFreeSeq(es)
    case Because(_, _) => false
    case Bind(t) => ReasonFreeTele(t)
  }

  predicate ReasonFreeSeq(es: seq<Expr>)
    decreases SizeSeq(es), 1
  {
    es != [] ==> ReasonFree(es[0]) && ReasonFreeSeq(es[1..])
  }

  predicate ReasonFreeTele(t: Tele)
    decreases SizeTele(t), 1
  {
    if t.args == [] then
      match t.end
      case SigmaEnd => true
      case PiEnd(_, r) => ReasonFree(r)
      case AbsEnd(_, r, b) => ReasonFree(r) && ReasonFreeStmts(b.stmts)
    else
      var a, rest := t.args[0], Rest(t);
      ReasonFree(a.ty) && ReasonFreeTele(rest)
  }

  predicate ReasonFreeStmts(ss: seq<Stmt>)
    decreases SizeStmts(ss), 1
  {
    ss != [] ==> ReasonFreeStmt(ss[0]) && ReasonFreeStmts(ss[1..])
  }

  predicate ReasonFreeStmt(s: Stmt)
    decreases SizeStmt(s), 0
  {
    match s
    case Call(_, f, es) => ReasonFree(f) && ReasonFreeSeq(es)
    case IfElse(c, t, e) =>
      && ReasonFree(c)
      && ReasonFreeStmts(t.stmts)
      && (e.Some? ==> ReasonFreeStmts(e.value.stmts))
    case Return(e) => e.Some? ==> ReasonFree(e.value)
    case Impossible(e) => e.None?
  }

  // Some variable is bound exactly `k` binders out.
  predicate HasBound(k: nat, e: NExpr)
    decreases e, 1
  {
    match e
    case NAtom(_) => false
    case NFree(_) => false
    case NBound(i) => i == k
    case NNode(_, es) => HasBoundSeq(k, es)
    case NApp(_, f, es) => HasBound(k, f) || HasBoundSeq(k, es)
    case NBecause(x, r) => HasBound(k, x) || HasBound(k, r)
    case NBind(t) => HasBoundTele(k, t)
  }

  predicate HasBoundSeq(k: nat, es: seq<NExpr>)
    decreases es, 0
  {
    es != [] && (HasBound(k, es[0]) || HasBoundSeq(k, es[1..]))
  }

  predicate HasBoundTele(k: nat, t: NTele)
    decreases t, 1
  {
    match t
    case NArg(_, ty, rest) => HasBound(k, ty) || HasBoundTele(k + 1, rest)
    case NSigmaEnd => false
    case NPiEnd(_, r) => HasBound(k, r)
    case NAbsEnd(_, r, b) => HasBound(k, r) || HasBoundStmts(k, b.stmts)
  }

  predicate HasBoundStmts(k: nat, ss: seq<NStmt>)
    decreases ss, 0
  {
    ss != [] && (HasBoundStmt(k, ss[0]) || HasBoundStmts(k, ss[1..]))
  }

  predicate HasBoundStmt(k: nat, s: NStmt)
    decreases s, 1
  {
    match s
    case NCall(_, f, es) => HasBound(k, f) || HasBoundSeq(k, es)
    case NIfElse(c, t, e) =>
      || HasBound(k, c)
      || HasBoundStmts(k, t.stmts)
      || (e.Some? && HasBoundStmts(k, e.value.stmts))
    case NReturn(e) => e.Some? && HasBound(k, e.value)
    case NImpossible(e) => e.Some? && HasBound(k, e.value)
  }

  // A binder that is referred to in a reason is also referred to elsewhere.
  predicate NFair(e: NExpr)
    decreases e, 1
  {
    match e
    case NAtom(_) => true
    case NFree(_) => true
    case NBound(_) => true
    case NNode(_, es) => NFairSeq(es)
    case NApp(_, f, es) => NFair(f) && NFairSeq(es)
    case NBecause(v, _) => NFair(v)
    case NBind(t) => NFairTele(t)
  }

  predicate NFairSeq(es: seq<NExpr>)
    decreases es, 0
  {
    es != [] ==> NFair(es[0]) && NFairSeq(es[1..])
  }

  predicate NFairTele(t: NTele)
    decreases t, 1
  {
    match t
    case NArg(_, ty, rest) => NFair(ty) && NFairTele(rest) && OuterFair(rest)
    case NSigmaEnd => true
    case NPiEnd(_, r) => NFair(r)
    case NAbsEnd(_, r, b) => NFair(r) && NFairStmts(b.stmts)
  }

  // This holds of the binder around a telescope.
  predicate OuterFair(t: NTele) {
    HasBoundTele(0, t) ==> HasBoundTele(0, EraseTele(t))
  }

  predicate NFairStmts(ss: seq<NStmt>)
    decreases ss, 0
  {
    ss != [] ==> NFairStmt(ss[0]) && NFairStmts(ss[1..])
  }

  predicate NFairStmt(s: NStmt)
    decreases s, 1
  {
    match s
    case NCall(_, f, es) => NFair(f) && NFairSeq(es)
    case NIfElse(c, t, e) => NFair(c) && NFairStmts(t.stmts) && (e.Some? ==> NFairStmts(e.value.stmts))
    case NReturn(e) => e.Some? ==> NFair(e.value)
    case NImpossible(_) => true
  }

  // An anonymous binder is referred to by nothing, a named one wherever its name occurs free, reasons included.
  lemma {:induction false} BoundWhereUsed(e: Expr, sc: Scope, k: nat, name: Option<Var>)
    requires k < |sc| && sc[k] == name
    ensures name.None? ==> !HasBound(k, ToNameless(e, sc)) && !HasBound(k, Erase(ToNameless(e, sc)))
    ensures name.Some? && Find(sc, name.value) == Some(k) && OccursIn(name.value, e, false) ==>
            HasBound(k, ToNameless(e, sc))
    decreases Size(e), 0
  {
    match e
    case Atom(_) =>
    case VarE(v) => FindBelow(sc, v);
    case Node(_, es) => BoundWhereUsedSeq(es, sc, k, name);
    case App(_, f, es) => BoundWhereUsed(f, sc, k, name); BoundWhereUsedSeq(es, sc, k, name);
    case Because(v, r) => BoundWhereUsed(v, sc, k, name); BoundWhereUsed(r, sc, k, name);
    case Bind(t) => BoundWhereUsedTele(t, sc, k, name);
  }

  lemma {:induction false} BoundWhereUsedSeq(es: seq<Expr>, sc: Scope, k: nat, name: Option<Var>)
    requires k < |sc| && sc[k] == name
    ensures name.None? ==> !HasBoundSeq(k, ToNamelessSeq(es, sc)) && !HasBoundSeq(k, EraseSeq(ToNamelessSeq(es, sc)))
    ensures name.Some? && Find(sc, name.value) == Some(k) && OccursInSeq(name.value, es, false) ==>
            HasBoundSeq(k, ToNamelessSeq(es, sc))
    decreases SizeSeq(es), 1
  {
    if es != [] {
      BoundWhereUsed(es[0], sc, k, name);
      BoundWhereUsedSeq(es[1..], sc, k, name);
    }
  }

  lemma {:induction false} BoundWhereUsedTele(t: Tele, sc: Scope, k: nat, name: Option<Var>)
    requires k < |sc| && sc[k] == name
    ensures name.None? ==> !HasBoundTele(k, ToNamelessTele(t, sc)) && !HasBoundTele(k, EraseTele(ToNamelessTele(t, sc)))
    ensures name.Some? && Find(sc, name.value) == Some(k) && OccursInTele(name.value, t, false) ==>
            HasBoundTele(k, ToNamelessTele(t, sc))
    decreases SizeTele(t), 1
  {
    if t.args == [] {
      match t.end
      case SigmaEnd =>
      case PiEnd(_, r) => BoundWhereUsed(r, sc, k, name);
      case AbsEnd(_, r, b) => BoundWhereUsed(r, sc, k, name); BoundWhereUsedStmts(b.stmts, sc, k, name);
    } else {
      var a, rest := t.args[0], Rest(t);
      BoundWhereUsed(a.ty, sc, k, name);
      BoundWhereUsedTele(rest, Push(a.name, sc), k + 1, name);
    }
  }

  lemma {:induction false} BoundWhereUsedStmts(ss: seq<Stmt>, sc: Scope, k: nat, name: Option<Var>)
    requires k < |sc| && sc[k] == name
    ensures var n := ToNamelessStmts(ss, sc); name.None? ==> !HasBoundStmts(k, n) && !HasBoundStmts(k, EraseStmts(n))
    ensures name.Some? && Find(sc, name.value) == Some(k) && OccursInStmts(name.value, ss, false) ==>
            HasBoundStmts(k, ToNamelessStmts(ss, sc))
    decreases SizeStmts(ss), 1
  {
    if ss != [] {
      BoundWhereUsedStmt(ss[0], sc, k, name);
      BoundWhereUsedStmts(ss[1..], sc, k, name);
    }
  }

  lemma {:induction false} BoundWhereUsedStmt(s: Stmt, sc: Scope, k: nat, name: Option<Var>)
    requires k < |sc| && sc[k] == name
    ensures name.None? ==> !HasBoundStmt(k, ToNamelessStmt(s, sc)) && !HasBoundStmt(k, EraseStmt(ToNamelessStmt(s, sc)))
    ensures name.Some? && Find(sc, name.value) == Some(k) && OccursInStmt(name.value, s, false) ==>
            HasBoundStmt(k, ToNamelessStmt(s, sc))
    decreases SizeStmt(s), 0
  {
    match s
    case Call(_, f, es) => BoundWhereUsed(f, sc, k, name); BoundWhereUsedSeq(es, sc, k, name);
    case IfElse(c, t, e) =>
      BoundWhereUsed(c, sc, k, name);
      BoundWhereUsedStmts(t.stmts, sc, k, name);
      if e.Some? { BoundWhereUsedStmts(e.value.stmts, sc, k, name); }
    case Return(e) => if e.Some? { BoundWhereUsed(e.value, sc, k, name); }
    case Impossible(e) => if e.Some? { BoundWhereUsed(e.value, sc, k, name); }
  }

  // Lock-step renaming gives both telescopes the same binder without changing either of them.
  lemma AlignKeepsMeaning(v: Var, t: Tele, w: Var, u: Tele, sc: Scope)
    ensures var r := Align(v, t, w, u);
            exists z: Var ::
              && ToNamelessTele(r.0, Push(Some(z), sc)) == ToNamelessTele(t, Push(Some(v), sc))
              && ToNamelessTele(r.1, Push(Some(z), sc)) == ToNamelessTele(u, Push(Some(w), sc))
  {
    var r := Align(v, t, w, u);
    if v == w {
      assert ToNamelessTele(r.0, Push(Some(v), sc)) == ToNamelessTele(t, Push(Some(v), sc));
    } else {
      var v', w' := FreshVar(v, t), FreshVar(w, u);
      var t', u' := ReplaceTele(v, v', t), ReplaceTele(w, w', u);
      RenameKeepsMeaning(v, t, sc);
      RenameKeepsMeaning(w, u, sc);
      if v' == w' {
        assert ToNamelessTele(r.0, Push(Some(v'), sc)) == ToNamelessTele(t, Push(Some(v), sc));
      } else if v'.idx > w'.idx {
        IndexBoundAfterReplaceTele(u, w, w', w'.idx);
        IndexAboveMaxTele(u', v');
        ReplaceNamelessTele(u', w', v', Push(Some(w'), sc), Push(Some(v'), sc));
        assert ToNamelessTele(r.0, Push(Some(v'), sc)) == ToNamelessTele(t, Push(Some(v), sc));
      } else {
        OnlyTheRenamedHasItsIndexTele(t, v, v', w');
        ReplaceNamelessTele(t', v', w', Push(Some(v'), sc), Push(Some(w'), sc));
        assert ToNamelessTele(r.0, Push(Some(w'), sc)) == ToNamelessTele(t, Push(Some(v), sc));
      }
    }
  }

  lemma {:induction false} IndexBoundAfterReplace(e: Expr, from: Var, to: Var, bound: nat)
    requires MaxIndex(e) <= bound && to.idx <= bound
    ensures MaxIndex(Replace(from, to, e)) <= bound
    decreases Size(e), 0
  {
    match e
    case Atom(_) =>
    case VarE(_) =>
    case Node(_, es) => IndexBoundAfterReplaceSeq(es, from, to, bound);
    case App(_, f, es) => IndexBoundAfterReplace(f, from, to, bound); IndexBoundAfterReplaceSeq(es, from, to, bound);
    case Because(v, r) => IndexBoundAfterReplace(v, from, to, bound); IndexBoundAfterReplace(r, from, to, bound);
    case Bind(t) => IndexBoundAfterReplaceTele(t, from, to, bound);
  }

  lemma {:induction false} IndexBoundAfterReplaceSeq(es: seq<Expr>, from: Var, to: Var, bound: nat)
    requires MaxIndexSeq(es) <= bound && to.idx <= bound
    ensures MaxIndexSeq(ReplaceSeq(from, to, es)) <= bound
    decreases SizeSeq(es), 1
  {
    if es != [] {
      IndexBoundAfterReplace(es[0], from, to, bound);
      IndexBoundAfterReplaceSeq(es[1..], from, to, bound);
    }
  }

  lemma {:induction false} IndexBoundAfterReplaceTele(t: Tele, from: Var, to: Var, bound: nat)
    requires MaxIndexTele(t) <= bound && to.idx <= bound
    ensures MaxIndexTele(ReplaceTele(from, to, t)) <= bound
    decreases SizeTele(t), 1
  {
    if t.args == [] {
      match t.end
      case SigmaEnd =>
      case PiEnd(_, r) => IndexBoundAfterReplace(r, from, to, bound);
      case AbsEnd(_, r, b) => IndexBoundAfterReplace(r, from, to, bound);
        IndexBoundAfterReplaceStmts(b.stmts, from, to, bound);
    } else {
      var a, rest := t.args[0], Rest(t);
      IndexBoundAfterReplace(a.ty, from, to, bound);
      IndexBoundAfterReplaceTele(rest, from, to, bound);
    }
  }

  lemma {:induction false} IndexBoundAfterReplaceStmts(ss: seq<Stmt>, from: Var, to: Var, bound: nat)
    requires MaxIndexStmts(ss) <= bound && to.idx <= bound
    ensures MaxIndexStmts(ReplaceStmts(from, to, ss)) <= bound
    decreases SizeStmts(ss), 1
  {
    if ss != [] {
      IndexBoundAfterReplaceStmt(ss[0], from, to, bound);
      IndexBoundAfterReplaceStmts(ss[1..], from, to, bound);
    }
  }

  lemma {:induction false} IndexBoundAfterReplaceStmt(s: Stmt, from: Var, to: Var, bound: nat)
    requires MaxIndexStmt(s) <= bound && to.idx <= bound
    ensures MaxIndexStmt(ReplaceStmt(from, to, s)) <= bound
    decreases SizeStmt(s), 0
  {
    match s
    case Call(_, f, es) => IndexBoundAfterReplace(f, from, to, bound); IndexBoundAfterReplaceSeq(es, from, to, bound);
    case IfElse(c, t, e) =>
      IndexBoundAfterReplace(c, from, to, bound);
      IndexBoundAfterReplaceStmts(t.stmts, from, to, bound);
      if e.Some? { IndexBoundAfterReplaceStmts(e.value.stmts, from, to, bound); }
    case Return(e) => if e.Some? { IndexBoundAfterReplace(e.value, from, to, bound); }
    case Impossible(e) => if e.Some? { IndexBoundAfterReplace(e.value, from, to, bound); }
  }

  lemma {:induction false} OnlyTheRenamedHasItsIndex(e: Expr, from: Var, to: Var, other: Var)
    requires MaxIndex(e) < to.idx <= other.idx && other != to
    ensures !OccursIn(other, Replace(from, to, e), true)
    decreases Size(e), 0
  {
    match e
    case Atom(_) =>
    case VarE(_) =>
    case Node(_, es) => OnlyTheRenamedHasItsIndexSeq(es, from, to, other);
    case App(_, f, es) => OnlyTheRenamedHasItsIndex(f, from, to, other);
      OnlyTheRenamedHasItsIndexSeq(es, from, to, other);
    case Because(v, r) => OnlyTheRenamedHasItsIndex(v, from, to, other); OnlyTheRenamedHasItsIndex(r, from, to, other);
    case Bind(t) => OnlyTheRenamedHasItsIndexTele(t, from, to, other);
  }

  lemma {:induction false} OnlyTheRenamedHasItsIndexSeq(es: seq<Expr>, from: Var, to: Var, other: Var)
    requires MaxIndexSeq(es) < to.idx <= other.idx && other != to
    ensures !OccursInSeq(other, ReplaceSeq(from, to, es), true)
    decreases SizeSeq(es), 1
  {
    if es != [] {
      OnlyTheRenamedHasItsIndex(es[0], from, to, other);
      OnlyTheRenamedHasItsIndexSeq(es[1..], from, to, other);
    }
  }

  lemma {:induction false} OnlyTheRenamedHasItsIndexTele(t: Tele, from: Var, to: Var, other: Var)
    requires MaxIndexTele(t) < to.idx <= other.idx && other != to
    ensures !OccursInTele(other, ReplaceTele(from, to, t), true)
    decreases SizeTele(t), 1
  {
    if t.args == [] {
      match t.end
      case SigmaEnd =>
      case PiEnd(_, r) => OnlyTheRenamedHasItsIndex(r, from, to, other);
      case AbsEnd(_, r, b) => OnlyTheRenamedHasItsIndex(r, from, to, other);
        OnlyTheRenamedHasItsIndexStmts(b.stmts, from, to, other);
    } else {
      var a, rest := t.args[0], Rest(t);
      OnlyTheRenamedHasItsIndex(a.ty, from, to, other);
      OnlyTheRenamedHasItsIndexTele(rest, from, to, other);
    }
  }

  lemma {:induction false} OnlyTheRenamedHasItsIndexStmts(ss: seq<Stmt>, from: Var, to: Var, other: Var)
    requires MaxIndexStmts(ss) < to.idx <= other.idx && other != to
    ensures !OccursInStmts(other, ReplaceStmts(from, to, ss), true)
    decreases SizeStmts(ss), 1
  {
    if ss != [] {
      OnlyTheRenamedHasItsIndexStmt(ss[0], from, to, other);
      OnlyTheRenamedHasItsIndexStmts(ss[1..], from, to, other);
    }
  }

  lemma {:induction false} OnlyTheRenamedHasItsIndexStmt(s: Stmt, from: Var, to: Var, other: Var)
    requires MaxIndexStmt(s) < to.idx <= other.idx && other != to
    ensures !OccursInStmt(other, ReplaceStmt(from, to, s), true)
    decreases SizeStmt(s), 0
  {
    match s
    case Call(_, f, es) => OnlyTheRenamedHasItsIndex(f, from, to, other);
      OnlyTheRenamedHasItsIndexSeq(es, from, to, other);
    case IfElse(c, t, e) =>
      OnlyTheRenamedHasItsIndex(c, from, to, other);
      OnlyTheRenamedHasItsIndexStmts(t.stmts, from, to, other);
      if e.Some? { OnlyTheRenamedHasItsIndexStmts(e.value.stmts, from, to, other); }
    case Return(e) => if e.Some? { OnlyTheRenamedHasItsIndex(e.value, from, to, other); }
    case Impossible(e) => if e.Some? { OnlyTheRenamedHasItsIndex(e.value, from, to, other); }
  }

  lemma EraseStep(e: NExpr, es: seq<NExpr>)
    ensures EraseSeq([e] + es) == [Erase(e)] + EraseSeq(es)
  {
  }

  lemma EraseStepStmts(s: NStmt, ss: seq<NStmt>)
    ensures EraseStmts([s] + ss) == [EraseStmt(s)] + EraseStmts(ss)
  {
  }

  // A binder that is not used might as well be anonymous; one that is used is referred to.
  lemma UnusedBinder(name: Option<Var>, t: Tele, sc: Scope)
    ensures name.Some? && !OccursInTele(name.value, t, false) ==>
              ToNamelessTele(t, Push(name, sc)) == ToNamelessTele(t, Push(None, sc))
    ensures name.Some? && OccursInTele(name.value, t, false) ==> HasBoundTele(0, ToNamelessTele(t, Push(name, sc)))
    ensures var n := ToNamelessTele(t, Push(name, sc));
            name.None? ==> !HasBoundTele(0, n) && !HasBoundTele(0, EraseTele(n))
  {
    if name.Some? && !OccursInTele(name.value, t, false) {
      CoincidenceTele(t, Push(name, sc), Push(None, sc));
    }
    BoundWhereUsedTele(t, Push(name, sc), 0, name);
  }

  // Acceptance says that the nameless terms are the same, and is nothing else if they are fair.
  ghost predicate Decided(accepted: bool, same: bool, fair: bool) {
    (accepted ==> same) && (fair ==> (accepted <==> same))
  }

  ghost predicate DecidedFor(x: Expr, y: Expr, sc: Scope) {
    var p, q := ToNameless(x, sc), ToNameless(y, sc);
    Decided(AlphaEq(x, y), Erase(p) == Erase(q), NFair(p) && NFair(q))
  }

  lemma DecidedApp(x: Expr, y: Expr, sc: Scope)
    requires x.App? && y.App? && DecidedFor(x.func, y.func, sc)
    requires var ps, qs := ToNamelessSeq(x.args, sc), ToNamelessSeq(y.args, sc);
             Decided(AlphaEqSeq(x.args, y.args), EraseSeq(ps) == EraseSeq(qs), NFairSeq(ps) && NFairSeq(qs))
    ensures DecidedFor(x, y, sc)
  {
  }

  lemma {:induction false} AlphaIffNameless(x: Expr, y: Expr, sc: Scope)
    ensures AlphaEq(x, y) ==> Erase(ToNameless(x, sc)) == Erase(ToNameless(y, sc))
    ensures NFair(ToNameless(x, sc)) && NFair(ToNameless(y, sc)) ==>
            (AlphaEq(x, y) <==> Erase(ToNameless(x, sc)) == Erase(ToNameless(y, sc)))
    decreases Size(x) + Size(y), 1
  {
    if x.Because? && y.Because? { AlphaIffNameless(x.value, y.value, sc); }
    else if x.Because? { AlphaIffNameless(x.value, y, sc); }
    else if y.Because? { AlphaIffNameless(x, y.value, sc); }
    else { AlphaIffSameKind(x, y, sc); }
  }

  lemma {:induction false} AlphaIffSameKind(x: Expr, y: Expr, sc: Scope)
    requires !x.Because? && !y.Because?
    ensures DecidedFor(x, y, sc)
    decreases Size(x) + Size(y), 0
  {
    if x.VarE? && y.VarE? { FindBelow(sc, x.v); FindBelow(sc, y.v); }
    else if x.Node? && y.Node? { AlphaIffNamelessSeq(x.operands, y.operands, sc); }
    else if x.App? && y.App? {
      AlphaIffNameless(x.func, y.func, sc);
      AlphaIffNamelessSeq(x.args, y.args, sc);
      DecidedApp(x, y, sc);
    }
    else if x.Bind? && y.Bind? { AlphaIffNamelessTele(x.tele, y.tele, sc); }
  }

  lemma {:induction false} AlphaIffNamelessSeq(es: seq<Expr>, fs: seq<Expr>, sc: Scope)
    ensures AlphaEqSeq(es, fs) ==> EraseSeq(ToNamelessSeq(es, sc)) == EraseSeq(ToNamelessSeq(fs, sc))
    ensures NFairSeq(ToNamelessSeq(es, sc)) && NFairSeq(ToNamelessSeq(fs, sc)) ==>
            (AlphaEqSeq(es, fs) <==> EraseSeq(ToNamelessSeq(es, sc)) == EraseSeq(ToNamelessSeq(fs, sc)))
    decreases SizeSeq(es) + SizeSeq(fs), 2
  {
    if es != [] && fs != [] {
      SameHeadAndTail(
        Erase(ToNameless(es[0], sc)), EraseSeq(ToNamelessSeq(es[1..], sc)),
        Erase(ToNameless(fs[0], sc)), EraseSeq(ToNamelessSeq(fs[1..], sc)));
      EraseStep(ToNameless(es[0], sc), ToNamelessSeq(es[1..], sc));
      EraseStep(ToNameless(fs[0], sc), ToNamelessSeq(fs[1..], sc));
      AlphaIffNameless(es[0], fs[0], sc);
      AlphaIffNamelessSeq(es[1..], fs[1..], sc);
    }
  }

  lemma {:induction false} AlphaIffNamelessTele(t: Tele, u: Tele, sc: Scope)
    ensures AlphaEqTele(t, u) ==> EraseTele(ToNamelessTele(t, sc)) == EraseTele(ToNamelessTele(u, sc))
    ensures NFairTele(ToNamelessTele(t, sc)) && NFairTele(ToNamelessTele(u, sc)) ==>
            (AlphaEqTele(t, u) <==> EraseTele(ToNamelessTele(t, sc)) == EraseTele(ToNamelessTele(u, sc)))
    decreases SizeTele(t) + SizeTele(u), 2
  {
    if t.args == [] && u.args == [] {
      match (t.end, u.end)
      case (SigmaEnd, SigmaEnd) =>
      case (PiEnd(_, r), PiEnd(_, s)) => AlphaIffNameless(r, s, sc);
      case (AbsEnd(_, r, b), AbsEnd(_, s, c)) => AlphaIffNameless(r, s, sc);
        AlphaIffNamelessStmts(b.stmts, c.stmts, sc);
      case _ =>
    } else if t.args != [] && u.args != [] {
      var a, b, t', u' := t.args[0], u.args[0], Rest(t), Rest(u);
      AlphaIffNameless(a.ty, b.ty, sc);
      AlphaIffNamelessBinder(a.name, t', b.name, u', sc);
    }
  }

  // One pair of corresponding binders, named or not.
  predicate AlphaEqBinder(m: Option<Var>, t: Tele, n: Option<Var>, u: Tele) {
    match (m, n)
    case (Some(v), Some(w)) => AlphaEqTele(Align(v, t, w, u).0, Align(v, t, w, u).1)
    case (Some(v), None) => !OccursInTele(v, t, false) && AlphaEqTele(t, u)
    case (None, Some(w)) => !OccursInTele(w, u, false) && AlphaEqTele(t, u)
    case (None, None) => AlphaEqTele(t, u)
  }

  lemma {:induction false} AlphaIffNamelessBinder(m: Option<Var>, t: Tele, n: Option<Var>, u: Tele, sc: Scope)
    ensures AlphaEqBinder(m, t, n, u)
            ==> EraseTele(ToNamelessTele(t, Push(m, sc))) == EraseTele(ToNamelessTele(u, Push(n, sc)))
    ensures var x, y := ToNamelessTele(t, Push(m, sc)), ToNamelessTele(u, Push(n, sc));
            NFairTele(x) && NFairTele(y) && OuterFair(x) && OuterFair(y) && EraseTele(x) == EraseTele(y)
            ==> AlphaEqBinder(m, t, n, u)
    decreases SizeTele(t) + SizeTele(u), 3
  {
    if m.Some? && n.Some? {
      var r := Align(m.value, t, n.value, u);
      AlignKeepsMeaning(m.value, t, n.value, u, sc);
      var z: Var :|
        && ToNamelessTele(r.0, Push(Some(z), sc)) == ToNamelessTele(t, Push(m, sc))
        && ToNamelessTele(r.1, Push(Some(z), sc)) == ToNamelessTele(u, Push(n, sc));
      AlphaIffNamelessTele(r.0, r.1, Push(Some(z), sc));
    } else {
      AlphaIffNamelessTele(t, u, Push(None, sc));
      UnusedBinder(m, t, sc);
      UnusedBinder(n, u, sc);
    }
  }

  lemma {:induction false} AlphaIffNamelessStmts(ss: seq<Stmt>, zs: seq<Stmt>, sc: Scope)
    ensures AlphaEqStmts(ss, zs) ==> EraseStmts(ToNamelessStmts(ss, sc)) == EraseStmts(ToNamelessStmts(zs, sc))
    ensures NFairStmts(ToNamelessStmts(ss, sc)) && NFairStmts(ToNamelessStmts(zs, sc)) ==>
            (AlphaEqStmts(ss, zs) <==> EraseStmts(ToNamelessStmts(ss, sc)) == EraseStmts(ToNamelessStmts(zs, sc)))
    decreases SizeStmts(ss) + SizeStmts(zs), 2
  {
    if ss != [] && zs != [] {
      SameHeadAndTail(
        EraseStmt(ToNamelessStmt(ss[0], sc)), EraseStmts(ToNamelessStmts(ss[1..], sc)),
        EraseStmt(ToNamelessStmt(zs[0], sc)), EraseStmts(ToNamelessStmts(zs[1..], sc)));
      EraseStepStmts(ToNamelessStmt(ss[0], sc), ToNamelessStmts(ss[1..], sc));
      EraseStepStmts(ToNamelessStmt(zs[0], sc), ToNamelessStmts(zs[1..], sc));
      AlphaIffNamelessStmt(ss[0], zs[0], sc);
      AlphaIffNamelessStmts(ss[1..], zs[1..], sc);
    }
  }

  lemma {:induction false} AlphaIffNamelessStmt(s: Stmt, z: Stmt, sc: Scope)
    ensures AlphaEqStmt(s, z) ==> EraseStmt(ToNamelessStmt(s, sc)) == EraseStmt(ToNamelessStmt(z, sc))
    ensures NFairStmt(ToNamelessStmt(s, sc)) && NFairStmt(ToNamelessStmt(z, sc)) ==>
            (AlphaEqStmt(s, z) <==> EraseStmt(ToNamelessStmt(s, sc)) == EraseStmt(ToNamelessStmt(z, sc)))
    decreases SizeStmt(s) + SizeStmt(z), 1
  {
    match (s, z)
    case (Call(_, f, es), Call(_, g, fs)) => AlphaIffNameless(f, g, sc); AlphaIffNamelessSeq(es, fs, sc);
    case (IfElse(c, t, e), IfElse(d, u, k)) =>
      AlphaIffNameless(c, d, sc);
      AlphaIffNamelessStmts(t.stmts, u.stmts, sc);
      if e.Some? && k.Some? { AlphaIffNamelessStmts(e.value.stmts, k.value.stmts, sc); }
    case (Return(e), Return(k)) => if e.Some? && k.Some? { AlphaIffNameless(e.value, k.value, sc); }
    case (Impossible(_), Impossible(_)) =>
    case _ =>
  }

  // Without reasons, nothing is referred to in them only.
  lemma {:induction false} ReasonFreeFair(e: Expr, sc: Scope)
    requires ReasonFree(e)
    ensures var n := ToNameless(e, sc); NFair(n) && forall k :: HasBound(k, n) ==> HasBound(k, Erase(n))
    decreases Size(e), 0
  {
    match e
    case Atom(_) =>
    case VarE(_) =>
    case Node(_, es) => ReasonFreeFairSeq(es, sc);
    case App(_, f, es) => ReasonFreeFair(f, sc); ReasonFreeFairSeq(es, sc);
    case Bind(t) => ReasonFreeFairTele(t, sc);
  }

  lemma {:induction false} ReasonFreeFairSeq(es: seq<Expr>, sc: Scope)
    requires ReasonFreeSeq(es)
    ensures var n := ToNamelessSeq(es, sc); NFairSeq(n) && forall k :: HasBoundSeq(k, n) ==> HasBoundSeq(k, EraseSeq(n))
    decreases SizeSeq(es), 1
  {
    if es != [] { ReasonFreeFair(es[0], sc); ReasonFreeFairSeq(es[1..], sc); }
  }

  lemma {:induction false} ReasonFreeFairTele(t: Tele, sc: Scope)
    requires ReasonFreeTele(t)
    ensures var n := ToNamelessTele(t, sc);
            NFairTele(n) && forall k :: HasBoundTele(k, n) ==> HasBoundTele(k, EraseTele(n))
    decreases SizeTele(t), 1
  {
    if t.args == [] {
      match t.end
      case SigmaEnd =>
      case PiEnd(_, r) => ReasonFreeFair(r, sc);
      case AbsEnd(_, r, b) => ReasonFreeFair(r, sc); ReasonFreeFairStmts(b.stmts, sc);
    } else {
      var a, rest := t.args[0], Rest(t);
      ReasonFreeFair(a.ty, sc);
      ReasonFreeFairTele(rest, Push(a.name, sc));
    }
  }

  lemma {:induction false} ReasonFreeFairStmts(ss: seq<Stmt>, sc: Scope)
    requires ReasonFreeStmts(ss)
    ensures var n := ToNamelessStmts(ss, sc);
            NFairStmts(n) && forall k :: HasBoundStmts(k, n) ==> HasBoundStmts(k, EraseStmts(n))
    decreases SizeStmts(ss), 1
  {
    if ss != [] { ReasonFreeFairStmt(ss[0], sc); ReasonFreeFairStmts(ss[1..], sc); }
  }

  lemma {:induction false} ReasonFreeFairStmt(s: Stmt, sc: Scope)
    requires ReasonFreeStmt(s)
    ensures var n := ToNamelessStmt(s, sc);
            NFairStmt(n) && forall k :: HasBoundStmt(k, n) ==> HasBoundStmt(k, EraseStmt(n))
    decreases SizeStmt(s), 0
  {
    match s
    case Call(_, f, es) => ReasonFreeFair(f, sc); ReasonFreeFairSeq(es, sc);
    case IfElse(c, t, e) =>
      ReasonFreeFair(c, sc);
      ReasonFreeFairStmts(t.stmts, sc);
      if e.Some? { ReasonFreeFairStmts(e.value.stmts, sc); }
    case Return(e) => if e.Some? { ReasonFreeFair(e.value, sc); }
    case Impossible(_) =>
  }

  // ---- the theorems ----

  lemma AlphaSound(x: Expr, y: Expr)
    requires AlphaEq(x, y)
    ensures Erase(ToNameless(x, [])) == Erase(ToNameless(y, []))
  {
    AlphaIffNameless(x, y, []);
  }

  // No binder is referred to in reasons only.
  predicate Fair(e: Expr) {
    NFair(ToNameless(e, []))
  }

  lemma AlphaExact(x: Expr, y: Expr)
    requires Fair(x) && Fair(y)
    ensures AlphaEq(x, y) <==> Erase(ToNameless(x, [])) == Erase(ToNameless(y, []))
  {
    AlphaIffNameless(x, y, []);
  }

  lemma AlphaExactWithoutReasons(x: Expr, y: Expr)
    requires ReasonFree(x) && ReasonFree(y)
    ensures AlphaEq(x, y) <==> Erase(ToNameless(x, [])) == Erase(ToNameless(y, []))
  {
    ReasonFreeFair(x, []);
    ReasonFreeFair(y, []);
    AlphaExact(x, y);
  }

  lemma AlphaIsEquivalence(x: Expr, y: Expr, z: Expr)
    requires Fair(x) && Fair(y) && Fair(z)
    ensures AlphaEq(x, x)
    ensures AlphaEq(x, y) ==> AlphaEq(y, x)
    ensures AlphaEq(x, y) && AlphaEq(y, z) ==> AlphaEq(x, z)
  {
    AlphaExact(x, x);
    AlphaExact(x, y);
    AlphaExact(y, x);
    AlphaExact(y, z);
    AlphaExact(x, z);
  }

  // With reasons the test is stricter than it should be: a name used only in a reason still counts as used.
  lemma ReasonsCanSeparate()
    ensures var v := Var("p", 0, 0);
            var x := Bind(Tele([Arg(Many, Atom(BoolT), Some(v))], PiEnd(false, Because(Atom(UnitT), VarE(v)))));
            var y := Bind(Tele([Arg(Many, Atom(BoolT), None)], PiEnd(false, Atom(UnitT))));
            !AlphaEq(x, y) && Erase(ToNameless(x, [])) == Erase(ToNameless(y, []))
  {
    var v := Var("p", 0, 0);
    var x := Tele([Arg(Many, Atom(BoolT), Some(v))], PiEnd(false, Because(Atom(UnitT), VarE(v))));
    var y := Tele([Arg(Many, Atom(BoolT), None)], PiEnd(false, Atom(UnitT)));
    assert Rest(x) == Tele([], PiEnd(false, Because(Atom(UnitT), VarE(v))));
    assert Rest(y) == Tele([], PiEnd(false, Atom(UnitT)));
    assert OccursInTele(v, Rest(x), false);
    assert !AlphaEqTele(x, y);
    assert ToNamelessTele(Rest(y), Push(None, [])) == NPiEnd(false, NAtom(UnitT));
    assert EraseTele(ToNamelessTele(Rest(x), Push(Some(v), []))) == NPiEnd(false, NAtom(UnitT));
  }
}
