/** Reasons do not count: alpha-equivalence decides like the test on terms from which they have been removed. */
module Reasons {
  import opened Ast
  import opened Binders
  import opened Nameless
  import opened AlphaEquivalence

  // Without any `because`, and without the reasons of `impossible`.
  function Strip(e: Expr): Expr
    decreases Size(e), 0
  {
    match e
    case Atom(_) => e
    case VarE(_) => e
    case Node(op, es) => Node(op, StripSeq(es))
    case App(m, f, es) => App(m, Strip(f), StripSeq(es))
    case Because(v, _) => Strip(v)
    case Bind(t) => Bind(StripTele(t))
  }

  function StripSeq(es: seq<Expr>): (r: seq<Expr>)
    ensures |r| == |es|
    decreases SizeSeq(es), 1
  {
    if es == [] then [] else [Strip(es[0])] + StripSeq(es[1..])
  }

  function StripTele(t: Tele): Tele
    decreases SizeTele(t), 1
  {
    if t.args == [] then
      match t.end
      case SigmaEnd => t
      case PiEnd(m, r) => Tele([], PiEnd(m, Strip(r)))
      case AbsEnd(m, r, b) => Tele([], AbsEnd(m, Strip(r), Body(StripStmts(b.stmts))))
    else
      var a, rest := t.args[0], Rest(t);
      Cons(Arg(a.qty, Strip(a.ty), a.name), StripTele(rest))
  }

  function StripStmts(ss: seq<Stmt>): (r: seq<Stmt>)
    ensures |r| == |ss|
    decreases SizeStmts(ss), 1
  {
    if ss == [] then [] else [StripStmt(ss[0])] + StripStmts(ss[1..])
  }

  function StripStmt(s: Stmt): Stmt
    decreases SizeStmt(s), 0
  {
    match s
    case Call(m, f, es) => Call(m, Strip(f), StripSeq(es))
    case IfElse(c, t, e) =>
      IfElse(Strip(c), Body(StripStmts(t.stmts)),
             match e case None => None case Some(b) => Some(Body(StripStmts(b.stmts))))
    case Return(e) => Return(match e case None => None case Some(r) => Some(Strip(r)))
    case Impossible(_) => Impossible(None)
  }

  // Nothing is left of the reasons, and the rest is the same term.
  lemma {:induction false} Stripped(e: Expr, sc: Scope)
    ensures ReasonFree(Strip(e)) && Erase(ToNameless(Strip(e), sc)) == Erase(ToNameless(e, sc))
    decreases Size(e), 0
  {
    match e
    case Atom(_) =>
    case VarE(_) =>
    case Node(_, es) => StrippedSeq(es, sc);
    case App(_, f, es) => Stripped(f, sc); StrippedSeq(es, sc);
    case Because(v, _) => Stripped(v, sc);
    case Bind(t) => StrippedTele(t, sc);
  }

  lemma {:induction false} StrippedSeq(es: seq<Expr>, sc: Scope)
    ensures ReasonFreeSeq(StripSeq(es)) && EraseSeq(ToNamelessSeq(StripSeq(es), sc)) == EraseSeq(ToNamelessSeq(es, sc))
    decreases SizeSeq(es), 1
  {
    if es != [] {
      Stripped(es[0], sc);
      StrippedSeq(es[1..], sc);
      assert StripSeq(es)[1..] == StripSeq(es[1..]);
    }
  }

  lemma {:induction false} StrippedTele(t: Tele, sc: Scope)
    ensures ReasonFreeTele(StripTele(t))
    ensures EraseTele(ToNamelessTele(StripTele(t), sc)) == EraseTele(ToNamelessTele(t, sc))
    decreases SizeTele(t), 1
  {
    if t.args == [] {
      match t.end
      case SigmaEnd =>
      case PiEnd(_, r) => Stripped(r, sc);
      case AbsEnd(_, r, b) => Stripped(r, sc); StrippedStmts(b.stmts, sc);
    } else {
      var a, rest := t.args[0], Rest(t);
      Stripped(a.ty, sc);
      StrippedTele(rest, Push(a.name, sc));
    }
  }

  lemma {:induction false} StrippedStmts(ss: seq<Stmt>, sc: Scope)
    ensures ReasonFreeStmts(StripStmts(ss))
    ensures EraseStmts(ToNamelessStmts(StripStmts(ss), sc)) == EraseStmts(ToNamelessStmts(ss, sc))
    decreases SizeStmts(ss), 1
  {
    if ss != [] {
      StrippedStmt(ss[0], sc);
      StrippedStmts(ss[1..], sc);
      assert StripStmts(ss)[1..] == StripStmts(ss[1..]);
    }
  }

  lemma {:induction false} StrippedStmt(s: Stmt, sc: Scope)
    ensures ReasonFreeStmt(StripStmt(s))
    ensures EraseStmt(ToNamelessStmt(StripStmt(s), sc)) == EraseStmt(ToNamelessStmt(s, sc))
    decreases SizeStmt(s), 0
  {
    match s
    case Call(_, f, es) => Stripped(f, sc); StrippedSeq(es, sc);
    case IfElse(c, t, e) =>
      Stripped(c, sc);
      StrippedStmts(t.stmts, sc);
      if e.Some? { StrippedStmts(e.value.stmts, sc); }
    case Return(e) => if e.Some? { Stripped(e.value, sc); }
    case Impossible(_) =>
  }

  /** Every term is equivalent to itself without reasons, in whichever order the test is asked. */
  lemma {:induction false} AlphaStrip(e: Expr)
    ensures AlphaEq(e, Strip(e)) && AlphaEq(Strip(e), e)
    decreases Size(e), 0
  {
    match e
    case Atom(_) =>
    case VarE(_) =>
    case Node(_, es) => AlphaStripSeq(es);
    case App(_, f, es) => AlphaStrip(f); AlphaStripSeq(es);
    case Because(v, _) => AlphaStrip(v); Stripped(v, []);
    case Bind(t) => AlphaStripTele(t);
  }

  lemma {:induction false} AlphaStripSeq(es: seq<Expr>)
    ensures AlphaEqSeq(es, StripSeq(es)) && AlphaEqSeq(StripSeq(es), es)
    decreases SizeSeq(es), 1
  {
    if es != [] {
      AlphaStrip(es[0]);
      AlphaStripSeq(es[1..]);
      assert StripSeq(es)[1..] == StripSeq(es[1..]);
    }
  }

  lemma {:induction false} AlphaStripTele(t: Tele)
    ensures AlphaEqTele(t, StripTele(t)) && AlphaEqTele(StripTele(t), t)
    decreases SizeTele(t), 1
  {
    if t.args == [] {
      match t.end
      case SigmaEnd =>
      case PiEnd(_, r) => AlphaStrip(r);
      case AbsEnd(_, r, b) => AlphaStrip(r); AlphaStripStmts(b.stmts);
    } else {
      var a, rest := t.args[0], Rest(t);
      AlphaStrip(a.ty);
      AlphaStripTele(rest);
    }
  }

  lemma {:induction false} AlphaStripStmts(ss: seq<Stmt>)
    ensures AlphaEqStmts(ss, StripStmts(ss)) && AlphaEqStmts(StripStmts(ss), ss)
    decreases SizeStmts(ss), 1
  {
    if ss != [] {
      AlphaStripStmt(ss[0]);
      AlphaStripStmts(ss[1..]);
      assert StripStmts(ss)[1..] == StripStmts(ss[1..]);
    }
  }

  lemma {:induction false} AlphaStripStmt(s: Stmt)
    ensures AlphaEqStmt(s, StripStmt(s)) && AlphaEqStmt(StripStmt(s), s)
    decreases SizeStmt(s), 0
  {
    match s
    case Call(_, f, es) => AlphaStrip(f); AlphaStripSeq(es);
    case IfElse(c, t, e) =>
      AlphaStrip(c);
      AlphaStripStmts(t.stmts);
      if e.Some? { AlphaStripStmts(e.value.stmts); }
    case Return(e) => if e.Some? { AlphaStrip(e.value); }
    case Impossible(_) =>
  }

  /** Where no binder is referred to in reasons only, the test decides as it does without reasons, and that is equality
      of nameless terms. */
  lemma AlphaIgnoresReasons(x: Expr, y: Expr)
    requires Fair(x) && Fair(y)
    ensures AlphaEq(x, y) <==> AlphaEq(Strip(x), Strip(y))
    ensures AlphaEq(x, y) <==> Erase(ToNameless(Strip(x), [])) == Erase(ToNameless(Strip(y), []))
  {
    Stripped(x, []);
    Stripped(y, []);
    AlphaExact(x, y);
    AlphaExactWithoutReasons(Strip(x), Strip(y));
  }

  // ---- the condition is needed ----

  // Without reasons, and with every binder anonymous that is then not referred to.
  function Bare(e: Expr): Expr
    decreases Size(e), 0
  {
    match e
    case Atom(_) => e
    case VarE(_) => e
    case Node(op, es) => Node(op, BareSeq(es))
    case App(m, f, es) => App(m, Bare(f), BareSeq(es))
    case Because(v, _) => Bare(v)
    case Bind(t) => Bind(BareTele(t))
  }

  function BareSeq(es: seq<Expr>): (r: seq<Expr>)
    ensures |r| == |es|
    decreases SizeSeq(es), 1
  {
    if es == [] then [] else [Bare(es[0])] + BareSeq(es[1..])
  }

  function BareName(name: Option<Var>, rest: Tele): Option<Var> {
    if name.Some? && OccursInTele(name.value, StripTele(rest), false) then name else None
  }

  function BareTele(t: Tele): Tele
    decreases SizeTele(t), 1
  {
    if t.args == [] then
      match t.end
      case SigmaEnd => t
      case PiEnd(m, r) => Tele([], PiEnd(m, Bare(r)))
      case AbsEnd(m, r, b) => Tele([], AbsEnd(m, Bare(r), Body(BareStmts(b.stmts))))
    else
      var a, rest := t.args[0], Rest(t);
      Cons(Arg(a.qty, Bare(a.ty), BareName(a.name, rest)), BareTele(rest))
  }

  function BareStmts(ss: seq<Stmt>): (r: seq<Stmt>)
    ensures |r| == |ss|
    decreases SizeStmts(ss), 1
  {
    if ss == [] then [] else [BareStmt(ss[0])] + BareStmts(ss[1..])
  }

  function BareStmt(s: Stmt): Stmt
    decreases SizeStmt(s), 0
  {
    match s
    case Call(m, f, es) => Call(m, Bare(f), BareSeq(es))
    case IfElse(c, t, e) =>
      IfElse(Bare(c), Body(BareStmts(t.stmts)),
             match e case None => None case Some(b) => Some(Body(BareStmts(b.stmts))))
    case Return(e) => Return(match e case None => None case Some(r) => Some(Bare(r)))
    case Impossible(_) => Impossible(None)
  }

  // Below an anonymous binder and below the one that was there.
  lemma BareBinder(name: Option<Var>, rest: Tele, sc: Scope)
    ensures EraseTele(ToNamelessTele(rest, Push(BareName(name, rest), sc)))
         == EraseTele(ToNamelessTele(rest, Push(name, sc)))
  {
    StrippedTele(rest, Push(name, sc));
    StrippedTele(rest, Push(None, sc));
    UnusedBinder(name, StripTele(rest), sc);
  }

  lemma {:induction false} Bared(e: Expr, sc: Scope)
    ensures ReasonFree(Bare(e)) && Erase(ToNameless(Bare(e), sc)) == Erase(ToNameless(e, sc))
    decreases Size(e), 0
  {
    match e
    case Atom(_) =>
    case VarE(_) =>
    case Node(_, es) => BaredSeq(es, sc);
    case App(_, f, es) => Bared(f, sc); BaredSeq(es, sc);
    case Because(v, _) => Bared(v, sc);
    case Bind(t) => BaredTele(t, sc);
  }

  lemma {:induction false} BaredSeq(es: seq<Expr>, sc: Scope)
    ensures ReasonFreeSeq(BareSeq(es)) && EraseSeq(ToNamelessSeq(BareSeq(es), sc)) == EraseSeq(ToNamelessSeq(es, sc))
    decreases SizeSeq(es), 1
  {
    if es != [] {
      Bared(es[0], sc);
      BaredSeq(es[1..], sc);
      assert BareSeq(es)[1..] == BareSeq(es[1..]);
    }
  }

  lemma {:induction false} BaredTele(t: Tele, sc: Scope)
    ensures ReasonFreeTele(BareTele(t))
    ensures EraseTele(ToNamelessTele(BareTele(t), sc)) == EraseTele(ToNamelessTele(t, sc))
    decreases SizeTele(t), 1
  {
    if t.args == [] {
      match t.end
      case SigmaEnd =>
      case PiEnd(_, r) => Bared(r, sc);
      case AbsEnd(_, r, b) => Bared(r, sc); BaredStmts(b.stmts, sc);
    } else {
      var a, rest := t.args[0], Rest(t);
      Bared(a.ty, sc);
      BaredTele(rest, Push(BareName(a.name, rest), sc));
      BareBinder(a.name, rest, sc);
    }
  }

  lemma {:induction false} BaredStmts(ss: seq<Stmt>, sc: Scope)
    ensures ReasonFreeStmts(BareStmts(ss))
    ensures EraseStmts(ToNamelessStmts(BareStmts(ss), sc)) == EraseStmts(ToNamelessStmts(ss, sc))
    decreases SizeStmts(ss), 1
  {
    if ss != [] {
      BaredStmt(ss[0], sc);
      BaredStmts(ss[1..], sc);
      assert BareStmts(ss)[1..] == BareStmts(ss[1..]);
    }
  }

  lemma {:induction false} BaredStmt(s: Stmt, sc: Scope)
    ensures ReasonFreeStmt(BareStmt(s))
    ensures EraseStmt(ToNamelessStmt(BareStmt(s), sc)) == EraseStmt(ToNamelessStmt(s, sc))
    decreases SizeStmt(s), 0
  {
    match s
    case Call(_, f, es) => Bared(f, sc); BaredSeq(es, sc);
    case IfElse(c, t, e) =>
      Bared(c, sc);
      BaredStmts(t.stmts, sc);
      if e.Some? { BaredStmts(e.value.stmts, sc); }
    case Return(e) => if e.Some? { Bared(e.value, sc); }
    case Impossible(_) =>
  }

  // A name that is kept is referred to outside reasons; one that is dropped, nowhere, or the test would have failed.
  lemma KeptIsFair(name: Option<Var>, rest: Tele, sc: Scope)
    requires BareName(name, rest).None? && name.Some? ==> !OccursInTele(name.value, rest, false)
    ensures OuterFair(ToNamelessTele(rest, Push(name, sc)))
  {
    var stripped := StripTele(rest);
    UnusedBinder(name, rest, sc);
    UnusedBinder(name, stripped, sc);
    UnusedBinder(None, rest, sc);
    StrippedTele(rest, Push(name, sc));
    ReasonFreeFairTele(stripped, Push(name, sc));
  }

  lemma {:induction false} BareOnlyIf(e: Expr, sc: Scope)
    requires AlphaEq(e, Bare(e))
    ensures NFair(ToNameless(e, sc))
    decreases Size(e), 0
  {
    match e
    case Atom(_) =>
    case VarE(_) =>
    case Node(_, es) => BareOnlyIfSeq(es, sc);
    case App(_, f, es) => BareOnlyIf(f, sc); BareOnlyIfSeq(es, sc);
    case Because(v, _) => Bared(v, []); BareOnlyIf(v, sc);
    case Bind(t) => BareOnlyIfTele(t, sc);
  }

  lemma {:induction false} BareOnlyIfSeq(es: seq<Expr>, sc: Scope)
    requires AlphaEqSeq(es, BareSeq(es))
    ensures NFairSeq(ToNamelessSeq(es, sc))
    decreases SizeSeq(es), 1
  {
    if es != [] {
      BareOnlyIf(es[0], sc);
      assert BareSeq(es)[1..] == BareSeq(es[1..]);
      BareOnlyIfSeq(es[1..], sc);
    }
  }

  lemma {:induction false} BareOnlyIfTele(t: Tele, sc: Scope)
    requires AlphaEqTele(t, BareTele(t))
    ensures NFairTele(ToNamelessTele(t, sc))
    decreases SizeTele(t), 1
  {
    if t.args == [] {
      match t.end
      case SigmaEnd =>
      case PiEnd(_, r) => BareOnlyIf(r, sc);
      case AbsEnd(_, r, b) => BareOnlyIf(r, sc); BareOnlyIfStmts(b.stmts, sc);
    } else {
      var a, rest := t.args[0], Rest(t);
      BareOnlyIf(a.ty, sc);
      BareOnlyIfTele(rest, Push(a.name, sc));
      KeptIsFair(a.name, rest, sc);
    }
  }

  lemma {:induction false} BareOnlyIfStmts(ss: seq<Stmt>, sc: Scope)
    requires AlphaEqStmts(ss, BareStmts(ss))
    ensures NFairStmts(ToNamelessStmts(ss, sc))
    decreases SizeStmts(ss), 1
  {
    if ss != [] {
      BareOnlyIfStmt(ss[0], sc);
      assert BareStmts(ss)[1..] == BareStmts(ss[1..]);
      BareOnlyIfStmts(ss[1..], sc);
    }
  }

  lemma {:induction false} BareOnlyIfStmt(s: Stmt, sc: Scope)
    requires AlphaEqStmt(s, BareStmt(s))
    ensures NFairStmt(ToNamelessStmt(s, sc))
    decreases SizeStmt(s), 0
  {
    match s
    case Call(_, f, es) => BareOnlyIf(f, sc); BareOnlyIfSeq(es, sc);
    case IfElse(c, t, e) =>
      BareOnlyIf(c, sc);
      BareOnlyIfStmts(t.stmts, sc);
      if e.Some? { BareOnlyIfStmts(e.value.stmts, sc); }
    case Return(e) => if e.Some? { BareOnlyIf(e.value, sc); }
    case Impossible(_) =>
  }

  /** The test accepts a term and itself, stripped and with unused binders made anonymous, if and only if no binder is
      referred to in reasons only. So exactly for such terms it decides equality of nameless terms. */
  lemma FairIff(x: Expr)
    ensures Fair(x) <==> AlphaEq(x, Bare(x))
    ensures Fair(Bare(x)) && Erase(ToNameless(x, [])) == Erase(ToNameless(Bare(x), []))
  {
    Bared(x, []);
    ReasonFreeFair(Bare(x), []);
    if Fair(x) { AlphaExact(x, Bare(x)); }
    if AlphaEq(x, Bare(x)) { BareOnlyIf(x, []); }
  }
}
