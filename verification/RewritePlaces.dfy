/** Where rewriting looks, when it changes anything, and what it can leave.

    Rewriting does not look below a match, below dropped productions, inside `because`, or past a binder that stops it.
    Everywhere else every term that is alpha-equivalent to the left side is replaced. It does not look at what it has
    made, so a match can arise from smaller ones (`MatchCanArise`); no other match is left. */
module RewritePlaces {
  import opened Ast
  import opened Binders
  import opened AlphaEquivalence
  import opened Rewriting

  // `u` is one of the sub-terms of `e` that are compared with `from`.
  predicate Visits(from: Expr, to: Expr, e: Expr, u: Expr)
    decreases Size(e), 1
  {
    || u == e
    || (!AlphaEq(e, from) &&
        match e
        case Atom(_) => false
        case VarE(_) => false
        case Node(op, es) => !Dropped(op) && VisitsSeq(from, to, es, u)
        case App(_, f, es) => Visits(from, to, f, u) || VisitsSeq(from, to, es, u)
        case Because(_, _) => false
        case Bind(t) => VisitsTele(from, to, t, u))
  }

  predicate VisitsSeq(from: Expr, to: Expr, es: seq<Expr>, u: Expr)
    decreases SizeSeq(es), 2
  {
    es != [] && (Visits(from, to, es[0], u) || VisitsSeq(from, to, es[1..], u))
  }

  predicate VisitsTele(from: Expr, to: Expr, t: Tele, u: Expr)
    decreases SizeTele(t), 2
  {
    if t.args == [] then
      match t.end
      case SigmaEnd => false
      case PiEnd(_, r) => Visits(from, to, r, u)
      case AbsEnd(_, r, b) => Visits(from, to, r, u) || VisitsStmts(from, to, b.stmts, u)
    else
      var a, rest := t.args[0], Rest(t);
      Visits(from, to, a.ty, u) || (!Stops(from, to, a.name) && VisitsTele(from, to, rest, u))
  }

  predicate VisitsStmts(from: Expr, to: Expr, ss: seq<Stmt>, u: Expr)
    decreases SizeStmts(ss), 2
  {
    ss != [] && (VisitsStmt(from, to, ss[0], u) || VisitsStmts(from, to, ss[1..], u))
  }

  predicate VisitsStmt(from: Expr, to: Expr, s: Stmt, u: Expr)
    decreases SizeStmt(s), 1
  {
    match s
    case Call(_, f, es) => Visits(from, to, f, u) || VisitsSeq(from, to, es, u)
    case IfElse(c, t, e) =>
      || Visits(from, to, c, u) || VisitsStmts(from, to, t.stmts, u)
      || (e.Some? && VisitsStmts(from, to, e.value.stmts, u))
    case Return(e) => e.Some? && Visits(from, to, e.value, u)
    case Impossible(e) => e.Some? && Visits(from, to, e.value, u)
  }

  // A match that rewriting replaces by something else.
  predicate Changes(from: Expr, to: Expr, u: Expr) {
    AlphaEq(u, from) && u != to
  }

  // ---- when something changes ----

  lemma {:induction false} ChangeHasPlace(from: Expr, to: Expr, e: Expr) returns (u: Expr)
    requires Rewrite(from, to, e) != e
    ensures Visits(from, to, e, u) && Changes(from, to, u)
    decreases Size(e), 1
  {
    u := e;
    if !AlphaEq(e, from) {
      match e
      case Node(_, es) => u := ChangeHasPlaceSeq(from, to, es);
      case App(_, f, es) =>
        if Rewrite(from, to, f) != f { u := ChangeHasPlace(from, to, f); }
        else { u := ChangeHasPlaceSeq(from, to, es); }
      case Bind(t) => u := ChangeHasPlaceTele(from, to, t);
    }
  }

  lemma {:induction false} ChangeHasPlaceSeq(from: Expr, to: Expr, es: seq<Expr>) returns (u: Expr)
    requires RewriteSeq(from, to, es) != es
    ensures VisitsSeq(from, to, es, u) && Changes(from, to, u)
    decreases SizeSeq(es), 2
  {
    assert es == [es[0]] + es[1..];
    if Rewrite(from, to, es[0]) != es[0] { u := ChangeHasPlace(from, to, es[0]); }
    else { u := ChangeHasPlaceSeq(from, to, es[1..]); }
  }

  lemma {:induction false} ChangeHasPlaceTele(from: Expr, to: Expr, t: Tele) returns (u: Expr)
    requires RewriteTele(from, to, t) != t
    ensures VisitsTele(from, to, t, u) && Changes(from, to, u)
    decreases SizeTele(t), 2
  {
    if t.args == [] {
      if Rewrite(from, to, t.end.ret) != t.end.ret { u := ChangeHasPlace(from, to, t.end.ret); }
      else { u := ChangeHasPlaceStmts(from, to, t.end.body.stmts); }
    } else {
      var a, rest := t.args[0], Rest(t);
      assert t == Cons(a, rest);
      if Rewrite(from, to, a.ty) != a.ty { u := ChangeHasPlace(from, to, a.ty); }
      else { u := ChangeHasPlaceTele(from, to, rest); }
    }
  }

  lemma {:induction false} ChangeHasPlaceStmts(from: Expr, to: Expr, ss: seq<Stmt>) returns (u: Expr)
    requires RewriteStmts(from, to, ss) != ss
    ensures VisitsStmts(from, to, ss, u) && Changes(from, to, u)
    decreases SizeStmts(ss), 2
  {
    assert ss == [ss[0]] + ss[1..];
    if RewriteStmt(from, to, ss[0]) != ss[0] { u := ChangeHasPlaceStmt(from, to, ss[0]); }
    else { u := ChangeHasPlaceStmts(from, to, ss[1..]); }
  }

  lemma {:induction false} ChangeHasPlaceStmt(from: Expr, to: Expr, s: Stmt) returns (u: Expr)
    requires RewriteStmt(from, to, s) != s
    ensures VisitsStmt(from, to, s, u) && Changes(from, to, u)
    decreases SizeStmt(s), 1
  {
    match s
    case Call(_, f, es) =>
      if Rewrite(from, to, f) != f { u := ChangeHasPlace(from, to, f); }
      else { u := ChangeHasPlaceSeq(from, to, es); }
    case IfElse(c, t, e) =>
      if Rewrite(from, to, c) != c { u := ChangeHasPlace(from, to, c); }
      else if RewriteStmts(from, to, t.stmts) != t.stmts { u := ChangeHasPlaceStmts(from, to, t.stmts); }
      else { u := ChangeHasPlaceStmts(from, to, e.value.stmts); }
    case Return(e) => u := ChangeHasPlace(from, to, e.value);
    case Impossible(e) => u := ChangeHasPlace(from, to, e.value);
  }

  lemma {:induction false} PlaceChanges(from: Expr, to: Expr, e: Expr, u: Expr)
    requires Visits(from, to, e, u) && Changes(from, to, u)
    ensures Rewrite(from, to, e) != e
    decreases Size(e), 1
  {
    if u != e {
      match e
      case Node(_, es) => PlaceChangesSeq(from, to, es, u);
      case App(_, f, es) =>
        if Visits(from, to, f, u) { PlaceChanges(from, to, f, u); } else { PlaceChangesSeq(from, to, es, u); }
      case Bind(t) => PlaceChangesTele(from, to, t, u);
    }
  }

  lemma {:induction false} PlaceChangesSeq(from: Expr, to: Expr, es: seq<Expr>, u: Expr)
    requires VisitsSeq(from, to, es, u) && Changes(from, to, u)
    ensures RewriteSeq(from, to, es) != es
    decreases SizeSeq(es), 2
  {
    var r := RewriteSeq(from, to, es);
    assert r[0] == Rewrite(from, to, es[0]) && r[1..] == RewriteSeq(from, to, es[1..]);
    if Visits(from, to, es[0], u) { PlaceChanges(from, to, es[0], u); } else { PlaceChangesSeq(from, to, es[1..], u); }
  }

  lemma {:induction false} PlaceChangesTele(from: Expr, to: Expr, t: Tele, u: Expr)
    requires VisitsTele(from, to, t, u) && Changes(from, to, u)
    ensures RewriteTele(from, to, t) != t
    decreases SizeTele(t), 2
  {
    if t.args == [] {
      if Visits(from, to, t.end.ret, u) { PlaceChanges(from, to, t.end.ret, u); }
      else { PlaceChangesStmts(from, to, t.end.body.stmts, u); }
    } else {
      var a, rest, r := t.args[0], Rest(t), RewriteTele(from, to, t);
      assert r.args[0].ty == Rewrite(from, to, a.ty);
      assert Rest(r) == if Stops(from, to, a.name) then rest else RewriteTele(from, to, rest);
      if Visits(from, to, a.ty, u) { PlaceChanges(from, to, a.ty, u); } else { PlaceChangesTele(from, to, rest, u); }
    }
  }

  lemma {:induction false} PlaceChangesStmts(from: Expr, to: Expr, ss: seq<Stmt>, u: Expr)
    requires VisitsStmts(from, to, ss, u) && Changes(from, to, u)
    ensures RewriteStmts(from, to, ss) != ss
    decreases SizeStmts(ss), 2
  {
    var r := RewriteStmts(from, to, ss);
    assert r[0] == RewriteStmt(from, to, ss[0]) && r[1..] == RewriteStmts(from, to, ss[1..]);
    if VisitsStmt(from, to, ss[0], u) { PlaceChangesStmt(from, to, ss[0], u); }
    else { PlaceChangesStmts(from, to, ss[1..], u); }
  }

  lemma {:induction false} PlaceChangesStmt(from: Expr, to: Expr, s: Stmt, u: Expr)
    requires VisitsStmt(from, to, s, u) && Changes(from, to, u)
    ensures RewriteStmt(from, to, s) != s
    decreases SizeStmt(s), 1
  {
    match s
    case Call(_, f, es) =>
      if Visits(from, to, f, u) { PlaceChanges(from, to, f, u); } else { PlaceChangesSeq(from, to, es, u); }
    case IfElse(c, t, e) =>
      if Visits(from, to, c, u) { PlaceChanges(from, to, c, u); }
      else if VisitsStmts(from, to, t.stmts, u) { PlaceChangesStmts(from, to, t.stmts, u); }
      else { PlaceChangesStmts(from, to, e.value.stmts, u); }
    case Return(e) => PlaceChanges(from, to, e.value, u);
    case Impossible(e) => PlaceChanges(from, to, e.value, u);
  }

  /** Rewriting changes something just when a match is not the right side already. */
  lemma RewritesIff(from: Expr, to: Expr, e: Expr)
    ensures Rewrite(from, to, e) != e <==> exists u :: Visits(from, to, e, u) && Changes(from, to, u)
  {
    if Rewrite(from, to, e) != e {
      var u := ChangeHasPlace(from, to, e);
    }
    if u :| Visits(from, to, e, u) && Changes(from, to, u) {
      PlaceChanges(from, to, e, u);
    }
  }

  // ---- what can be left ----

  // `u` is what became of a visited term that was no match itself, but had one among its parts.
  predicate Arose(from: Expr, to: Expr, v: Expr, u: Expr) {
    !AlphaEq(v, from) && u == Rewrite(from, to, v) && u != v
  }

  lemma {:induction false} WhereFrom(from: Expr, to: Expr, e: Expr, u: Expr) returns (v: Expr)
    requires Visits(from, to, Rewrite(from, to, e), u) && AlphaEq(u, from)
    ensures Visits(from, to, to, u) || (Visits(from, to, e, v) && Arose(from, to, v, u))
    decreases Size(e), 1
  {
    var r := Rewrite(from, to, e);
    v := e;
    if !AlphaEq(e, from) && u != r {
      match e
      case Node(op, es) =>
        assert !Dropped(op) && r == Node(op, RewriteSeq(from, to, es));
        v := WhereFromSeq(from, to, es, u);
      case App(_, f, es) =>
        if Visits(from, to, Rewrite(from, to, f), u) { v := WhereFrom(from, to, f, u); }
        else { v := WhereFromSeq(from, to, es, u); }
      case Bind(t) => v := WhereFromTele(from, to, t, u);
    }
  }

  lemma {:induction false} WhereFromSeq(from: Expr, to: Expr, es: seq<Expr>, u: Expr) returns (v: Expr)
    requires VisitsSeq(from, to, RewriteSeq(from, to, es), u) && AlphaEq(u, from)
    ensures Visits(from, to, to, u) || (VisitsSeq(from, to, es, v) && Arose(from, to, v, u))
    decreases SizeSeq(es), 2
  {
    var r := RewriteSeq(from, to, es);
    assert r[0] == Rewrite(from, to, es[0]) && r[1..] == RewriteSeq(from, to, es[1..]);
    if Visits(from, to, r[0], u) { v := WhereFrom(from, to, es[0], u); }
    else { v := WhereFromSeq(from, to, es[1..], u); }
  }

  lemma {:induction false} WhereFromTele(from: Expr, to: Expr, t: Tele, u: Expr) returns (v: Expr)
    requires VisitsTele(from, to, RewriteTele(from, to, t), u) && AlphaEq(u, from)
    ensures Visits(from, to, to, u) || (VisitsTele(from, to, t, v) && Arose(from, to, v, u))
    decreases SizeTele(t), 2
  {
    if t.args == [] {
      v := WhereFromEnd(from, to, t, u);
    } else {
      var a, rest := t.args[0], Rest(t);
      var b, next := Arg(a.qty, Rewrite(from, to, a.ty), a.name),
        if Stops(from, to, a.name) then rest else RewriteTele(from, to, rest);
      ConsVisits(from, to, b, next, u);
      if Visits(from, to, b.ty, u) { v := WhereFrom(from, to, a.ty, u); }
      else { v := WhereFromTele(from, to, rest, u); }
    }
  }

  lemma ConsVisits(from: Expr, to: Expr, a: Arg, t: Tele, u: Expr)
    ensures VisitsTele(from, to, Cons(a, t), u) ==
            (Visits(from, to, a.ty, u) || (!Stops(from, to, a.name) && VisitsTele(from, to, t, u)))
  {
  }

  lemma {:induction false} WhereFromEnd(from: Expr, to: Expr, t: Tele, u: Expr) returns (v: Expr)
    requires t.args == [] && VisitsTele(from, to, RewriteTele(from, to, t), u) && AlphaEq(u, from)
    ensures Visits(from, to, to, u) || (VisitsTele(from, to, t, v) && Arose(from, to, v, u))
    decreases SizeTele(t), 1
  {
    var r := RewriteTele(from, to, t);
    if Visits(from, to, r.end.ret, u) { v := WhereFrom(from, to, t.end.ret, u); }
    else { v := WhereFromStmts(from, to, t.end.body.stmts, u); }
  }

  lemma {:induction false} WhereFromStmts(from: Expr, to: Expr, ss: seq<Stmt>, u: Expr) returns (v: Expr)
    requires VisitsStmts(from, to, RewriteStmts(from, to, ss), u) && AlphaEq(u, from)
    ensures Visits(from, to, to, u) || (VisitsStmts(from, to, ss, v) && Arose(from, to, v, u))
    decreases SizeStmts(ss), 2
  {
    var r := RewriteStmts(from, to, ss);
    assert r[0] == RewriteStmt(from, to, ss[0]) && r[1..] == RewriteStmts(from, to, ss[1..]);
    if VisitsStmt(from, to, r[0], u) { v := WhereFromStmt(from, to, ss[0], u); }
    else { v := WhereFromStmts(from, to, ss[1..], u); }
  }

  lemma {:induction false} WhereFromStmt(from: Expr, to: Expr, s: Stmt, u: Expr) returns (v: Expr)
    requires VisitsStmt(from, to, RewriteStmt(from, to, s), u) && AlphaEq(u, from)
    ensures Visits(from, to, to, u) || (VisitsStmt(from, to, s, v) && Arose(from, to, v, u))
    decreases SizeStmt(s), 1
  {
    match s
    case Call(_, f, es) =>
      if Visits(from, to, Rewrite(from, to, f), u) { v := WhereFrom(from, to, f, u); }
      else { v := WhereFromSeq(from, to, es, u); }
    case IfElse(_, _, _) => v := WhereFromIf(from, to, s, u);
    case Return(e) => v := WhereFrom(from, to, e.value, u);
    case Impossible(e) => v := WhereFrom(from, to, e.value, u);
  }

  lemma {:induction false} WhereFromIf(from: Expr, to: Expr, s: Stmt, u: Expr) returns (v: Expr)
    requires s.IfElse? && VisitsStmt(from, to, RewriteStmt(from, to, s), u) && AlphaEq(u, from)
    ensures Visits(from, to, to, u) || (VisitsStmt(from, to, s, v) && Arose(from, to, v, u))
    decreases SizeStmt(s), 0
  {
    var r := RewriteStmt(from, to, s);
    if Visits(from, to, r.cond, u) { v := WhereFrom(from, to, s.cond, u); }
    else if VisitsStmts(from, to, r.thenB.stmts, u) { v := WhereFromStmts(from, to, s.thenB.stmts, u); }
    else { v := WhereFromStmts(from, to, s.elseB.value.stmts, u); }
  }

  /** No match is left but in the right side, and where one arose from what was no match. */
  lemma WhatIsLeft(from: Expr, to: Expr, e: Expr, u: Expr)
    requires Visits(from, to, Rewrite(from, to, e), u) && AlphaEq(u, from)
    ensures Visits(from, to, to, u) || exists v :: Visits(from, to, e, v) && Arose(from, to, v, u)
  {
    var v := WhereFrom(from, to, e, u);
  }

  predicate Partless(e: Expr) {
    e.Atom? || e.VarE?
  }

  /** If the left side has no parts, none arises. */
  lemma PartlessIsGone(from: Expr, to: Expr, e: Expr, u: Expr)
    requires Partless(from) && Visits(from, to, Rewrite(from, to, e), u) && AlphaEq(u, from)
    ensures Visits(from, to, to, u)
  {
    var v := WhereFrom(from, to, e, u);
    assert Arose(from, to, v, u) ==> Partless(v) || v.Because? || !(Partless(u) || u.Because?);
  }

  // `not not x` becomes `not x` when `not x` is rewritten to `x`.
  lemma MatchCanArise(x: Var)
    ensures var e := Node(Not, [VarE(x)]); Rewrite(e, VarE(x), Node(Not, [e])) == e
  {
    var e := Node(Not, [VarE(x)]);
    AlphaRefl(e);
    assert [e][1..] == [] && [VarE(x)][1..] == [];
    assert !AlphaEq(Node(Not, [e]), e) by { assert !AlphaEq(e, VarE(x)); }
    assert RewriteSeq(e, VarE(x), [e]) == [VarE(x)];
  }
}
