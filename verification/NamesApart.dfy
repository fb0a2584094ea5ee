/** Telescopes whose arguments are named apart from everything that is bound inside: substituting for one argument after
    the other is fine, whatever is free in the terms put in. Their names may well be those of the arguments. */
module NamesApart {
  import opened Ast
  import opened Binders
  import opened BoundNames
  import opened Nameless
  import opened Substitution

  // ---- substitution into a term that does not bind the variable, renamed or not ----

  lemma {:induction false} StemsApartOk(e: Expr, x: Var, y: Expr)
    requires Unindexed(y) && forall b :: b in BindersOf(e) ==> !SameStem(b, x)
    ensures SubstOk(x, y, e)
    decreases Size(e), 0
  {
    match e
    case Atom(_) =>
    case VarE(_) =>
    case Node(_, es) => StemsApartOkSeq(es, x, y);
    case App(_, f, es) => StemsApartOk(f, x, y); StemsApartOkSeq(es, x, y);
    case Because(v, r) => StemsApartOk(v, x, y); StemsApartOk(r, x, y);
    case Bind(t) => StemsApartOkTele(t, x, y);
  }

  lemma {:induction false} StemsApartOkSeq(es: seq<Expr>, x: Var, y: Expr)
    requires Unindexed(y) && forall b :: b in BindersOfSeq(es) ==> !SameStem(b, x)
    ensures SubstOkSeq(x, y, es)
    decreases SizeSeq(es), 1
  {
    if es != [] { StemsApartOk(es[0], x, y); StemsApartOkSeq(es[1..], x, y); }
  }

  lemma {:induction false} StemsApartOkTele(t: Tele, x: Var, y: Expr)
    requires Unindexed(y) && forall b :: b in BindersOfTele(t) ==> !SameStem(b, x)
    ensures SubstOkTele(x, y, t)
    decreases SizeTele(t), 1
  {
    if t.args == [] {
      match t.end
      case SigmaEnd =>
      case PiEnd(_, r) => StemsApartOk(r, x, y);
      case AbsEnd(_, r, b) => StemsApartOk(r, x, y); StemsApartOkStmts(b.stmts, x, y);
    } else {
      var a, rest := t.args[0], Rest(t);
      StemsApartOk(a.ty, x, y);
      if a.name.Some? && a.name != Some(x) && OccursIn(a.name.value, y, true) {
        var v := FreshVar(a.name.value, rest);
        assert a.name.value in BindersOfTele(t) && !SameStem(a.name.value, x) && v != x;
        forall b | b in BindersOfTele(ReplaceTele(a.name.value, v, rest)) ensures !SameStem(b, x) {
          ReplaceBindersTele(rest, a.name.value, v, b);
        }
        StemsApartOkTele(ReplaceTele(a.name.value, v, rest), x, y);
      } else if a.name != Some(x) {
        StemsApartOkTele(rest, x, y);
      }
    }
  }

  lemma {:induction false} StemsApartOkStmts(ss: seq<Stmt>, x: Var, y: Expr)
    requires Unindexed(y) && forall b :: b in BindersOfStmts(ss) ==> !SameStem(b, x)
    ensures SubstOkStmts(x, y, ss)
    decreases SizeStmts(ss), 1
  {
    if ss != [] { StemsApartOkStmt(ss[0], x, y); StemsApartOkStmts(ss[1..], x, y); }
  }

  lemma {:induction false} StemsApartOkStmt(s: Stmt, x: Var, y: Expr)
    requires Unindexed(y) && forall b :: b in BindersOfStmt(s) ==> !SameStem(b, x)
    ensures SubstOkStmt(x, y, s)
    decreases SizeStmt(s), 0
  {
    match s
    case Call(_, f, es) => StemsApartOk(f, x, y); StemsApartOkSeq(es, x, y);
    case IfElse(c, t, e) =>
      StemsApartOk(c, x, y);
      StemsApartOkStmts(t.stmts, x, y);
      if e.Some? { StemsApartOkStmts(e.value.stmts, x, y); }
    case Return(e) => if e.Some? { StemsApartOk(e.value, x, y); }
    case Impossible(e) => if e.Some? { StemsApartOk(e.value, x, y); }
  }

  // ---- names of parameters, and names bound in types ----

  // The names bound in what a telescope consists of, apart from its own arguments.
  function Inside(t: Tele): set<Var>
    decreases |t.args|
  {
    if t.args == [] then BindersOfTele(t) else BindersOf(t.args[0].ty) + Inside(Rest(t))
  }

  ghost predicate Bound(v: Var, args: seq<Arg>) {
    exists i :: 0 <= i < |args| && args[i].name == Some(v)
  }

  lemma {:induction false} InsideOrNamed(t: Tele, b: Var)
    ensures b in BindersOfTele(t) ==> b in Inside(t) || Bound(b, t.args)
    decreases |t.args|
  {
    if t.args != [] {
      InsideOrNamed(Rest(t), b);
      if Bound(b, Rest(t).args) {
        var i :| 0 <= i < |Rest(t).args| && Rest(t).args[i].name == Some(b);
        assert t.args[i + 1].name == Some(b);
      }
      assert t.args[0].name == Some(b) ==> Bound(b, t.args);
    }
  }

  lemma {:induction false} ReplaceInside(t: Tele, from: Var, to: Var, b: Var)
    ensures b in Inside(ReplaceTele(from, to, t)) ==> b in Inside(t) || (b == to && from in Inside(t))
    decreases |t.args|
  {
    if t.args == [] { ReplaceBindersTele(t, from, to, b); }
    else { ReplaceBinders(t.args[0].ty, from, to, b); ReplaceInside(Rest(t), from, to, b); }
  }

  lemma {:induction false} SubstInside(t: Tele, x: Var, y: Expr, b: Var)
    ensures b in Inside(SubstTele(x, y, t)) ==> Stems(b, Inside(t)) || Stems(b, BindersOf(y))
    decreases |t.args|
  {
    if t.args == [] {
      SubstBindersTele(t, x, y, b);
    } else {
      var a, rest := t.args[0], Rest(t);
      SubstBinders(a.ty, x, y, b);
      if a.name == Some(x) {
        assert b in Inside(rest) ==> Stems(b, Inside(t));
      } else if a.name.Some? && OccursIn(a.name.value, y, true) {
        var v := FreshVar(a.name.value, rest);
        var renamed := ReplaceTele(a.name.value, v, rest);
        SubstInside(renamed, x, y, b);
        if Stems(b, Inside(renamed)) {
          var c :| c in Inside(renamed) && SameStem(b, c);
          ReplaceInside(rest, a.name.value, v, c);
        }
      } else {
        SubstInside(rest, x, y, b);
      }
    }
  }

  // Arguments keep their names up to the index.
  predicate SameNames(a: seq<Arg>, b: seq<Arg>) {
    && |a| == |b|
    && forall i :: 0 <= i < |a| ==>
         a[i].name.Some? == b[i].name.Some? && (a[i].name.Some? ==> SameStem(a[i].name.value, b[i].name.value))
  }

  lemma {:induction false} ReplaceNames(from: Var, to: Var, t: Tele)
    ensures forall i :: 0 <= i < |t.args| ==>
              ReplaceTele(from, to, t).args[i].name == ReplaceName(from, to, t.args[i].name)
    decreases |t.args|
  {
    if t.args != [] {
      assert forall i :: 0 <= i < |Rest(t).args| ==> Rest(t).args[i] == t.args[i + 1];
      ReplaceNames(from, to, Rest(t));
      assert Rest(ReplaceTele(from, to, t)) == ReplaceTele(from, to, Rest(t));
    }
  }

  lemma SameNamesCons(a: Arg, t: Tele, b: Arg, u: Tele)
    requires SameNames(t.args, u.args) && a.name.Some? == b.name.Some?
    requires a.name.Some? ==> SameStem(a.name.value, b.name.value)
    ensures SameNames(Cons(a, t).args, Cons(b, u).args)
  {
  }

  lemma SameNamesTrans(a: seq<Arg>, b: seq<Arg>, c: seq<Arg>)
    requires SameNames(a, b) && SameNames(b, c)
    ensures SameNames(a, c)
  {
  }

  lemma {:induction false} SubstNames(x: Var, y: Expr, t: Tele)
    ensures SameNames(SubstTele(x, y, t).args, t.args)
    decreases |t.args|
  {
    if t.args != [] {
      var a, rest := t.args[0], Rest(t);
      assert t == Cons(a, rest);
      if a.name == Some(x) {
        SameNamesCons(Arg(a.qty, Subst(x, y, a.ty), a.name), rest, a, rest);
      } else if a.name.Some? && OccursIn(a.name.value, y, true) {
        var v := FreshVar(a.name.value, rest);
        var renamed := ReplaceTele(a.name.value, v, rest);
        ReplaceNames(a.name.value, v, rest);
        assert SameNames(renamed.args, rest.args);
        SubstNames(x, y, renamed);
        SameNamesTrans(SubstTele(x, y, renamed).args, renamed.args, rest.args);
        SameNamesCons(Arg(a.qty, Subst(x, y, a.ty), Some(v)), SubstTele(x, y, renamed), a, rest);
      } else {
        SubstNames(x, y, rest);
        SameNamesCons(Arg(a.qty, Subst(x, y, a.ty), a.name), SubstTele(x, y, rest), a, rest);
      }
    }
  }

  // ---- arguments one after the other ----

  // What is free is named as in the source program, and no parameter is bound, under whatever index.
  ghost predicate Clear(params: set<Var>, e: Expr) {
    Unindexed(e) && forall b :: b in BindersOf(e) ==> !Stems(b, params)
  }

  // Parameters differ in more than an index.
  ghost predicate Spread(params: set<Var>, args: seq<Arg>) {
    && (forall i :: 0 <= i < |args| && args[i].name.Some? ==> Stems(args[i].name.value, params))
    && (forall i, k :: 0 <= i < k < |args| && args[i].name.Some? && args[k].name.Some? ==>
          !SameStem(args[i].name.value, args[k].name.value))
  }

  // And none is bound inside.
  ghost predicate Apart(params: set<Var>, t: Tele) {
    Spread(params, t.args) && forall b :: b in Inside(t) ==> !Stems(b, params)
  }

  lemma SpreadRest(params: set<Var>, args: seq<Arg>, next: seq<Arg>)
    requires Spread(params, args) && args != [] && SameNames(next, args[1..])
    ensures Spread(params, next)
  {
    assert forall i :: 0 <= i < |next| ==> args[1..][i] == args[i + 1];
    forall i | 0 <= i < |next| && next[i].name.Some? ensures Stems(next[i].name.value, params) {
      assert SameStem(next[i].name.value, args[i + 1].name.value) && Stems(args[i + 1].name.value, params);
    }
    forall i, k | 0 <= i < k < |next| && next[i].name.Some? && next[k].name.Some?
      ensures !SameStem(next[i].name.value, next[k].name.value)
    {
      assert !SameStem(args[i + 1].name.value, args[k + 1].name.value);
    }
  }

  // The first parameter, under whatever index, is bound nowhere behind itself.
  lemma BoundOnce(params: set<Var>, t: Tele, b: Var)
    requires Apart(params, t) && t.args != [] && t.args[0].name.Some? && b in BindersOfTele(Rest(t))
    ensures !SameStem(b, t.args[0].name.value)
  {
    var x := t.args[0].name.value;
    InsideOrNamed(Rest(t), b);
    if b in Inside(Rest(t)) {
      assert b in Inside(t) && Stems(x, params);
    } else {
      var i :| 0 <= i < |Rest(t).args| && Rest(t).args[i].name == Some(b);
      assert t.args[i + 1].name == Some(b);
    }
  }

  lemma StillApart(params: set<Var>, b: Var, names: set<Var>)
    requires forall c :: c in names ==> !Stems(c, params)
    ensures Stems(b, names) ==> !Stems(b, params)
  {
  }

  // Substituting for the first argument.
  lemma ApartNext(params: set<Var>, t: Tele, y: Expr)
    requires Apart(params, t) && t.args != [] && t.args[0].name.Some? && Clear(params, y)
    ensures SubstOkTele(t.args[0].name.value, y, Rest(t))
    ensures Apart(params, SubstTele(t.args[0].name.value, y, Rest(t)))
  {
    var x, rest := t.args[0].name.value, Rest(t);
    var next := SubstTele(x, y, rest);
    forall b | b in BindersOfTele(rest) ensures !SameStem(b, x) { BoundOnce(params, t, b); }
    StemsApartOkTele(rest, x, y);
    SubstNames(x, y, rest);
    SpreadRest(params, t.args, next.args);
    forall b | b in Inside(next) ensures !Stems(b, params) {
      SubstInside(rest, x, y, b);
      StillApart(params, b, Inside(t));
      StillApart(params, b, BindersOf(y));
    }
  }

  // Leaving it out.
  lemma ApartRest(params: set<Var>, t: Tele)
    requires Apart(params, t) && t.args != []
    ensures Apart(params, Rest(t))
  {
    SpreadRest(params, t.args, Rest(t).args);
  }

  /** Every substitution of a beta step is fine if parameters and arguments are named apart. Parameters may occur free
      in the arguments, as in `(a, b). ...` applied to `b` and `a`. */
  lemma {:induction false} ApartIsOk(params: set<Var>, t: Tele, values: seq<Expr>)
    requires |values| == |t.args| && Apart(params, t) && forall i :: 0 <= i < |values| ==> Clear(params, values[i])
    ensures BetaOk(t, values)
    decreases |t.args|
  {
    if t.args != [] {
      assert forall i :: 0 <= i < |values[1..]| ==> values[1..][i] == values[i + 1];
      if t.args[0].name.Some? { ApartNext(params, t, values[0]); } else { ApartRest(params, t); }
      ApartIsOk(params, if t.args[0].name.Some? then SubstTele(t.args[0].name.value, values[0], Rest(t)) else Rest(t),
        values[1..]);
    }
  }
}
