/** What guarantees that a plan chooses fine names: no name of a parameter, renamed or not, is bound inside a type.

    Parameters may well be named like variables of the context, as in every recursive function. */
module PlanNames {
  import opened Ast
  import opened Binders
  import opened BoundNames
  import opened Nameless
  import opened Substitution
  import opened NamesApart
  import opened Unification
  import opened Planning

  // ---- what can be checked before the search ----

  // What is free in the types is named as in the source program.
  ghost predicate UnindexedTypes(args: seq<Arg>) {
    forall v :: OccursInTele(v, Tele(args, SigmaEnd), false) ==> v.idx == 0
  }

  // The types of parameters that the return type mentions do not depend on one that is named like a context variable.
  ghost predicate PlainSorts(context: set<Var>, t: Tele) {
    t.end.PiEnd? ==>
      forall i, q | 0 <= i < |t.args| && t.args[i].name.Some? && q in context ::
        Asks(t.args[i].name.value, t.end.ret) ==> !OccursIn(q, t.args[i].ty, false)
  }

  lemma SubstSig(x: Var, y: Expr, t: Tele, v: Var)
    requires SubstOkTele(x, y, t) && OccursInTele(v, Tele(SubstTele(x, y, t).args, SigmaEnd), false)
    ensures OccursIn(v, y, false) || (v != x && OccursInTele(v, Tele(t.args, SigmaEnd), false))
  {
    var r, u := SubstTele(x, y, t), ToNameless(y, []);
    SigNameless(r, []);
    SigNameless(t, []);
    FreeNamelessTele(Tele(r.args, SigmaEnd), v, []);
    FreeNamelessTele(Tele(t.args, SigmaEnd), v, []);
    FreeNameless(y, v, []);
    SubstitutionTheoremTele(x, y, t);
    SigSubst(x, u, ToNamelessTele(t, []));
    NSubstFreeTele(NSig(ToNamelessTele(t, [])), v, x, u);
  }

  lemma {:induction false} SigSubst(x: Var, u: NExpr, t: NTele)
    ensures NSig(NSubstTele(x, u, t)) == NSubstTele(x, u, NSig(t))
    decreases t
  {
    if t.NArg? { SigSubst(x, u, t.rest); }
  }

  lemma FreeBelow(t: Tele, v: Var)
    requires t.args != [] && t.args[0].name != Some(v) && OccursInTele(v, Tele(Rest(t).args, SigmaEnd), false)
    ensures OccursInTele(v, Tele(t.args, SigmaEnd), false)
  {
    assert Rest(Tele(t.args, SigmaEnd)) == Tele(Rest(t).args, SigmaEnd);
  }

  lemma TypesNext(t: Tele, y: Expr)
    requires UnindexedTypes(t.args) && t.args != [] && t.args[0].name.Some? && Unindexed(y)
    requires SubstOkTele(t.args[0].name.value, y, Rest(t))
    ensures UnindexedTypes(SubstTele(t.args[0].name.value, y, Rest(t)).args)
  {
    var x := t.args[0].name.value;
    var next := SubstTele(x, y, Rest(t));
    forall v | OccursInTele(v, Tele(next.args, SigmaEnd), false) ensures v.idx == 0 {
      SubstSig(x, y, Rest(t), v);
      if !OccursIn(v, y, false) { FreeBelow(t, v); }
    }
  }

  // Leaving out a parameter on which no type depends.
  lemma TypesRest(t: Tele)
    requires UnindexedTypes(t.args) && t.args != [] && Irrelevant(t.args[0].name, Rest(t))
    ensures UnindexedTypes(Rest(t).args) && Unindexed(t.args[0].ty)
  {
    assert Rest(Tele(t.args, SigmaEnd)) == Tele(Rest(t).args, SigmaEnd);
    forall v | OccursIn(v, t.args[0].ty, false) ensures v.idx == 0 {
      assert OccursInTele(v, Tele(t.args, SigmaEnd), false);
    }
  }

  ghost predicate ClearBindings(params: set<Var>, s: Bindings) {
    forall v :: v in s ==> Clear(params, s[v])
  }

  ghost predicate ClearSlots(params: set<Var>, slots: seq<Slot>) {
    forall i :: 0 <= i < |slots| && slots[i].Open? ==> Clear(params, slots[i].ty)
  }

  // Every name chosen is fine, and the types left open are as clear as what was matched.
  lemma {:induction false} ApartPlan(params: set<Var>, s: Bindings, names: seq<Option<Var>>, t: Tele)
    requires Apart(params, t) && UnindexedTypes(t.args) && ClearBindings(params, s) && |names| == |t.args|
    ensures PlanOk(s, names, t)
    ensures Plan(s, names, t).Some? ==> ClearSlots(params, Plan(s, names, t).value)
    decreases |t.args|
  {
    if t.args != [] && Next(s, names[0], t).Some? {
      var next := Next(s, names[0], t).value;
      if next.0.Known? {
        ApartNext(params, t, next.0.value);
        TypesNext(t, next.0.value);
      } else {
        ApartRest(params, t);
        TypesRest(t);
      }
      ApartPlan(params, next.1, names[1..], next.2);
      var plan, tail := Plan(s, names, t), Plan(next.1, names[1..], next.2);
      if plan.Some? { assert forall i :: 0 < i < |plan.value| ==> plan.value[i] == tail.value[i - 1]; }
    }
  }

  // ---- parts of a target ----

  lemma {:induction false} PartClear(e: Expr, whole: Expr)
    requires Part(e, whole)
    ensures BindersOf(e) <= BindersOf(whole) && forall v :: OccursIn(v, e, false) ==> OccursIn(v, whole, false)
    decreases whole, 1
  {
    if e != whole {
      match whole
      case Node(_, es) => PartClearSeq(e, es);
      case App(_, f, es) => if Part(e, f) { PartClear(e, f); } else { PartClearSeq(e, es); }
      case Because(v, _) => PartClear(e, v);
    }
  }

  lemma {:induction false} PartClearSeq(e: Expr, es: seq<Expr>)
    requires PartSeq(e, es)
    ensures BindersOf(e) <= BindersOfSeq(es) && forall v :: OccursIn(v, e, false) ==> OccursInSeq(v, es, false)
    decreases es, 0
  {
    if Part(e, es[0]) { PartClear(e, es[0]); } else { PartClearSeq(e, es[1..]); }
  }

  /** A clear target is planned for with fine names, and what is left open is clear again. */
  lemma ApartIsFine(params: set<Var>, context: set<Var>, c: Callee, target: Expr)
    requires Apart(params, c.pi) && UnindexedTypes(c.pi.args) && PlainSorts(context, c.pi) && Clear(params, target)
    ensures Fine(context, c, target)
    ensures PlanOf(c, target).Some? ==> ClearSlots(params, PlanOf(c, target).value)
  {
    if PlanOf(c, target).Some? {
      var s := Unify(c.sorts, c.pi.end.ret, target).value;
      MatchFinds(c.sorts, c.pi.end.ret, target, map[]);
      forall v | v in s ensures Clear(params, s[v]) { PartClear(s[v], target); }
      ApartPlan(params, s, ArgNames(c.pi.args), c.pi);
    }
  }
}
