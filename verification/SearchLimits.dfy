/** What names do to a search: it can go wrong where a parameter is bound in a type, or where types are compared by
    name, and it is right in a recursive function, whose parameters are the variables of the context. */
module SearchLimits {
  import opened Ast
  import opened Binders
  import opened Nameless
  import opened Substitution
  import opened AlphaEquivalence
  import opened Unification
  import opened Planning
  import opened BoundNames
  import opened NamesApart
  import opened PlanNames
  import opened BetaLimits
  import opened ProofSearch
  import opened SearchSoundness

  const P_NAME := Atom(Global(None, "P"))
  const Q_NAME := Atom(Global(None, "Q"))

  function P(a: Expr): Expr {
    App(false, P_NAME, [a])
  }

  function Q(a: Expr, b: Expr): Expr {
    App(false, Q_NAME, [a, b])
  }

  // (P(a)) -> Q(b, c)
  function Given(a: Expr, b: Expr, c: Expr): Tele {
    Cons(Arg(Many, P(a), None), Result(Q(b, c)))
  }

  // (x, t, P(x)) -> Q(x, t)
  const SIGNATURE := Cons(Arg(Many, BOOL, Some(X)), Cons(Arg(Many, BOOL, Some(T)), Given(VarE(X), VarE(X), VarE(T))))
  const CALLEE := Callee(Atom(Global(None, "f")), Axiom, SIGNATURE, (v, e) => true)

  lemma PairUnfolds(a: Expr, b: Expr)
    ensures [a, b][0] == a && [a, b][1..] == [b] && [b][0] == b && [b][1..] == []
  {
  }

  lemma SingleIndex(a: Expr)
    ensures MaxIndexSeq([a]) == MaxIndex(a)
  {
    assert [a][0] == a && [a][1..] == [] && MaxIndexSeq([]) == 0;
  }

  lemma GivenIndex(a: Expr, b: Expr, c: Expr)
    ensures MaxIndex(P(a)) == MaxIndex(a) && MaxIndex(Q(b, c)) == Max(MaxIndex(b), MaxIndex(c))
    ensures MaxIndexTele(Given(a, b, c)) == Max(MaxIndex(a), Max(MaxIndex(b), MaxIndex(c)))
  {
    SingleIndex(a);
    SingleIndex(c);
    PairUnfolds(b, c);
    assert MaxIndex(P_NAME) == 0 && MaxIndex(Q_NAME) == 0;
    assert MaxIndexSeq([b, c]) == Max(MaxIndex(b), MaxIndex(c));
    assert Rest(Given(a, b, c)) == Result(Q(b, c)) && MaxIndexTele(Result(Q(b, c))) == MaxIndex(Q(b, c));
  }

  lemma SubstUnfolds(x: Var, y: Expr, a: Expr, b: Expr)
    ensures Subst(x, y, P(a)) == P(Subst(x, y, a)) && Subst(x, y, Q(a, b)) == Q(Subst(x, y, a), Subst(x, y, b))
  {
    PairUnfolds(a, b);
    assert [a][0] == a && [a][1..] == [];
    assert SubstSeq(x, y, [a]) == [Subst(x, y, a)] && SubstSeq(x, y, [b]) == [Subst(x, y, b)];
    assert SubstSeq(x, y, [a, b]) == [Subst(x, y, a), Subst(x, y, b)];
  }

  lemma GivenSubst(x: Var, y: Expr, a: Expr, b: Expr, c: Expr)
    ensures SubstTele(x, y, Given(a, b, c)) == Given(Subst(x, y, a), Subst(x, y, b), Subst(x, y, c))
  {
    SubstUnfolds(x, y, a, a);
    SubstUnfolds(x, y, b, c);
    assert Rest(Given(a, b, c)) == Result(Q(b, c)) && Given(a, b, c).args[0] == Arg(Many, P(a), None);
    assert SubstTele(x, y, Result(Q(b, c))) == Result(Q(Subst(x, y, b), Subst(x, y, c)));
  }

  lemma ReplaceUnfolds(x: Var, y: Var, a: Expr, b: Expr)
    ensures Replace(x, y, P(a)) == P(Replace(x, y, a))
            && Replace(x, y, Q(a, b)) == Q(Replace(x, y, a), Replace(x, y, b))
  {
    PairUnfolds(a, b);
    assert [a][0] == a && [a][1..] == [];
    assert ReplaceSeq(x, y, [a]) == [Replace(x, y, a)] && ReplaceSeq(x, y, [b]) == [Replace(x, y, b)];
    assert ReplaceSeq(x, y, [a, b]) == [Replace(x, y, a), Replace(x, y, b)];
  }

  lemma GivenReplace(x: Var, y: Var, a: Expr, b: Expr, c: Expr)
    ensures ReplaceTele(x, y, Given(a, b, c)) == Given(Replace(x, y, a), Replace(x, y, b), Replace(x, y, c))
  {
    ReplaceUnfolds(x, y, a, a);
    ReplaceUnfolds(x, y, b, c);
    assert Rest(Given(a, b, c)) == Result(Q(b, c)) && Given(a, b, c).args[0] == Arg(Many, P(a), None);
    assert ReplaceTele(x, y, Result(Q(b, c))) == Result(Q(Replace(x, y, b), Replace(x, y, c)));
  }

  lemma Unified()
    ensures Unify(CALLEE.sorts, Q(VarE(X), VarE(T)), Q(IDENTITY, IDENTITY)) == Some(map[X := IDENTITY, T := IDENTITY])
  {
    PairUnfolds(VarE(X), VarE(T));
    PairUnfolds(IDENTITY, IDENTITY);
    var none: Bindings := map[];
    var one := none[X := IDENTITY];
    assert Match(CALLEE.sorts, Q_NAME, Q_NAME, none) == Some(none);
    assert Match(CALLEE.sorts, VarE(X), IDENTITY, none) == Some(one);
    assert Match(CALLEE.sorts, VarE(T), IDENTITY, one) == Some(one[T := IDENTITY]);
    assert MatchSeq(CALLEE.sorts, [VarE(T)], [IDENTITY], one) == Some(one[T := IDENTITY]);
    assert MatchSeq(CALLEE.sorts, [VarE(X), VarE(T)], [IDENTITY, IDENTITY], none) == Some(one[T := IDENTITY]);
  }

  // The first substitution renames the parameter `t`.
  lemma FirstSubstituted()
    ensures SubstTele(X, IDENTITY, Rest(SIGNATURE))
            == Cons(Arg(Many, BOOL, Some(T1)), Given(IDENTITY, IDENTITY, VarE(T1)))
  {
    var t, rest := Rest(SIGNATURE), Given(VarE(X), VarE(X), VarE(T));
    assert t == Cons(Arg(Many, BOOL, Some(T)), rest) && Rest(t) == rest;
    PiUnfolds(T, VarE(T));
    GivenIndex(VarE(X), VarE(X), VarE(T));
    assert FreshVar(T, rest) == T1;
    GivenReplace(T, T1, VarE(X), VarE(X), VarE(T));
    assert ReplaceTele(T, T1, rest) == Given(VarE(X), VarE(X), VarE(T1));
    GivenSubst(X, IDENTITY, VarE(X), VarE(X), VarE(T1));
    assert Subst(X, IDENTITY, BOOL) == BOOL;
  }

  // The second renames the binder of the copy to the same name, and substitutes for it.
  lemma SecondSubstituted()
    ensures SubstTele(T1, IDENTITY, Given(IDENTITY, IDENTITY, VarE(T1))) == Given(CONSTANT, CONSTANT, IDENTITY)
  {
    SecondStep();
    GivenSubst(T1, IDENTITY, IDENTITY, IDENTITY, VarE(T1));
  }

  // `names[0]` is known or left open, and the rest is planned.
  lemma PlanCons(s: Bindings, names: seq<Option<Var>>, t: Tele, slot: Slot, left: Bindings, next: Tele, tail: seq<Slot>)
    requires |names| == |t.args| > 0 && Next(s, names[0], t) == Some((slot, left, next))
    requires |next.args| == |names| - 1 && Plan(left, names[1..], next) == Some(tail)
    ensures Plan(s, names, t) == Some([slot] + tail)
  {
  }

  const HALFWAY := Cons(Arg(Many, BOOL, Some(T1)), Given(IDENTITY, IDENTITY, VarE(T1)))
  const LAST := Given(CONSTANT, CONSTANT, IDENTITY)

  lemma NextOfFirst()
    ensures var one: Bindings := map[T := IDENTITY];
            Next(map[X := IDENTITY, T := IDENTITY], Some(X), SIGNATURE) == Some((Known(IDENTITY), one, HALFWAY))
  {
    FirstSubstituted();
    var s, one: Bindings := map[X := IDENTITY, T := IDENTITY], map[T := IDENTITY];
    assert s - {X} == one;
  }

  lemma NextOfSecond()
    ensures Next(map[T := IDENTITY], Some(T), HALFWAY) == Some((Known(IDENTITY), map[], LAST))
  {
    SecondSubstituted();
    var one, none: Bindings := map[T := IDENTITY], map[];
    assert one - {T} == none;
    assert Rest(HALFWAY) == Given(IDENTITY, IDENTITY, VarE(T1));
  }

  lemma Planned()
    ensures Plan(map[X := IDENTITY, T := IDENTITY], ArgNames(SIGNATURE.args), SIGNATURE)
         == Some([Known(IDENTITY), Known(IDENTITY), Open(P(CONSTANT))])
  {
    var ends, names := [None], [Some(T)] + [None];
    NextOfFirst();
    NextOfSecond();
    NamesOfSignature();
    assert ([Some(X)] + names)[1..] == names && names[1..] == ends;
    var none: seq<Slot> := [];
    var one := [Open(P(CONSTANT))] + none;
    var two := [Known(IDENTITY)] + one;
    PlanCons(map[], ends, LAST, Open(P(CONSTANT)), map[], Rest(LAST), none);
    PlanCons(map[T := IDENTITY], names, HALFWAY, Known(IDENTITY), map[], LAST, one);
    PlanCons(map[X := IDENTITY, T := IDENTITY], [Some(X)] + names, SIGNATURE, Known(IDENTITY), map[T := IDENTITY],
      HALFWAY, two);
    assert [Known(IDENTITY)] + two == [Known(IDENTITY), Known(IDENTITY), Open(P(CONSTANT))];
    assert ArgNames(SIGNATURE.args) == [Some(X)] + names;
  }

  lemma NamesOfSignature()
    ensures ArgNames(SIGNATURE.args) == [Some(X)] + ([Some(T)] + [None])
  {
    var t, rest := Rest(SIGNATURE), Given(VarE(X), VarE(X), VarE(T));
    assert t.args == SIGNATURE.args[1..] && rest.args == t.args[1..] && rest.args[1..] == [];
    assert ArgNames(rest.args) == [None];
    assert ArgNames(t.args) == [Some(T)] + [None];
  }

  // The type of the third argument once the first two are given, without names.
  function NP(u: NExpr): NExpr {
    NApp(false, NAtom(Global(None, "P")), [u])
  }

  lemma NPInst(us: seq<NExpr>, d: nat, u: NExpr)
    ensures NInst(us, d, NP(u)) == NP(NInst(us, d, u))
  {
    assert [u][0] == u && [u][1..] == [];
    assert NInstSeq(us, d, [u]) == [NInst(us, d, u)];
  }

  lemma NPNameless(a: Expr, sc: Scope)
    ensures ToNameless(P(a), sc) == NP(ToNameless(a, sc))
  {
    assert [a][0] == a && [a][1..] == [];
    assert ToNamelessSeq([a], sc) == [ToNameless(a, sc)];
  }

  lemma SignatureNameless()
    ensures var n := ToNamelessTele(SIGNATURE, []);
            && n.NArg? && n.rest.NArg? && n.rest.rest.NArg? && n.rest.rest.ty == NP(NBound(1))
  {
    var t, rest := Rest(SIGNATURE), Given(VarE(X), VarE(X), VarE(T));
    assert t == Cons(Arg(Many, BOOL, Some(T)), rest) && Rest(t) == rest;
    var one := Push(Some(X), []);
    var sc := Push(Some(T), one);
    assert Find(sc, X) == Some(1);
    NPNameless(VarE(X), sc);
    assert rest.args[0] == Arg(Many, P(VarE(X)), None);
    var third, second := ToNamelessTele(rest, sc), ToNamelessTele(t, one);
    assert third.NArg? && third.ty == NP(NBound(1));
    assert second == NArg(Many, ToNameless(BOOL, one), third);
    assert ToNamelessTele(SIGNATURE, []) == NArg(Many, ToNameless(BOOL, []), second);
  }

  /** What the dependent rule asks for: `f` takes a third argument of type `P(ID)` after `ID` and `ID`. */
  lemma AskedFor(j: Typing, r: Expr, ty: Expr)
    requires Takes(j, ToNamelessTele(SIGNATURE, []), [], [IDENTITY, IDENTITY, r], ty)
    ensures Inhabits(j, r, ToNameless(P(IDENTITY), []))
  {
    var n, u := ToNamelessTele(SIGNATURE, []), ToNameless(IDENTITY, []);
    SignatureNameless();
    NPNameless(IDENTITY, []);
    NPInst([u] + ([u] + []), 0, NBound(1));
    assert [IDENTITY, IDENTITY, r][1..] == [IDENTITY, r] && [IDENTITY, r][1..] == [r];
    assert Takes(j, n.rest, [u] + [], [IDENTITY, r], ty);
    assert Takes(j, n.rest.rest, [u] + ([u] + []), [r], ty);
  }

  /** With all indexes 0, for the target `Q(ID, ID)` the third argument of `f` is searched for at `P((t:1) -> ID)`. */
  lemma PlannedAtWrongType()
    ensures MaxIndexTele(SIGNATURE) == 0 && MaxIndex(Q(IDENTITY, IDENTITY)) == 0
    ensures PlanOf(CALLEE, Q(IDENTITY, IDENTITY)) == Some([Known(IDENTITY), Known(IDENTITY), Open(P(CONSTANT))])
    ensures !Same(P(CONSTANT), P(IDENTITY))
  {
    PiUnfolds(T, VarE(T));
    PiUnfolds(T1, IDENTITY);
    GivenIndex(VarE(X), VarE(X), VarE(T));
    GivenIndex(IDENTITY, IDENTITY, IDENTITY);
    Unified();
    Planned();
    assert SIGNATURE.end.ret == Q(VarE(X), VarE(T));
    Different();
  }

  lemma ErasePi(r: NExpr)
    ensures Erase(NBind(NArg(Many, NAtom(BoolT), NPiEnd(false, r))))
            == NBind(NArg(Many, NAtom(BoolT), NPiEnd(false, Erase(r))))
  {
    assert EraseTele(NPiEnd(false, r)) == NPiEnd(false, Erase(r));
    assert Erase(NAtom(BoolT)) == NAtom(BoolT);
  }

  lemma EraseNP(u: NExpr)
    ensures Erase(NP(u)) == NP(Erase(u))
  {
    assert [u][0] == u && [u][1..] == [];
  }

  lemma Different()
    ensures !Same(P(CONSTANT), P(IDENTITY))
  {
    var u, v, inner := ToNameless(CONSTANT, []), ToNameless(IDENTITY, []), ToNameless(IDENTITY, [Some(T1)]);
    PiUnfolds(T, VarE(T));
    PiUnfolds(T1, IDENTITY);
    NPNameless(CONSTANT, []);
    NPNameless(IDENTITY, []);
    EraseNP(u);
    EraseNP(v);
    ErasePi(inner);
    ErasePi(NBound(0));
    assert ToNameless(VarE(T), [Some(T)]) == NBound(0);
    assert inner.NBind? && Erase(inner).NBind?;
    assert [Erase(u)][0] == Erase(u) && [Erase(v)][0] == Erase(v);
  }

  // ---- types that are compared by name ----

  // (x, t : P(x)) -> Q(x, t)
  const DEPENDENT := Cons(Arg(Many, BOOL, Some(X)), Cons(Arg(Many, P(VarE(X)), Some(T)), Result(Q(VarE(X), VarE(T)))))
  const BY_NAME := Callee(Atom(Global(None, "g")), Axiom, DEPENDENT, (v, e) => true)
  const TRUE := Atom(BoolConst(true))
  const GIVEN := VarE(Var("y", 0, 0))

  lemma ResultSubst(x: Var, y: Expr, a: Expr, b: Expr)
    ensures SubstTele(x, y, Result(Q(a, b))) == Result(Q(Subst(x, y, a), Subst(x, y, b)))
  {
    SubstUnfolds(x, y, a, b);
  }

  lemma DependentNext()
    ensures Next(map[X := TRUE, T := GIVEN], Some(X), DEPENDENT)
         == Some((Known(TRUE), map[T := GIVEN], Cons(Arg(Many, P(TRUE), Some(T)), Result(Q(TRUE, VarE(T))))))
    ensures SubstOkTele(X, TRUE, Rest(DEPENDENT))
  {
    var s, left: Bindings := map[X := TRUE, T := GIVEN], map[T := GIVEN];
    var ret := Result(Q(VarE(X), VarE(T)));
    assert s - {X} == left;
    SubstUnfolds(X, TRUE, VarE(X), VarE(X));
    ResultSubst(X, TRUE, VarE(X), VarE(T));
    assert Rest(DEPENDENT) == Cons(Arg(Many, P(VarE(X)), Some(T)), ret) && Rest(Rest(DEPENDENT)) == ret;
    assert !OccursIn(T, TRUE, true);
    UnrenamedIsOkTele(Rest(DEPENDENT), X, TRUE);
  }

  lemma DependentLast()
    ensures var t := Cons(Arg(Many, P(TRUE), Some(T)), Result(Q(TRUE, VarE(T))));
            Next(map[T := GIVEN], Some(T), t) == Some((Known(GIVEN), map[], Result(Q(TRUE, GIVEN))))
            && SubstOkTele(T, GIVEN, Rest(t))
  {
    var left, none: Bindings := map[T := GIVEN], map[];
    var t := Cons(Arg(Many, P(TRUE), Some(T)), Result(Q(TRUE, VarE(T))));
    assert left - {T} == none;
    ResultSubst(T, GIVEN, TRUE, VarE(T));
    UnrenamedIsOkTele(Rest(t), T, GIVEN);
  }

  lemma UnifiedByName()
    ensures Unify(BY_NAME.sorts, Q(VarE(X), VarE(T)), Q(TRUE, GIVEN)) == Some(map[X := TRUE, T := GIVEN])
  {
    PairUnfolds(VarE(X), VarE(T));
    PairUnfolds(TRUE, GIVEN);
    var none: Bindings := map[];
    var one := none[X := TRUE];
    assert Match(BY_NAME.sorts, Q_NAME, Q_NAME, none) == Some(none);
    assert Match(BY_NAME.sorts, VarE(X), TRUE, none) == Some(one);
    assert MatchSeq(BY_NAME.sorts, [VarE(T)], [GIVEN], one) == Some(one[T := GIVEN]);
    assert MatchSeq(BY_NAME.sorts, [VarE(X), VarE(T)], [TRUE, GIVEN], none) == Some(one[T := GIVEN]);
  }

  /** Where `x` is also a variable of the context, `y : P(x)` is accepted for `t : P(x)` although `true` has been put in
      for the parameter `x`. No name is captured. */
  lemma ComparedByName()
    ensures PlanOf(BY_NAME, Q(TRUE, GIVEN)) == Some([Known(TRUE), Known(GIVEN)])
    ensures var s := Unify(BY_NAME.sorts, Q(VarE(X), VarE(T)), Q(TRUE, GIVEN)).value;
            PlanOk(s, ArgNames(DEPENDENT.args), DEPENDENT) && !Unmoved({X}, s, DEPENDENT.args)
  {
    var ends := [Some(T)];
    var s := map[X := TRUE, T := GIVEN];
    var last := Cons(Arg(Many, P(TRUE), Some(T)), Result(Q(TRUE, VarE(T))));
    UnifiedByName();
    DependentNext();
    DependentLast();
    assert Rest(DEPENDENT).args == DEPENDENT.args[1..] && Rest(DEPENDENT).args[1..] == [];
    assert ArgNames(DEPENDENT.args) == [Some(X)] + ends && ([Some(X)] + ends)[1..] == ends && ends[1..] == [];
    PlanCons(map[T := GIVEN], ends, last, Known(GIVEN), map[], Result(Q(TRUE, GIVEN)), []);
    PlanCons(s, [Some(X)] + ends, DEPENDENT, Known(TRUE), map[T := GIVEN], last, [Known(GIVEN)] + []);
    assert [Known(TRUE)] + ([Known(GIVEN)] + []) == [Known(TRUE), Known(GIVEN)];
    assert PlanOk(map[T := GIVEN], ends, last);
    assert DEPENDENT.args[1] == Arg(Many, P(VarE(X)), Some(T));
    assert [VarE(X)][0] == VarE(X) && OccursIn(X, P(VarE(X)), false);
  }

  /** The dependent rule asks for an argument of type `P(true)`. */
  lemma AskedByType(j: Typing, ty: Expr)
    requires Takes(j, ToNamelessTele(DEPENDENT, []), [], [TRUE, GIVEN], ty)
    ensures Inhabits(j, GIVEN, ToNameless(P(TRUE), []))
  {
    var rest, sc, u := Rest(DEPENDENT), Push(Some(X), []), ToNameless(TRUE, []);
    assert rest.args[0] == Arg(Many, P(VarE(X)), Some(T));
    NPNameless(VarE(X), sc);
    NPNameless(TRUE, []);
    assert Find(sc, X) == Some(0);
    var n := ToNamelessTele(DEPENDENT, []);
    assert n.rest == ToNamelessTele(rest, sc) && n.rest.NArg? && n.rest.ty == NP(NBound(0));
    NPInst([u] + [], 0, NBound(0));
    assert [TRUE, GIVEN][1..] == [GIVEN];
    assert Takes(j, n.rest, [u] + [], [GIVEN], ty);
  }

  // ---- a recursive function ----

  // (x, P(x)) -> Q(x, x), searched for in its own body, where `x` is a variable of the context
  const RECURSIVE := Cons(Arg(Many, BOOL, Some(X)), Given(VarE(X), VarE(X), VarE(X)))
  const ITSELF := Callee(Atom(Global(None, "h")), Function(false), RECURSIVE, (v, e) => true)
  const NEGATED := Node(Not, [VarE(X)])

  lemma NegatedUnfolds()
    ensures BindersOf(NEGATED) == {} && MaxIndex(NEGATED) == 0
    ensures forall v, all :: OccursIn(v, NEGATED, all) <==> v == X
  {
    SingleIndex(VarE(X));
    assert [VarE(X)][0] == VarE(X) && [VarE(X)][1..] == [];
    assert BindersOfSeq([VarE(X)]) == {};
    assert forall v, all :: OccursInSeq(v, [VarE(X)], all) <==> v == X;
  }

  lemma POccurs(a: Expr)
    ensures BindersOf(P(a)) == BindersOf(a) && forall v, all :: OccursIn(v, P(a), all) <==> OccursIn(v, a, all)
  {
    assert [a][0] == a && [a][1..] == [];
    assert BindersOf(P_NAME) == {} && BindersOfSeq([a]) == BindersOf(a);
    forall v, all ensures OccursIn(v, P(a), all) <==> OccursIn(v, a, all) {
      assert OccursInSeq(v, [a], all) <==> OccursIn(v, a, all);
    }
  }

  lemma PairOccurs(v: Var, a: Expr, b: Expr, all: bool)
    ensures OccursInSeq(v, [a, b], all) <==> OccursIn(v, a, all) || OccursIn(v, b, all)
  {
    PairUnfolds(a, b);
    assert OccursInSeq(v, [b], all) <==> OccursIn(v, b, all);
  }

  lemma PairBinders(a: Expr, b: Expr)
    ensures BindersOfSeq([a, b]) == BindersOf(a) + BindersOf(b)
  {
    PairUnfolds(a, b);
    assert BindersOfSeq([b]) == BindersOf(b);
  }

  lemma QOccurs(a: Expr, b: Expr)
    ensures BindersOf(Q(a, b)) == BindersOf(a) + BindersOf(b)
    ensures forall v, all :: OccursIn(v, Q(a, b), all) <==> OccursIn(v, a, all) || OccursIn(v, b, all)
  {
    PairBinders(a, b);
    assert BindersOf(Q_NAME) == {};
    forall v, all ensures OccursIn(v, Q(a, b), all) <==> OccursIn(v, a, all) || OccursIn(v, b, all) {
      PairOccurs(v, a, b, all);
    }
  }

  lemma RecursiveApart(params: set<Var>)
    requires params == {X}
    ensures Formed(ITSELF) && Apart(params, RECURSIVE) && UnindexedTypes(RECURSIVE.args) && PlainSorts({X}, RECURSIVE)
  {
    var x, rest := VarE(X), Given(VarE(X), VarE(X), VarE(X));
    POccurs(x);
    QOccurs(x, x);
    assert RECURSIVE.args == [Arg(Many, BOOL, Some(X)), Arg(Many, P(x), None)];
    assert Rest(RECURSIVE) == rest && Rest(rest) == Result(Q(x, x));
    assert Inside(Result(Q(x, x))) == {} && Inside(rest) == {} && Inside(RECURSIVE) == {};
    assert RECURSIVE.args[0].name == Some(X) && SameStem(X, X) && Stems(X, params);
    forall v | OccursIn(v, RECURSIVE.end.ret, false) ensures Bound(v, RECURSIVE.args) {
      assert v == X && RECURSIVE.args[0].name == Some(v);
    }
    forall v ensures !OccursInTele(v, Tele(RECURSIVE.args, SigmaEnd), false) {
      var sig := Tele(RECURSIVE.args, SigmaEnd);
      assert Rest(sig) == Tele([Arg(Many, P(x), None)], SigmaEnd) && Rest(Rest(sig)) == Tele([], SigmaEnd);
      assert OccursInTele(v, Rest(sig), false) <==> OccursIn(v, P(x), false);
    }
  }

  lemma ContextOfOne(locals: seq<Local>)
    requires |locals| == 1
    ensures Context(locals) == {locals[0].v}
  {
    assert Context(locals[1..]) == {};
  }

  /** The condition on names allows a parameter that is a variable of the context, and a target that mentions it. */
  lemma RecursiveSearch(w: World)
    requires w.locals == [Local(X, BOOL)] && w.callees == [ITSELF]
    ensures Fresh(w) && X in Context(w.locals) && X in Params(w.callees)
    ensures Clear(Params(w.callees), Q(NEGATED, NEGATED)) && OccursIn(X, Q(NEGATED, NEGATED), false)
  {
    NegatedUnfolds();
    QOccurs(NEGATED, NEGATED);
    assert w.locals[0] == Local(X, BOOL) && w.locals[1..] == [] && w.callees[1..] == [];
    assert RECURSIVE.args[0].name == Some(X) && RECURSIVE.args[1].name == None && RECURSIVE.args[1..][1..] == [];
    assert NamesIn(RECURSIVE.args[1..]) == {} && NamesIn(RECURSIVE.args) == {X};
    ContextOfOne(w.locals);
    assert Params(w.callees) == {X} && Context(w.locals) == {X};
    RecursiveApart({X});
  }

  lemma RecursiveUnified()
    ensures Unify(ITSELF.sorts, Q(VarE(X), VarE(X)), Q(NEGATED, NEGATED)) == Some(map[X := NEGATED])
  {
    var x := VarE(X);
    var none: Bindings := map[];
    var s := none[X := NEGATED];
    PairUnfolds(x, x);
    PairUnfolds(NEGATED, NEGATED);
    AlphaRefl(NEGATED);
    assert Match(ITSELF.sorts, Q_NAME, Q_NAME, none) == Some(none);
    assert Match(ITSELF.sorts, x, NEGATED, none) == Some(s) && Match(ITSELF.sorts, x, NEGATED, s) == Some(s);
    assert MatchSeq(ITSELF.sorts, [x], [NEGATED], s) == Some(s);
    assert MatchSeq(ITSELF.sorts, [x, x], [NEGATED, NEGATED], none) == Some(s);
  }

  lemma RecursiveNext()
    ensures Next(map[X := NEGATED], Some(X), RECURSIVE)
         == Some((Known(NEGATED), map[], Given(NEGATED, NEGATED, NEGATED)))
  {
    var x := VarE(X);
    var s, none: Bindings := map[X := NEGATED], map[];
    assert s - {X} == none && Rest(RECURSIVE) == Given(x, x, x);
    GivenSubst(X, NEGATED, x, x, x);
  }

  lemma RecursiveNames()
    ensures ArgNames(RECURSIVE.args) == [Some(X)] + [None]
  {
    var rest := Given(VarE(X), VarE(X), VarE(X));
    assert RECURSIVE.args[1..] == rest.args && rest.args[1..] == [];
    assert ArgNames(rest.args) == [None];
  }

  /** The call planned passes on what the target says, and leaves the proof for the new argument to be searched for. */
  lemma RecursivePlan()
    ensures PlanOf(ITSELF, Q(NEGATED, NEGATED)) == Some([Known(NEGATED), Open(P(NEGATED))])
  {
    var ends: seq<Option<Var>> := [None];
    var last, open := Given(NEGATED, NEGATED, NEGATED), [Open(P(NEGATED))];
    RecursiveUnified();
    RecursiveNext();
    RecursiveNames();
    assert ([Some(X)] + ends)[1..] == ends && ends[1..] == [] && open + [] == open;
    PlanCons(map[], ends, last, Open(P(NEGATED)), map[], Rest(last), []);
    PlanCons(map[X := NEGATED], [Some(X)] + ends, RECURSIVE, Known(NEGATED), map[], last, open);
    assert [Known(NEGATED)] + open == [Known(NEGATED), Open(P(NEGATED))];
    assert RECURSIVE.end.ret == Q(VarE(X), VarE(X));
  }
}
