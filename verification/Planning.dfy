/** How the search plans an application: the return type of a function is matched against the target, the arguments
    found are substituted one after the other in the types that follow, and what no later argument depends on is left
    open.

    Each substitution is right if and only if every name chosen on the way is fine; if all are, the plan is right by the
    dependent rule of application. That can fail (see `SearchLimits`); `PlanNames` says what guarantees it. */
module Planning {
  import opened Ast
  import opened Binders
  import opened Nameless
  import opened Substitution
  import opened NamesApart
  import opened AlphaEquivalence
  import opened Unification

  // An argument found by unification, or one that is irrelevant and has to be searched for.
  datatype Slot = Known(value: Expr) | Open(ty: Expr)

  // `sorts` compares the declared type of a parameter with the type of a term matched against it.
  datatype CalleeKind = Axiom | Extern | Function(isMutable: bool)
  datatype Callee = Callee(name: Expr, kind: CalleeKind, pi: Tele, sorts: SortsAgree)

  // Nothing that follows depends on this argument.
  predicate Irrelevant(name: Option<Var>, rest: Tele) {
    name.None? || !OccursInTele(name.value, Tele(rest.args, SigmaEnd), false)
  }

  // The arguments of an application that would have the target type.
  function Plan(s: Bindings, names: seq<Option<Var>>, t: Tele): Option<seq<Slot>>
    requires |names| == |t.args|
    decreases |t.args|
  {
    if t.args == [] then Some([])
    else
      var next := Next(s, names[0], t);
      if next.None? then None
      else After([next.value.0], Plan(next.value.1, names[1..], next.value.2))
  }

  function Next(s: Bindings, name: Option<Var>, t: Tele): (r: Option<(Slot, Bindings, Tele)>)
    requires t.args != []
    ensures r.Some? ==> |r.value.2.args| == |t.args| - 1
  {
    var a, rest := t.args[0], Rest(t);
    if name.Some? && a.name.Some? && name.value in s then
      Some((Known(s[name.value]), s - {name.value}, SubstTele(a.name.value, s[name.value], rest)))
    else if Irrelevant(a.name, rest) then Some((Open(a.ty), s, rest))
    else None
  }

  function After(done: seq<Slot>, tail: Option<seq<Slot>>): Option<seq<Slot>> {
    match tail case None => None case Some(slots) => Some(done + slots)
  }

  function ArgNames(args: seq<Arg>): (r: seq<Option<Var>>)
    ensures |r| == |args|
  {
    if args == [] then [] else [args[0].name] + ArgNames(args[1..])
  }

  function PlanOf(c: Callee, target: Expr): Option<seq<Slot>> {
    if !c.pi.end.PiEnd? then None
    else match Unify(c.sorts, c.pi.end.ret, target)
         case None => None
         case Some(s) => Plan(s, ArgNames(c.pi.args), c.pi)
  }

  function Applied(c: Callee, args: seq<Expr>): Expr {
    App(c.kind.Extern? || c.kind == Function(true), c.name, args)
  }

  // ---- the names chosen on the way ----

  // Every substitution that the plan makes is fine.
  ghost predicate PlanOk(s: Bindings, names: seq<Option<Var>>, t: Tele)
    requires |names| == |t.args|
    decreases |t.args|
  {
    t.args != [] && Next(s, names[0], t).Some? ==>
      var next := Next(s, names[0], t).value;
      && (next.0.Known? ==> SubstOkTele(t.args[0].name.value, next.0.value, Rest(t)))
      && PlanOk(next.1, names[1..], next.2)
  }

  // Each substitution in turn does what instantiating its binder does.
  ghost predicate EachPlanned(s: Bindings, names: seq<Option<Var>>, t: Tele)
    requires |names| == |t.args|
    decreases |t.args|
  {
    t.args != [] && Next(s, names[0], t).Some? ==>
      var next := Next(s, names[0], t).value;
      && (next.0.Known? ==>
            ToNamelessTele(next.2, [])
            == NInstTele([ToNameless(next.0.value, [])], 0, ToNamelessTele(Rest(t), Push(t.args[0].name, []))))
      && EachPlanned(next.1, names[1..], next.2)
  }

  /** The substitutions of a plan are all right if and only if every name chosen on the way is fine. */
  lemma {:induction false} PlanStepsExact(s: Bindings, names: seq<Option<Var>>, t: Tele)
    requires |names| == |t.args|
    ensures EachPlanned(s, names, t) <==> PlanOk(s, names, t)
    decreases |t.args|
  {
    if t.args != [] && Next(s, names[0], t).Some? {
      var next := Next(s, names[0], t).value;
      if next.0.Known? {
        var x, u := t.args[0].name, ToNameless(next.0.value, []);
        NamelessIsClosed(next.0.value, []);
        SubstIsInstTele(Rest(t), x, u, []);
        assert [] + [x] == Push(x, []);
        SubstitutionTheoremTele(x.value, next.0.value, Rest(t));
      }
      PlanStepsExact(next.1, names[1..], next.2);
    }
  }

  // ---- what the typing of terms has to satisfy ----

  // Which types a term has, and which types are interchangeable.
  datatype Typing = Typing(has: (Expr, Expr) -> bool, conv: (Expr, Expr) -> bool)

  // `b` is `a` with terms put in for the variables of a scope, all at once.
  ghost predicate Instance(sc: Scope, us: seq<NExpr>, a: Expr, b: Expr) {
    |us| == |sc| && NClosedSeq(0, us) && ToNameless(b, []) == NInst(us, 0, ToNameless(a, sc))
  }

  // Terms may be converted; types that are the same up to alpha are interchangeable, and so are instances of such
  // types.
  ghost predicate Conversion(j: Typing) {
    && (forall e, k, ty :: j.conv(k, ty) && j.has(e, k) ==> j.has(e, ty))
    && (forall a, b :: Same(a, b) ==> j.conv(a, b))
    && (forall sc, us, a, b, c, d :: j.conv(a, b) && Instance(sc, us, a, c) && Instance(sc, us, b, d) ==> j.conv(c, d))
  }

  ghost predicate Inhabits(j: Typing, e: Expr, n: NExpr) {
    exists k :: ToNameless(k, []) == n && j.has(e, k)
  }

  // Each argument has the type it should have after the arguments `us` before it, innermost first, and so has the
  // application, up to what alpha-equivalence ignores.
  ghost predicate Takes(j: Typing, t: NTele, us: seq<NExpr>, args: seq<Expr>, ty: Expr)
    decreases t
  {
    match t
    case NArg(_, a, rest) =>
      && args != [] && Inhabits(j, args[0], NInst(us, 0, a))
      && Takes(j, rest, [ToNameless(args[0], [])] + us, args[1..], ty)
    case NPiEnd(_, r) => args == [] && Erase(ToNameless(ty, [])) == Erase(NInst(us, 0, r))
    case _ => false
  }

  // The dependent rule of application.
  ghost predicate Applies(j: Typing, c: Callee) {
    forall args, ty :: Takes(j, ToNamelessTele(c.pi, []), [], args, ty) ==> j.has(Applied(c, args), ty)
  }

  // The term has a type, over the variables of the context alone, that converts to the given one.
  ghost predicate OfSort(j: Typing, context: set<Var>, e: Expr, ty: Expr) {
    exists k :: j.has(e, k) && j.conv(k, ty) && forall v :: OccursIn(v, k, false) ==> v in context
  }

  // Comparing the declared type of a parameter with the type of a term is right, by the names that both mention.
  ghost predicate ComparesSorts(j: Typing, context: set<Var>, c: Callee) {
    forall i, e :: 0 <= i < |c.pi.args| && c.pi.args[i].name.Some? && c.sorts(c.pi.args[i].name.value, e) ==>
      OfSort(j, context, e, c.pi.args[i].ty)
  }

  ghost predicate Filled(j: Typing, slots: seq<Slot>, args: seq<Expr>) {
    && |args| == |slots|
    && forall i :: 0 <= i < |args| ==> match slots[i] case Known(v) => args[i] == v case Open(ty) => j.has(args[i], ty)
  }

  predicate DistinctNames(args: seq<Arg>) {
    forall i, k :: 0 <= i < k < |args| && args[i].name.Some? ==> args[i].name != args[k].name
  }

  // What checking a signature guarantees.
  ghost predicate Formed(c: Callee) {
    c.pi.end.PiEnd? ==>
      && DistinctNames(c.pi.args)
      && (forall v :: OccursIn(v, c.pi.end.ret, false) ==> Bound(v, c.pi.args))
  }

  // The type of a parameter that was matched was compared by name. So where it mentions an earlier parameter that is
  // named like a variable of the context, that parameter has to stand for this variable.
  ghost predicate Unmoved(context: set<Var>, s: Bindings, args: seq<Arg>) {
    forall i, q | 0 <= i < |args| && args[i].name.Some? && args[i].name.value in s && q in context ::
      OccursIn(q, args[i].ty, false) ==> q in s && s[q] == VarE(q)
  }

  // What has to be checked of a plan: names are fine, and sorts were compared as they are meant.
  ghost predicate Fine(context: set<Var>, c: Callee, target: Expr) {
    PlanOf(c, target).Some? ==>
      var s := Unify(c.sorts, c.pi.end.ret, target).value;
      PlanOk(s, ArgNames(c.pi.args), c.pi) && Unmoved(context, s, c.pi.args)
  }

  // ---- what matching finds ----

  predicate Part(e: Expr, to: Expr)
    decreases to, 1
  {
    || e == to
    || match to
       case Node(_, es) => PartSeq(e, es)
       case App(_, f, es) => Part(e, f) || PartSeq(e, es)
       case Because(v, _) => Part(e, v)
       case _ => false
  }

  predicate PartSeq(e: Expr, es: seq<Expr>)
    decreases es, 0
  {
    es != [] && (Part(e, es[0]) || PartSeq(e, es[1..]))
  }

  // Patterns bind nothing, except in reasons, which are not matched.
  predicate Pattern(e: Expr)
    decreases e, 1
  {
    match e
    case Atom(_) => true
    case VarE(_) => true
    case Node(_, es) => PatternSeq(es)
    case App(_, f, es) => Pattern(f) && PatternSeq(es)
    case Because(v, _) => Pattern(v)
    case Bind(_) => false
  }

  predicate PatternSeq(es: seq<Expr>)
    decreases es, 0
  {
    es != [] ==> Pattern(es[0]) && PatternSeq(es[1..])
  }

  // A variable of the pattern, outside reasons.
  predicate Asks(v: Var, e: Expr)
    decreases e, 1
  {
    match e
    case Atom(_) => false
    case VarE(u) => u == v
    case Node(_, es) => AsksSeq(v, es)
    case App(_, f, es) => Asks(v, f) || AsksSeq(v, es)
    case Because(x, _) => Asks(v, x)
    case Bind(_) => false
  }

  predicate AsksSeq(v: Var, es: seq<Expr>)
    decreases es, 0
  {
    es != [] && (Asks(v, es[0]) || AsksSeq(v, es[1..]))
  }

  lemma {:induction false} AskedIsFree(v: Var, e: Expr)
    ensures Asks(v, e) ==> OccursIn(v, e, false)
    decreases e, 1
  {
    match e
    case Atom(_) =>
    case VarE(_) =>
    case Node(_, es) => AskedIsFreeSeq(v, es);
    case App(_, f, es) => AskedIsFree(v, f); AskedIsFreeSeq(v, es);
    case Because(x, _) => AskedIsFree(v, x);
    case Bind(_) =>
  }

  lemma {:induction false} AskedIsFreeSeq(v: Var, es: seq<Expr>)
    ensures AsksSeq(v, es) ==> OccursInSeq(v, es, false)
    decreases es, 0
  {
    if es != [] { AskedIsFree(v, es[0]); AskedIsFreeSeq(v, es[1..]); }
  }

  // Exactly the variables of the pattern are bound, to parts of the term whose sorts agree.
  lemma {:induction false} MatchFinds(sorts: SortsAgree, from: Expr, to: Expr, result: Bindings)
    requires Match(sorts, from, to, result).Some?
    ensures var r := Match(sorts, from, to, result).value;
            && Pattern(from) && Extends(r, result)
            && (forall v :: v in r <==> v in result || Asks(v, from))
            && (forall v :: v in r && v !in result ==> Part(r[v], to) && sorts(v, r[v]))
    decreases from, 1
  {
    match (from, to)
    case (VarE(_), _) =>
    case (Atom(_), Atom(_)) =>
    case (Node(_, es), Node(_, fs)) => MatchFindsSeq(sorts, es, fs, result);
    case (App(_, f, es), App(_, g, fs)) =>
      MatchFinds(sorts, f, g, result);
      MatchFindsSeq(sorts, es, fs, Match(sorts, f, g, result).value);
    case (Because(v, _), Because(w, _)) => MatchFinds(sorts, v, w, result);
  }

  lemma {:induction false} MatchFindsSeq(sorts: SortsAgree, es: seq<Expr>, fs: seq<Expr>, result: Bindings)
    requires |es| == |fs| && MatchSeq(sorts, es, fs, result).Some?
    ensures var r := MatchSeq(sorts, es, fs, result).value;
            && PatternSeq(es) && Extends(r, result)
            && (forall v :: v in r <==> v in result || AsksSeq(v, es))
            && (forall v :: v in r && v !in result ==> PartSeq(r[v], fs) && sorts(v, r[v]))
    decreases es, 0
  {
    if es != [] {
      MatchFinds(sorts, es[0], fs[0], result);
      MatchFindsSeq(sorts, es[1..], fs[1..], Match(sorts, es[0], fs[0], result).value);
    }
  }

  // Whatever is put in for the variables of a pattern is found again, reasons or not.
  lemma {:induction false} MatchInstance(sorts: SortsAgree, from: Expr, m: Bindings, result: Bindings)
    requires Pattern(from) && Extends(m, result) && forall v :: Asks(v, from) ==> v in m && sorts(v, m[v])
    ensures var r := Match(sorts, from, Apply(m, from), result); r.Some? && Extends(m, r.value)
    decreases from, 1
  {
    match from
    case Atom(_) =>
    case VarE(v) => assert Asks(v, from); AlphaRefl(m[v]);
    case Node(_, es) => MatchInstanceSeq(sorts, es, m, result);
    case App(_, f, es) =>
      MatchInstance(sorts, f, m, result);
      MatchInstanceSeq(sorts, es, m, Match(sorts, f, Apply(m, f), result).value);
    case Because(v, _) => MatchInstance(sorts, v, m, result);
  }

  lemma {:induction false} MatchInstanceSeq(sorts: SortsAgree, es: seq<Expr>, m: Bindings, result: Bindings)
    requires PatternSeq(es) && Extends(m, result) && forall v :: AsksSeq(v, es) ==> v in m && sorts(v, m[v])
    ensures var r := MatchSeq(sorts, es, ApplySeq(m, es), result); r.Some? && Extends(m, r.value)
    decreases es, 0
  {
    if es != [] {
      MatchInstance(sorts, es[0], m, result);
      assert ApplySeq(m, es)[1..] == ApplySeq(m, es[1..]);
      MatchInstanceSeq(sorts, es[1..], m, Match(sorts, es[0], Apply(m, es[0]), result).value);
    }
  }

  /** An instance of a pattern matches it, and what is found is what was put in. */
  lemma UnifyInstance(sorts: SortsAgree, from: Expr, m: Bindings)
    requires Pattern(from) && forall v :: Asks(v, from) ==> v in m && sorts(v, m[v])
    ensures var r := Unify(sorts, from, Apply(m, from));
            r.Some? && forall v :: v in r.value <==> Asks(v, from)
    ensures var r := Unify(sorts, from, Apply(m, from)); forall v :: Asks(v, from) ==> r.value[v] == m[v]
  {
    MatchInstance(sorts, from, m, map[]);
    MatchFinds(sorts, from, Apply(m, from), map[]);
  }

  // What unification makes of a pattern is what instantiating its variables makes of it.
  lemma {:induction false} PatternInst(s: Bindings, sc: Scope, us: seq<NExpr>, e: Expr)
    requires Pattern(e) && |us| == |sc| && forall v :: Asks(v, e) ==> Stands(s, sc, us, v)
    ensures Erase(ToNameless(Apply(s, e), [])) == Erase(NInst(us, 0, ToNameless(e, sc)))
    decreases e, 1
  {
    match e
    case Atom(_) =>
    case VarE(v) => assert Asks(v, e);
    case Node(_, es) => PatternInstSeq(s, sc, us, es);
    case App(_, f, es) => PatternInst(s, sc, us, f); PatternInstSeq(s, sc, us, es);
    case Because(v, _) => PatternInst(s, sc, us, v);
  }

  lemma {:induction false} PatternInstSeq(s: Bindings, sc: Scope, us: seq<NExpr>, es: seq<Expr>)
    requires PatternSeq(es) && |us| == |sc| && forall v :: AsksSeq(v, es) ==> Stands(s, sc, us, v)
    ensures EraseSeq(ToNamelessSeq(ApplySeq(s, es), [])) == EraseSeq(NInstSeq(us, 0, ToNamelessSeq(es, sc)))
    decreases es, 0
  {
    if es != [] {
      PatternInst(s, sc, us, es[0]);
      PatternInstSeq(s, sc, us, es[1..]);
      assert ApplySeq(s, es)[1..] == ApplySeq(s, es[1..]);
      EraseStep(ToNameless(Apply(s, es[0]), []), ToNamelessSeq(ApplySeq(s, es[1..]), []));
      EraseStep(NInst(us, 0, ToNameless(es[0], sc)), NInstSeq(us, 0, ToNamelessSeq(es[1..], sc)));
    }
  }

  // A variable of the scope stands for what was matched against it.
  ghost predicate Stands(s: Bindings, sc: Scope, us: seq<NExpr>, v: Var) {
    var i := Find(sc, v);
    v in s && i.Some? && i.value < |us| && us[i.value] == ToNameless(s[v], [])
  }

  // ---- telescopes up to their end ----

  function NSig(t: NTele): NTele {
    match t
    case NArg(q, ty, rest) => NArg(q, ty, NSig(rest))
    case _ => NSigmaEnd
  }

  lemma {:induction false} SigNameless(t: Tele, sc: Scope)
    ensures NSig(ToNamelessTele(t, sc)) == ToNamelessTele(Tele(t.args, SigmaEnd), sc)
    decreases |t.args|
  {
    if t.args != [] {
      SigNameless(Rest(t), Push(t.args[0].name, sc));
      assert Rest(Tele(t.args, SigmaEnd)) == Tele(Rest(t).args, SigmaEnd);
    }
  }

  lemma {:induction false} SigInst(us: seq<NExpr>, d: nat, t: NTele)
    ensures NSig(NInstTele(us, d, t)) == NInstTele(us, d, NSig(t))
    decreases t
  {
    if t.NArg? { SigInst(us, d + 1, t.rest); }
  }

  // Leaving out what does not occur instantiates its binder, with anything.
  lemma SkipSig(name: Option<Var>, rest: Tele, r: Expr)
    requires Irrelevant(name, rest)
    ensures NSig(ToNamelessTele(rest, []))
         == NInstTele([ToNameless(r, [])], 0, NSig(ToNamelessTele(rest, Push(name, []))))
  {
    var sig, u := Tele(rest.args, SigmaEnd), ToNameless(r, []);
    SigNameless(rest, []);
    SigNameless(rest, Push(name, []));
    NamelessIsClosed(r, []);
    SubstIsInstTele(sig, name, u, []);
    assert [] + [name] == Push(name, []);
    if name.Some? {
      FreeNamelessTele(sig, name.value, []);
      NSubstAbsentTele(ToNamelessTele(sig, []), name.value, u);
    }
  }

  // So does substituting.
  lemma NextSig(s: Bindings, name: Option<Var>, t: Tele, r: Expr)
    requires t.args != [] && Next(s, name, t).Some?
    requires var slot := Next(s, name, t).value.0;
             slot.Known? ==> r == slot.value && SubstOkTele(t.args[0].name.value, r, Rest(t))
    ensures NSig(ToNamelessTele(Next(s, name, t).value.2, []))
         == NInstTele([ToNameless(r, [])], 0, NSig(ToNamelessTele(Rest(t), Push(t.args[0].name, []))))
  {
    var next := Next(s, name, t).value;
    if next.0.Known? {
      BetaStep(t.args[0].name, r, Rest(t));
      SigInst([ToNameless(r, [])], 0, ToNamelessTele(Rest(t), Push(t.args[0].name, [])));
    } else {
      SkipSig(t.args[0].name, Rest(t), r);
    }
  }

  // ---- scopes that are read alike ----

  // Instantiated, the variable is the same in both scopes: the second leaves it free where it stands for itself.
  ghost predicate ReadsAlike(us: seq<NExpr>, d: nat, sc: Scope, sd: Scope, v: Var) {
    var i := Find(sc, v);
    || i == Find(sd, v)
    || (Find(sd, v).None? && i.Some? && d <= i.value < d + |us| && us[i.value - d] == NFree(v))
  }

  lemma {:induction false} SameInst(e: Expr, us: seq<NExpr>, d: nat, sc: Scope, sd: Scope)
    requires forall v :: OccursIn(v, e, false) ==> ReadsAlike(us, d, sc, sd, v)
    ensures NInst(us, d, ToNameless(e, sc)) == NInst(us, d, ToNameless(e, sd))
    decreases Size(e), 0
  {
    match e
    case Atom(_) =>
    case VarE(v) => assert OccursIn(v, e, false);
    case Node(_, es) => SameInstSeq(es, us, d, sc, sd);
    case App(_, f, es) => SameInst(f, us, d, sc, sd); SameInstSeq(es, us, d, sc, sd);
    case Because(v, r) => SameInst(v, us, d, sc, sd); SameInst(r, us, d, sc, sd);
    case Bind(t) => SameInstTele(t, us, d, sc, sd);
  }

  lemma {:induction false} SameInstSeq(es: seq<Expr>, us: seq<NExpr>, d: nat, sc: Scope, sd: Scope)
    requires forall v :: OccursInSeq(v, es, false) ==> ReadsAlike(us, d, sc, sd, v)
    ensures NInstSeq(us, d, ToNamelessSeq(es, sc)) == NInstSeq(us, d, ToNamelessSeq(es, sd))
    decreases SizeSeq(es), 1
  {
    if es != [] {
      SameInst(es[0], us, d, sc, sd);
      SameInstSeq(es[1..], us, d, sc, sd);
    }
  }

  lemma {:induction false} SameInstTele(t: Tele, us: seq<NExpr>, d: nat, sc: Scope, sd: Scope)
    requires forall v :: OccursInTele(v, t, false) ==> ReadsAlike(us, d, sc, sd, v)
    ensures NInstTele(us, d, ToNamelessTele(t, sc)) == NInstTele(us, d, ToNamelessTele(t, sd))
    decreases SizeTele(t), 1
  {
    if t.args == [] {
      match t.end
      case SigmaEnd =>
      case PiEnd(_, r) => SameInst(r, us, d, sc, sd);
      case AbsEnd(_, r, b) => SameInst(r, us, d, sc, sd); SameInstStmts(b.stmts, us, d, sc, sd);
    } else {
      var a, rest := t.args[0], Rest(t);
      SameInst(a.ty, us, d, sc, sd);
      forall v | OccursInTele(v, rest, false) ensures ReadsAlike(us, d + 1, Push(a.name, sc), Push(a.name, sd), v) {
        assert a.name != Some(v) ==> OccursInTele(v, t, false);
      }
      SameInstTele(rest, us, d + 1, Push(a.name, sc), Push(a.name, sd));
    }
  }

  lemma {:induction false} SameInstStmts(ss: seq<Stmt>, us: seq<NExpr>, d: nat, sc: Scope, sd: Scope)
    requires forall v :: OccursInStmts(v, ss, false) ==> ReadsAlike(us, d, sc, sd, v)
    ensures NInstStmts(us, d, ToNamelessStmts(ss, sc)) == NInstStmts(us, d, ToNamelessStmts(ss, sd))
    decreases SizeStmts(ss), 1
  {
    if ss != [] {
      SameInstStmt(ss[0], us, d, sc, sd);
      SameInstStmts(ss[1..], us, d, sc, sd);
    }
  }

  lemma {:induction false} SameInstStmt(s: Stmt, us: seq<NExpr>, d: nat, sc: Scope, sd: Scope)
    requires forall v :: OccursInStmt(v, s, false) ==> ReadsAlike(us, d, sc, sd, v)
    ensures NInstStmt(us, d, ToNamelessStmt(s, sc)) == NInstStmt(us, d, ToNamelessStmt(s, sd))
    decreases SizeStmt(s), 0
  {
    match s
    case Call(_, f, es) => SameInst(f, us, d, sc, sd); SameInstSeq(es, us, d, sc, sd);
    case IfElse(c, t, e) =>
      SameInst(c, us, d, sc, sd);
      SameInstStmts(t.stmts, us, d, sc, sd);
      if e.Some? { SameInstStmts(e.value.stmts, us, d, sc, sd); }
    case Return(e) => if e.Some? { SameInst(e.value, us, d, sc, sd); }
    case Impossible(e) => if e.Some? { SameInst(e.value, us, d, sc, sd); }
  }

  // The scope without the names that the context has, too.
  function Hide(context: set<Var>, sc: Scope): (r: Scope)
    ensures |r| == |sc|
    ensures forall v :: Find(r, v) == if v in context then None else Find(sc, v)
  {
    if sc == [] then []
    else
      var rest := Hide(context, sc[1..]);
      var name := if sc[0].Some? && sc[0].value in context then None else sc[0];
      assert forall v :: Find(Push(name, rest), v) == if v in context then None else Find(sc, v);
      Push(name, rest)
  }

  // ---- a plan that has been filled ----

  // On the way through the arguments: `all` is what unification found, `s` what is left of it, `pi` the declared
  // signature below the parameters `sc` seen so far, for which `us` have been put in, and `t` what has become of it.
  ghost predicate Stage(all: Bindings, s: Bindings, pi: Tele, sc: Scope, us: seq<NExpr>, t: Tele) {
    && |us| == |sc| && NClosedSeq(0, us)
    && NSig(ToNamelessTele(t, [])) == NInstTele(us, 0, NSig(ToNamelessTele(pi, sc)))
    && Named(pi.args, t.args) && NewNames(pi.args, sc) && Left(all, s, sc, us)
  }

  // The same arguments are named.
  predicate Named(args: seq<Arg>, now: seq<Arg>) {
    |now| == |args| && forall i :: 0 <= i < |args| ==> now[i].name.Some? == args[i].name.Some?
  }

  predicate NewNames(args: seq<Arg>, sc: Scope) {
    DistinctNames(args) && forall i :: 0 <= i < |args| && args[i].name.Some? ==> Find(sc, args[i].name.value).None?
  }

  ghost predicate Left(all: Bindings, s: Bindings, sc: Scope, us: seq<NExpr>) {
    && (forall v :: v in s <==> v in all && Find(sc, v).None?) && Extends(all, s)
    && (forall v :: v in all && Find(sc, v).Some? ==> Stands(all, sc, us, v))
  }

  // The first argument, as it was declared and as it has become.
  lemma HeadOfStage(all: Bindings, s: Bindings, pi: Tele, sc: Scope, us: seq<NExpr>, t: Tele)
    requires Stage(all, s, pi, sc, us, t) && pi.args != []
    ensures ToNameless(t.args[0].ty, []) == NInst(us, 0, ToNameless(pi.args[0].ty, sc))
    ensures NSig(ToNamelessTele(Rest(t), Push(t.args[0].name, [])))
         == NInstTele(us, 1, NSig(ToNamelessTele(Rest(pi), Push(pi.args[0].name, sc))))
  {
    var a, b := ToNamelessTele(t, []), ToNamelessTele(pi, sc);
    assert NSig(a) == NArg(a.qty, a.ty, NSig(a.rest)) && NSig(b) == NArg(b.qty, b.ty, NSig(b.rest));
  }

  lemma SigNext(all: Bindings, s: Bindings, pi: Tele, sc: Scope, us: seq<NExpr>, t: Tele, r: Expr)
    requires Stage(all, s, pi, sc, us, t) && pi.args != [] && Next(s, pi.args[0].name, t).Some?
    requires var slot := Next(s, pi.args[0].name, t).value.0;
             slot.Known? ==> r == slot.value && SubstOkTele(t.args[0].name.value, r, Rest(t))
    ensures NSig(ToNamelessTele(Next(s, pi.args[0].name, t).value.2, []))
         == NInstTele([ToNameless(r, [])] + us, 0, NSig(ToNamelessTele(Rest(pi), Push(pi.args[0].name, sc))))
  {
    HeadOfStage(all, s, pi, sc, us, t);
    NextSig(s, pi.args[0].name, t, r);
    InstFusesTele(NSig(ToNamelessTele(Rest(pi), Push(pi.args[0].name, sc))), [ToNameless(r, [])], us, 0);
  }

  lemma LeftNext(all: Bindings, s: Bindings, args: seq<Arg>, sc: Scope, us: seq<NExpr>, r: Expr)
    requires |us| == |sc| && args != [] && NewNames(args, sc) && Left(all, s, sc, us)
    requires args[0].name.Some? && args[0].name.value in s ==> r == s[args[0].name.value]
    ensures NewNames(args[1..], Push(args[0].name, sc))
    ensures var left := if args[0].name.Some? then s - {args[0].name.value} else s;
            Left(all, left, Push(args[0].name, sc), [ToNameless(r, [])] + us)
  {
    var name := args[0].name;
    assert forall i :: 0 <= i < |args[1..]| ==> args[1..][i] == args[i + 1];
    forall v | v in all && Find(Push(name, sc), v).Some?
      ensures Stands(all, Push(name, sc), [ToNameless(r, [])] + us, v)
    {
      if name != Some(v) { assert Stands(all, sc, us, v); }
    }
  }

  lemma NextStage(all: Bindings, s: Bindings, pi: Tele, sc: Scope, us: seq<NExpr>, t: Tele, r: Expr)
    requires Stage(all, s, pi, sc, us, t) && pi.args != [] && Next(s, pi.args[0].name, t).Some?
    requires var slot := Next(s, pi.args[0].name, t).value.0;
             slot.Known? ==> r == slot.value && SubstOkTele(t.args[0].name.value, r, Rest(t))
    ensures var next := Next(s, pi.args[0].name, t).value;
            Stage(all, next.1, Rest(pi), Push(pi.args[0].name, sc), [ToNameless(r, [])] + us, next.2)
  {
    var name, next, vs := pi.args[0].name, Next(s, pi.args[0].name, t).value, [ToNameless(r, [])] + us;
    SigNext(all, s, pi, sc, us, t, r);
    LeftNext(all, s, pi.args, sc, us, r);
    NamelessIsClosed(r, []);
    assert vs[1..] == us && (name.Some? && name.value !in s ==> s - {name.value} == s);
    assert Named(Rest(pi).args, Rest(t).args);
    if next.0.Known? { SubstNames(t.args[0].name.value, r, Rest(t)); }
  }

  // What is matched has the declared types.
  ghost predicate Sorted(j: Typing, context: set<Var>, s: Bindings, args: seq<Arg>) {
    forall i :: 0 <= i < |args| && args[i].name.Some? && args[i].name.value in s ==>
      OfSort(j, context, s[args[i].name.value], args[i].ty)
  }

  // A term that was compared with the declared type has the type that this has become.
  lemma KnownInhabits(j: Typing, context: set<Var>, all: Bindings, s: Bindings, pi: Tele, sc: Scope, us: seq<NExpr>,
        t: Tele)
    requires Conversion(j) && Stage(all, s, pi, sc, us, t) && pi.args != []
    requires Sorted(j, context, all, pi.args) && Unmoved(context, all, pi.args)
    requires pi.args[0].name.Some? && pi.args[0].name.value in s
    ensures Inhabits(j, s[pi.args[0].name.value], NInst(us, 0, ToNameless(pi.args[0].ty, sc)))
  {
    var e, ty, sd := s[pi.args[0].name.value], pi.args[0].ty, Hide(context, sc);
    var k :| j.has(e, k) && j.conv(k, ty) && forall v :: OccursIn(v, k, false) ==> v in context;
    Coincidence(k, sd, []);
    NamelessIsClosed(k, []);
    InstClosed(ToNameless(k, []), us, 0);
    forall v | OccursIn(v, ty, false) ensures ReadsAlike(us, 0, sc, sd, v) {
      if v in context && Find(sc, v).Some? { assert Stands(all, sc, us, v) && all[v] == VarE(v); }
    }
    SameInst(ty, us, 0, sc, sd);
    HeadOfStage(all, s, pi, sc, us, t);
    assert Instance(sd, us, k, k) && Instance(sd, us, ty, t.args[0].ty);
    assert j.has(e, t.args[0].ty);
  }

  lemma FilledNext(j: Typing, s: Bindings, names: seq<Option<Var>>, t: Tele, slots: seq<Slot>, args: seq<Expr>)
    requires |names| == |t.args| > 0 && Plan(s, names, t) == Some(slots) && Filled(j, slots, args)
    ensures Next(s, names[0], t).Some?
    ensures var next := Next(s, names[0], t).value;
            && slots != [] && slots[0] == next.0 && Plan(next.1, names[1..], next.2) == Some(slots[1..])
            && args != [] && Filled(j, slots[1..], args[1..])
            && (match next.0 case Known(v) => args[0] == v case Open(ty) => j.has(args[0], ty))
  {
    var next := Next(s, names[0], t).value;
    var tail := Plan(next.1, names[1..], next.2).value;
    assert slots == [next.0] + tail && slots[1..] == tail;
  }

  /** A filled plan whose names are fine is an application by the dependent rule, to what unification makes of the
      return type. */
  lemma {:induction false} PlanTakes(j: Typing, context: set<Var>, all: Bindings, s: Bindings, pi: Tele, sc: Scope,
        us: seq<NExpr>, t: Tele, slots: seq<Slot>, args: seq<Expr>)
    requires Conversion(j) && Stage(all, s, pi, sc, us, t)
    requires Sorted(j, context, all, pi.args) && Unmoved(context, all, pi.args)
    requires Plan(s, ArgNames(pi.args), t) == Some(slots) && PlanOk(s, ArgNames(pi.args), t) && Filled(j, slots, args)
    requires pi.end.PiEnd? && Pattern(pi.end.ret)
    requires forall v :: Asks(v, pi.end.ret) ==> v in all && (Find(sc, v).Some? || Bound(v, pi.args))
    ensures Takes(j, ToNamelessTele(pi, sc), us, args, Apply(all, pi.end.ret))
    decreases |pi.args|
  {
    if pi.args == [] {
      forall v | Asks(v, pi.end.ret) ensures Stands(all, sc, us, v) { assert !Bound(v, []); }
      PatternInst(all, sc, us, pi.end.ret);
    } else {
      var name, rest := pi.args[0].name, Rest(pi);
      FilledNext(j, s, ArgNames(pi.args), t, slots, args);
      var next := Next(s, name, t).value;
      NextStage(all, s, pi, sc, us, t, args[0]);
      assert forall i :: 0 <= i < |rest.args| ==> rest.args[i] == pi.args[i + 1];
      forall v | Asks(v, rest.end.ret) ensures v in all && (Find(Push(name, sc), v).Some? || Bound(v, rest.args)) {
        BoundRest(v, pi.args);
      }
      PlanTakes(j, context, all, next.1, rest, Push(name, sc), [ToNameless(args[0], [])] + us, next.2, slots[1..],
        args[1..]);
      HeadOfStage(all, s, pi, sc, us, t);
      if next.0.Known? { KnownInhabits(j, context, all, s, pi, sc, us, t); }
      else { assert j.has(args[0], t.args[0].ty); }
    }
  }

  lemma BoundRest(v: Var, args: seq<Arg>)
    requires args != []
    ensures Bound(v, args) ==> args[0].name == Some(v) || Bound(v, args[1..])
  {
    if Bound(v, args) {
      var i :| 0 <= i < |args| && args[i].name == Some(v);
      if i > 0 { assert args[1..][i - 1].name == Some(v); }
    }
  }

  /** Under the dependent rule of application, a filled plan has the target type if the names chosen are fine. */
  lemma PlannedHasType(j: Typing, context: set<Var>, c: Callee, target: Expr, args: seq<Expr>)
    requires Conversion(j) && Applies(j, c) && ComparesSorts(j, context, c)
    requires Formed(c) && Fine(context, c, target)
    requires PlanOf(c, target).Some? && Filled(j, PlanOf(c, target).value, args)
    ensures j.has(Applied(c, args), target)
  {
    var s := Unify(c.sorts, c.pi.end.ret, target).value;
    MatchFinds(c.sorts, c.pi.end.ret, target, map[]);
    forall v | Asks(v, c.pi.end.ret) ensures Bound(v, c.pi.args) { AskedIsFree(v, c.pi.end.ret); }
    SignatureAlone(c.pi);
    PlanTakes(j, context, s, s, c.pi, [], [], c.pi, PlanOf(c, target).value, args);
    UnifySound(c.sorts, c.pi.end.ret, target);
    var found := Apply(s, c.pi.end.ret);
    assert j.has(Applied(c, args), found) && j.conv(found, target) by { assert Same(found, target); }
  }

  lemma SignatureAlone(t: Tele)
    ensures NInstTele([], 0, NSig(ToNamelessTele(t, []))) == NSig(ToNamelessTele(t, []))
  {
    SigNameless(t, []);
    NamelessIsClosedTele(Tele(t.args, SigmaEnd), []);
    InstClosedTele(NSig(ToNamelessTele(t, [])), [], 0);
  }
}
