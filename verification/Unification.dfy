/** First-order matching of a pattern against a term, accumulating one binding per pattern variable. */
module Unification {
  import opened Ast
  import opened Binders
  import opened Nameless
  import opened Substitution
  import opened AlphaEquivalence

  type Bindings = map<Var, Expr>

  // The beta-delta comparison of the sorts of a pattern variable and of the term matched against it.
  type SortsAgree = (Var, Expr) -> bool

  // Equal up to alpha-conversion and everything alpha-equivalence ignores.
  ghost predicate Same(x: Expr, y: Expr) {
    Erase(ToNameless(x, [])) == Erase(ToNameless(y, []))
  }

  function Match(sorts: SortsAgree, from: Expr, to: Expr, result: Bindings): Option<Bindings>
    decreases from, 1
  {
    match (from, to)
    case (VarE(v), _) =>
      if !sorts(v, to) then None
      else if v !in result then Some(result[v := to])
      else if AlphaEq(to, result[v]) then Some(result) else None
    case (Atom(a), Atom(b)) => if a == b then Some(result) else None
    case (Node(p, es), Node(q, fs)) =>
      if !SameOp(p, q) || |es| != |fs| then None else MatchSeq(sorts, es, fs, result)
    case (App(_, f, es), App(_, g, fs)) =>
      if |es| != |fs| then None
      else (match Match(sorts, f, g, result) case None => None case Some(r) => MatchSeq(sorts, es, fs, r))
    case (Because(v, _), Because(w, _)) => Match(sorts, v, w, result)
    case _ => None
  }

  function MatchSeq(sorts: SortsAgree, es: seq<Expr>, fs: seq<Expr>, result: Bindings): Option<Bindings>
    requires |es| == |fs|
    decreases es, 0
  {
    if es == [] then Some(result)
    else match Match(sorts, es[0], fs[0], result)
         case None => None
         case Some(r) => MatchSeq(sorts, es[1..], fs[1..], r)
  }

  // The loop over operands or arguments, which stops at the first mismatch.
  method MatchOperands(sorts: SortsAgree, es: seq<Expr>, fs: seq<Expr>, bound: Bindings) returns (r: Option<Bindings>)
    requires |es| == |fs|
    ensures r == MatchSeq(sorts, es, fs, bound)
  {
    var result := bound;
    for i := 0 to |es|
      invariant MatchSeq(sorts, es[i..], fs[i..], result) == MatchSeq(sorts, es, fs, bound)
    {
      assert es[i..][1..] == es[i + 1..] && fs[i..][1..] == fs[i + 1..];
      var next := Match(sorts, es[i], fs[i], result);
      if next.None? {
        return None;
      }
      result := next.value;
    }
    return Some(result);
  }

  function Unify(sorts: SortsAgree, from: Expr, to: Expr): Option<Bindings> {
    Match(sorts, from, to, map[])
  }

  // ---- the matching substitution, applied to all variables at once ----

  function Apply(s: Bindings, e: Expr): Expr
    decreases e, 1
  {
    match e
    case Atom(_) => e
    case VarE(v) => if v in s then s[v] else e
    case Node(op, es) => Node(op, ApplySeq(s, es))
    case App(m, f, es) => App(m, Apply(s, f), ApplySeq(s, es))
    case Because(v, r) => Because(Apply(s, v), r)
    case Bind(_) => e
  }

  function ApplySeq(s: Bindings, es: seq<Expr>): (r: seq<Expr>)
    ensures |r| == |es|
    decreases es, 0
  {
    if es == [] then [] else [Apply(s, es[0])] + ApplySeq(s, es[1..])
  }

  ghost predicate Extends(s: Bindings, r: Bindings) {
    forall v :: v in r ==> v in s && s[v] == r[v]
  }

  lemma SameSeqStep(e: Expr, es: seq<Expr>, f: Expr, fs: seq<Expr>)
    ensures EraseSeq(ToNamelessSeq([e] + es, [])) == EraseSeq(ToNamelessSeq([f] + fs, []))
       <==> Same(e, f) && EraseSeq(ToNamelessSeq(es, [])) == EraseSeq(ToNamelessSeq(fs, []))
  {
    assert ([e] + es)[1..] == es && ([f] + fs)[1..] == fs;
    EraseStep(ToNameless(e, []), ToNamelessSeq(es, []));
    EraseStep(ToNameless(f, []), ToNamelessSeq(fs, []));
    SameHeadAndTail(
      Erase(ToNameless(e, [])), EraseSeq(ToNamelessSeq(es, [])),
      Erase(ToNameless(f, [])), EraseSeq(ToNamelessSeq(fs, [])));
  }

  // Soundness: whatever extends the bindings found turns the pattern into the term.
  lemma {:induction false} MatchSound(sorts: SortsAgree, from: Expr, to: Expr, result: Bindings, s: Bindings)
    requires var r := Match(sorts, from, to, result); r.Some? && Extends(s, r.value)
    ensures Extends(s, result) && AlphaEq(to, Apply(s, from))
    decreases from, 1
  {
    match (from, to)
    case (VarE(_), _) => AlphaRefl(to);
    case (Atom(_), Atom(_)) =>
    case (Node(_, es), Node(_, fs)) => MatchSoundSeq(sorts, es, fs, result, s);
    case (App(_, f, es), App(_, g, fs)) =>
      var r := Match(sorts, f, g, result).value;
      MatchSoundSeq(sorts, es, fs, r, s);
      MatchSound(sorts, f, g, result, s);
    case (Because(v, _), Because(w, _)) => MatchSound(sorts, v, w, result, s);
  }

  lemma {:induction false} MatchSoundSeq(sorts: SortsAgree, es: seq<Expr>, fs: seq<Expr>, result: Bindings, s: Bindings)
    requires |es| == |fs|
    requires var r := MatchSeq(sorts, es, fs, result); r.Some? && Extends(s, r.value)
    ensures Extends(s, result)
    ensures AlphaEqSeq(fs, ApplySeq(s, es))
    decreases es, 0
  {
    if es != [] {
      var r := Match(sorts, es[0], fs[0], result).value;
      MatchSoundSeq(sorts, es[1..], fs[1..], r, s);
      MatchSound(sorts, es[0], fs[0], result, s);
      assert ApplySeq(s, es)[1..] == ApplySeq(s, es[1..]);
    }
  }

  lemma UnifySound(sorts: SortsAgree, from: Expr, to: Expr)
    requires Unify(sorts, from, to).Some?
    ensures var r := Apply(Unify(sorts, from, to).value, from);
            AlphaEq(to, r) && Same(to, r)
  {
    MatchSound(sorts, from, to, map[], Unify(sorts, from, to).value);
    AlphaSound(to, Apply(Unify(sorts, from, to).value, from));
  }

  // ---- completeness, on patterns without binders and reasons ----

  predicate Simple(e: Expr)
    decreases e, 1
  {
    match e
    case Atom(_) => true
    case VarE(_) => true
    case Node(_, es) => SimpleSeq(es)
    case App(_, f, es) => Simple(f) && SimpleSeq(es)
    case Because(_, _) => false
    case Bind(_) => false
  }

  predicate SimpleSeq(es: seq<Expr>)
    decreases es, 0
  {
    es != [] ==> Simple(es[0]) && SimpleSeq(es[1..])
  }

  // Some substitution for every variable, with sorts that agree wherever it could be used.
  ghost predicate Solves(sorts: SortsAgree, m: Bindings, from: Expr) {
    && (forall v :: OccursIn(v, from, false) ==> v in m)
    && WellSorted(sorts, m)
  }

  ghost predicate WellSorted(sorts: SortsAgree, m: Bindings) {
    && (forall v :: v in m ==> ReasonFree(m[v]))
    && (forall v, e :: v in m && Same(m[v], e) ==> sorts(v, e))
  }

  // Every binding found so far is the one of `m`, up to alpha.
  ghost predicate Agrees(result: Bindings, m: Bindings) {
    forall v :: v in result ==> v in m && ReasonFree(result[v]) && Same(result[v], m[v])
  }

  // A reason-free term that is the same as a node, or as an application, has its shape.
  lemma SameNode(op: Op, es: seq<Expr>, to: Expr)
    requires ReasonFree(to) && Same(Node(op, es), to)
    ensures to.Node? && SameOp(op, to.op) && |es| == |to.operands| && ReasonFreeSeq(to.operands)
    ensures EraseSeq(ToNamelessSeq(es, [])) == EraseSeq(ToNamelessSeq(to.operands, []))
  {
  }

  lemma SameApp(mut: bool, f: Expr, es: seq<Expr>, to: Expr)
    requires ReasonFree(to) && Same(App(mut, f, es), to)
    ensures to.App? && |es| == |to.args| && ReasonFree(to.func) && ReasonFreeSeq(to.args)
    ensures Same(f, to.func) && EraseSeq(ToNamelessSeq(es, [])) == EraseSeq(ToNamelessSeq(to.args, []))
  {
  }

  lemma MatchCompleteVar(sorts: SortsAgree, v: Var, to: Expr, result: Bindings, m: Bindings)
    requires ReasonFree(to) && v in m && WellSorted(sorts, m) && Same(m[v], to) && Agrees(result, m)
    ensures var r := Match(sorts, VarE(v), to, result);
            && r.Some? && Agrees(r.value, m) && Extends(r.value, result) && v in r.value
  {
    if v in result { AlphaExactWithoutReasons(to, result[v]); }
  }

  lemma {:induction false} MatchComplete(sorts: SortsAgree, from: Expr, to: Expr, result: Bindings, m: Bindings)
    requires Simple(from) && ReasonFree(to) && Same(Apply(m, from), to)
    requires (forall v :: OccursIn(v, from, false) ==> v in m) && WellSorted(sorts, m) && Agrees(result, m)
    ensures var r := Match(sorts, from, to, result);
            && r.Some? && Agrees(r.value, m) && Extends(r.value, result)
            && (forall v :: OccursIn(v, from, false) ==> v in r.value)
    decreases from, 1
  {
    match from
    case Atom(_) =>
    case VarE(v) => MatchCompleteVar(sorts, v, to, result, m);
    case Node(op, es) =>
      SameNode(op, ApplySeq(m, es), to);
      MatchCompleteSeq(sorts, es, to.operands, result, m);
    case App(mut, f, es) =>
      SameApp(mut, Apply(m, f), ApplySeq(m, es), to);
      MatchComplete(sorts, f, to.func, result, m);
      var r := Match(sorts, f, to.func, result).value;
      MatchCompleteSeq(sorts, es, to.args, r, m);
      ExtendsTrans(MatchSeq(sorts, es, to.args, r).value, r, result);
  }

  lemma ExtendsTrans(s: Bindings, r: Bindings, q: Bindings)
    requires Extends(s, r) && Extends(r, q)
    ensures Extends(s, q) && forall v :: v in r ==> v in s
  {
  }

  lemma {:induction false} MatchCompleteSeq(sorts: SortsAgree, es: seq<Expr>, fs: seq<Expr>, result: Bindings,
        m: Bindings)
    requires |es| == |fs| && SimpleSeq(es) && ReasonFreeSeq(fs)
    requires forall v :: OccursInSeq(v, es, false) ==> v in m
    requires WellSorted(sorts, m)
    requires EraseSeq(ToNamelessSeq(ApplySeq(m, es), [])) == EraseSeq(ToNamelessSeq(fs, [])) && Agrees(result, m)
    ensures var r := MatchSeq(sorts, es, fs, result);
            && r.Some? && Agrees(r.value, m) && Extends(r.value, result)
            && (forall v :: OccursInSeq(v, es, false) ==> v in r.value)
    decreases es, 0
  {
    if es != [] {
      assert [fs[0]] + fs[1..] == fs;
      SameSeqStep(Apply(m, es[0]), ApplySeq(m, es[1..]), fs[0], fs[1..]);
      MatchComplete(sorts, es[0], fs[0], result, m);
      MatchCompleteSeq(sorts, es[1..], fs[1..], Match(sorts, es[0], fs[0], result).value, m);
    }
  }

  // If any substitution makes the pattern equal to the term then matching succeeds, and with that very substitution.
  lemma UnifyComplete(sorts: SortsAgree, from: Expr, to: Expr, m: Bindings)
    requires Simple(from) && ReasonFree(to) && Solves(sorts, m, from)
    requires Same(Apply(m, from), to)
    ensures var r := Unify(sorts, from, to);
            && r.Some?
            && (forall v :: OccursIn(v, from, false) ==> v in r.value)
            && (forall v :: v in r.value ==> v in m && Same(r.value[v], m[v]))
  {
    MatchComplete(sorts, from, to, map[], m);
  }
}
