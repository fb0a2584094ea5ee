/** Which bodies are accepted: exactly those each statement of which is acceptable by itself, under the facts on the
    path to it. The facts, and what is known under them, are defined here without the checker. */
module PathFacts {
  import opened Ast
  import opened Nameless
  import opened AlphaEquivalence
  import opened Guarding
  import opened Rewriting
  import opened PathConditions

  // A condition that is true, or false, on a path.
  datatype Fact = Fact(cond: Expr, holds: bool) {
    function Constant(): Expr {
      if holds then TRUE else FALSE
    }

    function Hypothesis(): Expr {
      TrueOf(if holds then cond else Negated(cond))
    }
  }

  // A statement anywhere in a body, with the facts on the path to it.
  datatype Site = Site(facts: seq<Fact>, stmt: Stmt)

  // Whoever gets past `if (c) t` where `t` returns knows that `c` is false.
  function Past(s: Stmt): seq<Fact> {
    if s.IfElse? && s.elseB.None? && ReturnsFromAllBranches(s.thenB.stmts) then [Fact(s.cond, false)] else []
  }

  function PastAll(ss: seq<Stmt>): seq<Fact> {
    if ss == [] then [] else Past(ss[0]) + PastAll(ss[1..])
  }

  function Sites(ss: seq<Stmt>, before: seq<Fact>): seq<Site>
    decreases SizeStmts(ss), 1
  {
    if ss == [] then [] else SitesOf(ss[0], before) + Sites(ss[1..], before + Past(ss[0]))
  }

  // The statement itself, and those in its branches.
  function SitesOf(s: Stmt, before: seq<Fact>): seq<Site>
    decreases SizeStmt(s), 0
  {
    [Site(before, s)] +
    if s.IfElse? then
      Sites(s.thenB.stmts, before + [Fact(s.cond, true)]) +
      if s.elseB.Some? then Sites(s.elseB.value.stmts, before + [Fact(s.cond, false)]) else []
    else []
  }

  // ---- what is known under some facts ----

  function RewriteAll(facts: seq<Fact>, e: Expr): Expr {
    if facts == [] then e else RewriteAll(facts[1..], Rewrite(facts[0].cond, facts[0].Constant(), e))
  }

  function RewriteEach(facts: seq<Fact>, es: seq<Expr>): (r: seq<Expr>)
    ensures |r| == |es|
  {
    seq(|es|, i requires 0 <= i < |es| => RewriteAll(facts, es[i]))
  }

  // Each fact as a hypothesis, rewritten by the facts after it.
  function Hypotheses(facts: seq<Fact>): (r: seq<Expr>)
    ensures |r| == |facts|
  {
    seq(|facts|, i requires 0 <= i < |facts| => RewriteAll(facts[i + 1..], facts[i].Hypothesis()))
  }

  function Under(st: Known, facts: seq<Fact>): Known {
    Known(RewriteEach(facts, st.context) + Hypotheses(facts), RewriteAll(facts, st.goal))
  }

  lemma {:induction false} RewriteLast(facts: seq<Fact>, f: Fact, e: Expr)
    ensures RewriteAll(facts + [f], e) == Rewrite(f.cond, f.Constant(), RewriteAll(facts, e))
  {
    if facts == [] {
      assert facts + [f] == [f] && [f][1..] == [];
    } else {
      assert (facts + [f])[0] == facts[0] && (facts + [f])[1..] == facts[1..] + [f];
      RewriteLast(facts[1..], f, Rewrite(facts[0].cond, facts[0].Constant(), e));
    }
  }

  lemma {:induction false} RewriteSeqAt(from: Expr, to: Expr, es: seq<Expr>, i: nat)
    requires i < |es|
    ensures RewriteSeq(from, to, es)[i] == Rewrite(from, to, es[i])
  {
    if i > 0 { RewriteSeqAt(from, to, es[1..], i - 1); }
  }

  // One fact more.
  lemma UnderLast(st: Known, facts: seq<Fact>, f: Fact)
    ensures Under(st, facts + [f]) == if f.holds then Under(st, facts).UnderTrue(f.cond)
                                      else Under(st, facts).UnderFalse(f.cond)
  {
    var all, context := facts + [f], Under(st, facts).context;
    var r := RewriteSeq(f.cond, f.Constant(), context) + [f.Hypothesis()];
    var u := Under(st, all).context;
    RewriteLast(facts, f, st.goal);
    assert |u| == |r|;
    forall i | 0 <= i < |u| ensures u[i] == r[i] {
      if i < |context| { RewriteSeqAt(f.cond, f.Constant(), context, i); }
      if i < |st.context| {
        RewriteLast(facts, f, st.context[i]);
      } else if i < |context| {
        var j := i - |st.context|;
        assert all[j + 1..] == facts[j + 1..] + [f] && all[j] == facts[j];
        RewriteLast(facts[j + 1..], f, facts[j].Hypothesis());
      } else {
        assert all[|facts| + 1..] == [];
      }
    }
    assert u == r;
  }

  lemma UnderNothing(st: Known)
    ensures Under(st, []) == st
  {
    assert Under(st, []).context == st.context;
  }

  // ---- acceptance ----

  // Types that a reason adds to what is known, unless it is rejected.
  function Reasons(k: Checks, context: seq<Expr>, reason: Option<Expr>): Option<seq<Expr>> {
    if reason.None? then Some([])
    else match k.reason(context, reason.value)
         case Rejected => None
         case Kind => Some([])
         case Typed(ty) => Some([ty])
  }

  // A statement without its branches.
  ghost predicate Acceptable(k: Checks, known: Known, s: Stmt) {
    match s
    case Call(m, f, es) => k.term(known.context, App(m, f, es))
    case IfElse(c, _, _) => k.term(known.context, c)
    case Return(e) => k.result(known.context, known.goal, e)
    case Impossible(reason) =>
      var more := Reasons(k, known.context, reason);
      more.Some? && exists ty :: ty in known.context + more.value && k.isFalse(ty)
  }

  ghost predicate AllAcceptable(k: Checks, st: Known, sites: seq<Site>) {
    forall i :: 0 <= i < |sites| ==> Acceptable(k, Under(st, sites[i].facts), sites[i].stmt)
  }

  lemma AllOfBoth(k: Checks, st: Known, a: seq<Site>, b: seq<Site>)
    ensures AllAcceptable(k, st, a + b) <==> AllAcceptable(k, st, a) && AllAcceptable(k, st, b)
  {
    if AllAcceptable(k, st, a + b) {
      forall i | 0 <= i < |a| ensures Acceptable(k, Under(st, a[i].facts), a[i].stmt) { assert (a + b)[i] == a[i]; }
      forall i | 0 <= i < |b| ensures Acceptable(k, Under(st, b[i].facts), b[i].stmt) {
        assert (a + b)[|a| + i] == b[i];
      }
    }
  }

  lemma AllOfOne(k: Checks, st: Known, site: Site)
    ensures AllAcceptable(k, st, [site]) <==> Acceptable(k, Under(st, site.facts), site.stmt)
  {
    if AllAcceptable(k, st, [site]) { assert [site][0] == site; }
  }

  lemma ProofIff(k: Checks, context: seq<Expr>)
    ensures ProofOfFalse(k, context) <==> exists ty :: ty in context && k.isFalse(ty)
  {
    if ProofOfFalse(k, context) {
      var i :| 0 <= i < |context| && k.isFalse(context[i]);
      assert context[i] in context;
    }
  }

  /** A body is accepted if and only if each statement in it is acceptable under the facts on the path to it; what
      follows the body is checked under the facts known behind it. */
  lemma {:induction false} AcceptedIff(k: Checks, st: Known, facts: seq<Fact>, ss: seq<Stmt>)
    ensures CheckBody(k, Under(st, facts), ss).Some? <==> AllAcceptable(k, st, Sites(ss, facts))
    ensures var r := CheckBody(k, Under(st, facts), ss); r.Some? ==> r.value == Under(st, facts + PastAll(ss))
    decreases SizeStmts(ss), 2
  {
    if ss == [] {
      assert facts + [] == facts;
    } else {
      var past := Past(ss[0]);
      AcceptedStmtIff(k, st, facts, ss[0]);
      AcceptedIff(k, st, facts + past, ss[1..]);
      AllOfBoth(k, st, SitesOf(ss[0], facts), Sites(ss[1..], facts + past));
      assert (facts + past) + PastAll(ss[1..]) == facts + (past + PastAll(ss[1..]));
    }
  }

  lemma {:induction false} AcceptedStmtIff(k: Checks, st: Known, facts: seq<Fact>, s: Stmt)
    ensures CheckStmt(k, Under(st, facts), s).Some? <==> AllAcceptable(k, st, SitesOf(s, facts))
    ensures var r := CheckStmt(k, Under(st, facts), s); r.Some? ==> r.value == Under(st, facts + Past(s))
    decreases SizeStmt(s), 1
  {
    assert facts + [] == facts;
    AllOfOne(k, st, Site(facts, s));
    match s
    case Call(_, _, _) => assert SitesOf(s, facts) == [Site(facts, s)];
    case IfElse(c, t, e) => AcceptedIfIff(k, st, facts, s);
    case Return(_) => assert SitesOf(s, facts) == [Site(facts, s)];
    case Impossible(reason) =>
      assert SitesOf(s, facts) == [Site(facts, s)];
      var context := Under(st, facts).context;
      var more := Reasons(k, context, reason);
      assert context + [] == context;
      if more.Some? { ProofIff(k, context + more.value); }
  }

  lemma {:induction false} AcceptedIfIff(k: Checks, st: Known, facts: seq<Fact>, s: Stmt)
    requires s.IfElse?
    ensures CheckStmt(k, Under(st, facts), s).Some? <==> AllAcceptable(k, st, SitesOf(s, facts))
    ensures var r := CheckStmt(k, Under(st, facts), s); r.Some? ==> r.value == Under(st, facts + Past(s))
    decreases SizeStmt(s), 0
  {
    var yes, no := Fact(s.cond, true), Fact(s.cond, false);
    var own, inThen := [Site(facts, s)], Sites(s.thenB.stmts, facts + [yes]);
    var inElse := if s.elseB.Some? then Sites(s.elseB.value.stmts, facts + [no]) else [];
    assert facts + [] == facts;
    UnderLast(st, facts, yes);
    UnderLast(st, facts, no);
    AcceptedIff(k, st, facts + [yes], s.thenB.stmts);
    if s.elseB.Some? { AcceptedIff(k, st, facts + [no], s.elseB.value.stmts); }
    AllOfOne(k, st, Site(facts, s));
    AllOfBoth(k, st, inThen, inElse);
    AllOfBoth(k, st, own, inThen + inElse);
    assert SitesOf(s, facts) == own + (inThen + inElse);
  }

  /** From the start. */
  lemma CheckedIff(k: Checks, st: Known, ss: seq<Stmt>)
    ensures CheckBody(k, st, ss).Some? <==> AllAcceptable(k, st, Sites(ss, []))
  {
    UnderNothing(st);
    AcceptedIff(k, st, [], ss);
  }

  // ---- the implied else-branch ----

  lemma NotPartOfItself(c: Expr)
    ensures !AlphaEq(TrueOf(c), c)
  {
    var n := Erase(ToNameless(c, []));
    assert [c][0] == c && [c][1..] == [];
    assert ToNamelessSeq([c], []) == [ToNameless(c, [])];
    EraseStep(ToNameless(c, []), []);
    assert Erase(ToNameless(TrueOf(c), [])) == NApp(false, NAtom(TrueT), [n]) != n by { assert [n][0] == n; }
    if AlphaEq(TrueOf(c), c) { AlphaSound(TrueOf(c), c); }
  }

  lemma HypothesisFolds(c: Expr)
    requires !AlphaEq(Atom(TrueT), c)
    ensures Rewrite(c, FALSE, TrueOf(c)) == TrueOf(FALSE)
  {
    NotPartOfItself(c);
    AlphaRefl(c);
    assert [c][0] == c && [c][1..] == [];
    assert RewriteSeq(c, FALSE, [c]) == [FALSE];
  }

  /** If `true_t(c)` is known, what follows `if (c) t` cannot be reached when `t` returns, and `impossible` is accepted
      there. */
  lemma ImpliedElse(k: Checks, st: Known, c: Expr, t: seq<Stmt>)
    requires TrueOf(c) in st.context && !AlphaEq(Atom(TrueT), c) && k.isFalse(TrueOf(FALSE))
    requires k.term(st.context, c) && CheckBody(k, st.UnderTrue(c), t).Some? && ReturnsFromAllBranches(t)
    ensures CheckBody(k, st, [IfElse(c, Body(t), None), Impossible(None)]).Some?
  {
    var ss := [IfElse(c, Body(t), None), Impossible(None)];
    var next := st.UnderFalse(c);
    var i :| 0 <= i < |st.context| && st.context[i] == TrueOf(c);
    RewriteSeqAt(c, FALSE, st.context, i);
    HypothesisFolds(c);
    assert next.context[i] == TrueOf(FALSE) && ProofOfFalse(k, next.context);
    assert ss[0] == IfElse(c, Body(t), None) && ss[1..] == [Impossible(None)] && ss[1..][1..] == [];
    assert CheckStmt(k, st, ss[0]) == Some(next);
    assert CheckBody(k, next, ss[1..]).Some?;
  }
}
