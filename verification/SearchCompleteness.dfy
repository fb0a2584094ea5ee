/** What it means that the proof search has failed.

    `Traced` says of a task, finished or not, what it has become of the tactic it began with: which tactics its
    sub-tasks began with, and, if it has failed, why. One run keeps it (`RanTraced`), since what was too much to be used
    stays too much. So a full search that has failed has tried everything: no variable, truth or trivial value is of
    any use, and each viable function has been attempted in vain. A quick search attempts no function. */
module SearchCompleteness {
  import opened Ast
  import opened AlphaEquivalence
  import opened Unification
  import opened Planning
  import opened Usages
  import opened UsageTables
  import opened UsageGrowth
  import opened ProofSearch

  // ---- memory only grows ----

  ghost predicate Later(w: World, m: Memory, n: Memory) {
    m.cache <= n.cache && AllGrew(w.declared, m.usages, n.usages)
  }

  lemma LaterRefl(w: World, m: Memory)
    requires AllSome(m.usages)
    ensures Later(w, m, m)
  {
    forall i | 0 <= i < |m.usages| ensures Grew(w.declared, m.usages[i], m.usages[i]) {
      GrewRefl(w.declared, m.usages[i]);
    }
  }

  lemma LaterTransitive(w: World, a: Memory, b: Memory, c: Memory)
    requires Later(w, a, b) && Later(w, b, c)
    ensures Later(w, a, c)
  {
    AllGrewTransitive(w.declared, a.usages, b.usages, c.usages);
  }

  lemma SpentLater(w: World, m: Memory, usage: nat, use: Use)
    requires AllSome(m.usages) && Spend(w, m, usage, use).Some?
    ensures Later(w, m, Spend(w, m, usage, use).value)
  {
    AddedGrew(w.declared, m.usages, usage, use, w.multiplier);
  }

  lemma StillUnspendable(w: World, m: Memory, n: Memory, usage: nat, use: Use)
    requires Later(w, m, n) && usage < |m.usages| && (use.OfUsage? ==> use.j < |m.usages|)
    requires Spend(w, m, usage, use).None?
    ensures Spend(w, n, usage, use).None?
  {
    StillTooMuch(w.declared, m.usages, n.usages, usage, use, w.multiplier);
  }

  lemma {:induction false} StillRecalled(cache: seq<Cached>, later: seq<Cached>, target: Expr)
    requires cache <= later && Recall(cache, target).Some?
    ensures Recall(later, target) == Recall(cache, target)
  {
    if !AlphaEq(cache[0].target, target) {
      assert cache[1..] <= later[1..];
      StillRecalled(cache[1..], later[1..], target);
    }
  }

  lemma {:induction false} Recalled(cache: seq<Cached>, target: Expr, e: Expr)
    ensures cache <= Remember(cache, target, e) && Recall(Remember(cache, target, e), target).Some?
    decreases |cache|
  {
    if cache == [] {
      AlphaRefl(target);
    } else if Recall(cache, target).None? {
      Recalled(cache[1..], target, e);
      assert (cache + [Cached(target, e)])[1..] == cache[1..] + [Cached(target, e)];
    }
  }

  lemma SuccessLater(w: World, m: Memory, t: Task, e: Expr)
    requires AllSome(m.usages)
    ensures var r := Succeed(m, t, e); Later(w, m, r.0) && Recall(r.0.cache, t.target).Some?
  {
    Recalled(m.cache, t.target, e);
    LaterRefl(w, m);
  }

  // ---- what a task has become of its tactic ----

  // No variable of a fitting type can be used any more.
  ghost predicate NoVariable(w: World, m: Memory, t: Task) {
    forall i :: 0 <= i < |w.locals| && w.equivalent(w.locals[i].ty, t.target) ==>
      Spend(w, m, t.usage, OfVariable(w.locals[i].v)).None?
  }

  // The arguments found by unification are used one after the other.
  function Charge(w: World, view: Counts, slots: seq<Slot>): (r: Option<Counts>)
    requires view != []
    ensures r.Some? ==> r.value != []
    decreases |slots|
  {
    if slots == [] then Some(view)
    else if slots[0].Open? then Charge(w, view, slots[1..])
    else match TryAddExpr(w.declared, view, slots[0].value, w.multiplier)
         case None => None
         case Some(next) => Charge(w, next, slots[1..])
  }

  predicate Affordable(w: World, m: Memory, t: Task, g: nat) {
    && t.usage < |m.usages| && m.usages[t.usage] != [] && g < |w.callees|
    && PlanOf(w.callees[g], t.target).Some?
    && Charge(w, m.usages[t.usage], PlanOf(w.callees[g], t.target).value).Some?
  }

  // The tactic that a sub-task of an any-task began with.
  function Origin(t: Task): Tactic {
    match t.kind
    case Single(tactic) => tactic
    case AnyOf(_) => FromGlobals
    case AllOf(_, _, g, _) => ApplyGlobal(g)
  }

  predicate Tries(subs: seq<Task>, tactic: Tactic) {
    exists i :: 0 <= i < |subs| && Origin(subs[i]) == tactic
  }

  // A viable function among the first `n`.
  predicate Applies(w: World, target: Expr, t: Task, n: nat) {
    var o := Origin(t);
    o.ApplyGlobal? && o.g < n && o.g < |w.callees| && Viable(w, w.callees[o.g], target)
  }

  // What is tried: of the functions all that are viable, but none in a quick search.
  predicate Covers(w: World, tactic: Tactic, target: Expr, subs: seq<Task>) {
    match tactic
    case Search(full) =>
      && Tries(subs, FromContext) && Tries(subs, FromTruth) && Tries(subs, Trivial)
      && (full <==> Tries(subs, FromGlobals))
      && forall i :: 0 <= i < |subs| ==> Origin(subs[i]) in {FromContext, FromTruth, Trivial, FromGlobals}
    case FromGlobals =>
      && (forall g :: 0 <= g < |w.callees| && Viable(w, w.callees[g], target) ==> Tries(subs, ApplyGlobal(g)))
      && forall i :: 0 <= i < |subs| ==> Applies(w, target, subs[i], |w.callees|)
    case _ => false
  }

  ghost predicate Reason(w: World, m: Memory, tactic: Tactic, t: Task, ancestors: seq<Expr>) {
    match t.kind
    case AnyOf(subs) => AllFailed(subs)
    case AllOf(subs, temp, _, _) =>
      || (exists i :: 0 <= i < |subs| && subs[i].status.Failed?)
      || (AllSucceeded(subs) && Spend(w, m, t.usage, OfUsage(temp)).None?)
    case Single(_) =>
      match tactic
      case Search(_) => Loops(ancestors, t.target)
      case FromContext => NoVariable(w, m, t)
      case FromTruth => !w.holds(t.target)
      case Trivial => w.trivial(t.target).None?
      case FromGlobals => false
      case ApplyGlobal(g) => !Affordable(w, m, t, g)
  }

  ghost predicate Traced(w: World, m: Memory, tactic: Tactic, t: Task, ancestors: seq<Expr>)
    decreases t
  {
    && (t.status.Failed? ==> t.depth > DEPTH_LIMIT || Reason(w, m, tactic, t, ancestors))
    && (t.status.Succeeded? ==> Recall(m.cache, t.target).Some?)
    && match t.kind
       case Single(begun) => begun == tactic
       case AnyOf(subs) =>
         && Covers(w, tactic, t.target, subs) && (tactic.Search? ==> !Loops(ancestors, t.target))
         && forall i :: 0 <= i < |subs| ==>
              && subs[i].target == t.target && subs[i].usage == t.usage
              && subs[i].depth == (if tactic.Search? then t.depth + 1 else t.depth)
              && Traced(w, m, Origin(subs[i]), subs[i], ancestors + [t.target])
       case AllOf(subs, temp, g, slots) =>
         && tactic == ApplyGlobal(g) && g < |w.callees|
         && PlanOf(w.callees[g], t.target) == Some(slots) && |subs| == |OpenTypes(slots)| > 0
         && forall i :: 0 <= i < |subs| ==>
              && subs[i].target == OpenTypes(slots)[i] && subs[i].usage == temp && subs[i].depth == t.depth
              && Traced(w, m, Search(!Unifies(w.callees[g], OpenTypes(slots)[i])), subs[i], ancestors + [t.target])
  }

  lemma OriginIs(w: World, m: Memory, tactic: Tactic, t: Task, ancestors: seq<Expr>)
    requires Traced(w, m, tactic, t, ancestors) && !tactic.Search?
    ensures Origin(t) == tactic
  {
  }

  lemma {:induction false} ChargeNoEasier(w: World, a: Counts, b: Counts, slots: seq<Slot>)
    requires a != [] && b != [] && AtMost(a, b) && Charge(w, b, slots).Some?
    ensures Charge(w, a, slots).Some?
    decreases |slots|
  {
    if slots != [] {
      if slots[0].Open? {
        ChargeNoEasier(w, a, b, slots[1..]);
      } else {
        TermNoEasier(w.declared, a, b, slots[0].value, w.multiplier);
        ChargeNoEasier(w, TryAddExpr(w.declared, a, slots[0].value, w.multiplier).value,
          TryAddExpr(w.declared, b, slots[0].value, w.multiplier).value, slots[1..]);
      }
    }
  }

  lemma StillUnaffordable(w: World, m: Memory, n: Memory, t: Task, g: nat)
    requires Later(w, m, n) && t.usage < |m.usages| && Affordable(w, n, t, g)
    ensures Affordable(w, m, t, g)
  {
    assert Grew(w.declared, m.usages[t.usage], n.usages[t.usage]);
    ChargeNoEasier(w, m.usages[t.usage], n.usages[t.usage], PlanOf(w.callees[g], t.target).value);
  }

  lemma {:induction false} TracedLater(w: World, m: Memory, n: Memory, tactic: Tactic, t: Task, ancestors: seq<Expr>)
    requires Traced(w, m, tactic, t, ancestors) && Shaped(w, t, |m.usages|) && Later(w, m, n)
    ensures Traced(w, n, tactic, t, ancestors)
    decreases t
  {
    if t.status.Succeeded? { StillRecalled(m.cache, n.cache, t.target); }
    match t.kind
    case Single(_) =>
      if t.status.Failed? && t.depth <= DEPTH_LIMIT { ReasonLater(w, m, n, tactic, t, ancestors); }
    case AnyOf(subs) =>
      forall i | 0 <= i < |subs| ensures Traced(w, n, Origin(subs[i]), subs[i], ancestors + [t.target]) {
        TracedLater(w, m, n, Origin(subs[i]), subs[i], ancestors + [t.target]);
      }
    case AllOf(subs, temp, g, slots) =>
      forall i | 0 <= i < |subs|
        ensures Traced(w, n, Search(!Unifies(w.callees[g], OpenTypes(slots)[i])), subs[i], ancestors + [t.target])
      {
        TracedLater(w, m, n, Search(!Unifies(w.callees[g], OpenTypes(slots)[i])), subs[i], ancestors + [t.target]);
      }
      if t.status.Failed? && t.depth <= DEPTH_LIMIT { ReasonLater(w, m, n, tactic, t, ancestors); }
  }

  lemma ReasonLater(w: World, m: Memory, n: Memory, tactic: Tactic, t: Task, ancestors: seq<Expr>)
    requires Reason(w, m, tactic, t, ancestors) && Shaped(w, t, |m.usages|) && Later(w, m, n)
    ensures Reason(w, n, tactic, t, ancestors)
  {
    if t.kind.Single? && tactic == FromContext {
      forall i | 0 <= i < |w.locals| && w.equivalent(w.locals[i].ty, t.target)
        ensures Spend(w, n, t.usage, OfVariable(w.locals[i].v)).None?
      {
        StillUnspendable(w, m, n, t.usage, OfVariable(w.locals[i].v));
      }
    } else if t.kind.Single? && tactic.ApplyGlobal? && Affordable(w, n, t, tactic.g) {
      StillUnaffordable(w, m, n, t, tactic.g);
    } else if t.kind.AllOf? && Spend(w, m, t.usage, OfUsage(t.kind.temp)).None? {
      StillUnspendable(w, m, n, t.usage, OfUsage(t.kind.temp));
    }
  }

  // ---- single tasks ----

  // A task that was not finished, after one run.
  ghost predicate Follows(w: World, m: Memory, tactic: Tactic, r: (Memory, Task), ancestors: seq<Expr>) {
    Later(w, m, r.0) && Traced(w, r.0, tactic, r.1, ancestors)
  }

  lemma SucceedFollows(w: World, m: Memory, n: Memory, t: Task, e: Expr, ancestors: seq<Expr>)
    requires AllSome(n.usages) && Later(w, m, n) && t.kind.Single? && !Done(t)
    ensures Follows(w, m, t.kind.tactic, Succeed(n, t, e), ancestors)
  {
    SuccessLater(w, n, t, e);
    LaterTransitive(w, m, n, Succeed(n, t, e).0);
  }

  lemma {:induction false} ByContextFollows(w: World, m: Memory, t: Task, i: nat, ancestors: seq<Expr>)
    requires AllSome(m.usages) && t.kind == Single(FromContext) && !Done(t)
    ensures var r := ByContext(w, m, t, i);
            if Done(r.1) then r.1.status.Succeeded? && Follows(w, m, FromContext, r, ancestors)
            else r == (m, t) && forall j :: i <= j < |w.locals| && w.equivalent(w.locals[j].ty, t.target) ==>
                     Spend(w, m, t.usage, OfVariable(w.locals[j].v)).None?
    decreases |w.locals| - i
  {
    if i < |w.locals| {
      var local := w.locals[i];
      var spent := if w.equivalent(local.ty, t.target) then Spend(w, m, t.usage, OfVariable(local.v)) else None;
      if spent.Some? {
        SpentLater(w, m, t.usage, OfVariable(local.v));
        SucceedFollows(w, m, spent.value, t, VarE(local.v), ancestors);
      } else {
        ByContextFollows(w, m, t, i + 1, ancestors);
      }
    }
  }

  lemma ByAllFollows(w: World, m: Memory, t: Task, full: bool, ancestors: seq<Expr>)
    requires AllSome(m.usages) && t.kind == Single(Search(full)) && !Done(t)
    ensures Follows(w, m, Search(full), ByAll(w, m, t, full, ancestors), ancestors)
  {
    var hit := Recall(m.cache, t.target);
    var spent := if hit.Some? then Spend(w, m, t.usage, OfTerm(hit.value)) else None;
    if spent.Some? {
      SpentLater(w, m, t.usage, OfTerm(hit.value));
      SucceedFollows(w, m, spent.value, t, hit.value, ancestors);
    } else if Loops(ancestors, t.target) {
      LoopFollows(w, m, t, ancestors);
    } else if full {
      SpawnFollows(w, m, t, true, [FromContext, FromTruth, Trivial, FromGlobals], ancestors);
    } else {
      SpawnFollows(w, m, t, false, [FromContext, FromTruth, Trivial], ancestors);
    }
  }

  lemma LoopFollows(w: World, m: Memory, t: Task, ancestors: seq<Expr>)
    requires AllSome(m.usages) && t.kind.Single? && t.kind.tactic.Search? && Loops(ancestors, t.target)
    ensures Follows(w, m, t.kind.tactic, (m, Fail(t)), ancestors)
  {
    LaterRefl(w, m);
  }

  lemma SpawnFollows(w: World, m: Memory, t: Task, full: bool, tactics: seq<Tactic>, ancestors: seq<Expr>)
    requires AllSome(m.usages) && t.kind == Single(Search(full)) && !Done(t) && !Loops(ancestors, t.target)
    requires FromContext in tactics && FromTruth in tactics && Trivial in tactics && (full <==> FromGlobals in tactics)
    requires forall i :: 0 <= i < |tactics| ==> tactics[i] in {FromContext, FromTruth, Trivial, FromGlobals}
    ensures var r := t.(kind := AnyOf(Spawn(tactics, t.depth + 1, t.target, t.usage)));
            Follows(w, m, Search(full), (m, r), ancestors)
  {
    var subs := Spawn(tactics, t.depth + 1, t.target, t.usage);
    LaterRefl(w, m);
    forall tactic ensures Tries(subs, tactic) <==> tactic in tactics {
      if tactic in tactics {
        var i :| 0 <= i < |tactics| && tactics[i] == tactic;
        assert Origin(subs[i]) == tactic;
      }
    }
  }

  lemma {:induction false} CandidatesCover(w: World, t: Task, n: nat)
    requires n <= |w.callees|
    ensures var subs := Candidates(w, t, n);
            && (forall g :: 0 <= g < n && Viable(w, w.callees[g], t.target) ==> Tries(subs, ApplyGlobal(g)))
            && forall i :: 0 <= i < |subs| ==> Applies(w, t.target, subs[i], n)
  {
    if n > 0 {
      CandidatesCover(w, t, n - 1);
      var fewer, subs := Candidates(w, t, n - 1), Candidates(w, t, n);
      forall g | 0 <= g < n && Viable(w, w.callees[g], t.target) ensures Tries(subs, ApplyGlobal(g)) {
        if g < n - 1 {
          assert Tries(fewer, ApplyGlobal(g));
          var i :| 0 <= i < |fewer| && Origin(fewer[i]) == ApplyGlobal(g);
          assert subs[i] == fewer[i];
        } else {
          assert Origin(subs[|fewer|]) == ApplyGlobal(g);
        }
      }
      forall i | 0 <= i < |subs| ensures Applies(w, t.target, subs[i], n) {
        if i < |fewer| {
          assert subs[i] == fewer[i] && Applies(w, t.target, fewer[i], n - 1);
        } else {
          assert Origin(subs[i]) == ApplyGlobal(n - 1);
        }
      }
    }
  }

  lemma FromGlobalsFollows(w: World, m: Memory, t: Task, ancestors: seq<Expr>)
    requires AllSome(m.usages) && t.kind == Single(FromGlobals) && !Done(t)
    ensures Follows(w, m, FromGlobals, (m, t.(kind := AnyOf(Candidates(w, t, |w.callees|)))), ancestors)
  {
    LaterRefl(w, m);
    CandidatesCover(w, t, |w.callees|);
    CandidatesApply(w, t, |w.callees|);
  }

  lemma {:induction false} WalkCharges(w: World, m: Memory, usage: nat, s: Bindings, names: seq<Option<Var>>, t: Tele)
    requires AllSome(m.usages) && usage < |m.usages| && |names| == |t.args|
    ensures var r, plan := Walk(w, m, usage, s, names, t), Plan(s, names, t);
            && Later(w, m, r.1)
            && (r.0.Some? <==> plan.Some? && Charge(w, m.usages[usage], plan.value).Some?)
    decreases |t.args|
  {
    LaterRefl(w, m);
    if t.args != [] && Next(s, names[0], t).Some? {
      var next := Next(s, names[0], t).value;
      var tail := Plan(next.1, names[1..], next.2);
      if tail.Some? { assert ([next.0] + tail.value)[1..] == tail.value; }
      var spent := if next.0.Known? then Spend(w, m, usage, OfTerm(next.0.value)) else Some(m);
      if spent.Some? {
        WalkCharges(w, spent.value, usage, next.1, names[1..], next.2);
        if next.0.Known? { SpentLater(w, m, usage, OfTerm(next.0.value)); }
        LaterTransitive(w, m, spent.value, Walk(w, spent.value, usage, next.1, names[1..], next.2).1);
      }
    }
  }

  lemma ByApplyingFollows(w: World, m: Memory, t: Task, g: nat, ancestors: seq<Expr>)
    requires AllSome(m.usages) && t.kind == Single(ApplyGlobal(g)) && !Done(t) && Shaped(w, t, |m.usages|)
    ensures var r := ByApplying(w, m, t, g);
            if r.1 == t then Later(w, m, r.0) && !Affordable(w, r.0, t, g)
            else Follows(w, m, ApplyGlobal(g), r, ancestors)
  {
    var c := w.callees[g];
    var found := if c.pi.end.PiEnd? then Unify(c.sorts, c.pi.end.ret, t.target) else None;
    LaterRefl(w, m);
    if found.Some? {
      WalkCharges(w, m, t.usage, found.value, ArgNames(c.pi.args), c.pi);
      WalkPlans(w, m, t.usage, found.value, ArgNames(c.pi.args), c.pi);
      var walked := Walk(w, m, t.usage, found.value, ArgNames(c.pi.args), c.pi);
      if walked.0.None? {
        if Affordable(w, walked.1, t, g) { StillUnaffordable(w, m, walked.1, t, g); }
      } else {
        var slots, after := walked.0.value, walked.1;
        if OpenTypes(slots) == [] {
          SucceedFollows(w, m, after, t, Applied(c, Build(slots, [])), ancestors);
        } else {
          ExtendedLater(w, m, after, t.usage);
        }
      }
    }
  }

  lemma ExtendedLater(w: World, m: Memory, after: Memory, usage: nat)
    requires Later(w, m, after) && usage < |after.usages|
    ensures Later(w, m, after.(usages := after.usages + [[[]] + after.usages[usage]]))
  {
    var all := after.usages + [[[]] + after.usages[usage]];
    forall i | 0 <= i < |m.usages| ensures Grew(w.declared, m.usages[i], all[i]) {
      assert all[i] == after.usages[i];
    }
  }

  lemma TriedFollows(w: World, m: Memory, t: Task, ancestors: seq<Expr>)
    requires AllSome(m.usages) && t.kind.Single? && !Done(t) && Shaped(w, t, |m.usages|) && t.depth <= DEPTH_LIMIT
    ensures Follows(w, m, t.kind.tactic, Ran(w, m, t, ancestors), ancestors)
  {
    LaterRefl(w, m);
    match t.kind.tactic
    case Search(full) => ByAllFollows(w, m, t, full, ancestors);
    case FromContext => ByContextFollows(w, m, t, 0, ancestors);
    case FromTruth => if w.holds(t.target) { SucceedFollows(w, m, m, t, Node(InitList, []), ancestors); }
    case Trivial =>
      if w.trivial(t.target).Some? { SucceedFollows(w, m, m, t, w.trivial(t.target).value, ancestors); }
    case FromGlobals => FromGlobalsFollows(w, m, t, ancestors);
    case ApplyGlobal(g) => ByApplyingFollows(w, m, t, g, ancestors);
  }

  // ---- tasks with sub-tasks ----

  /** One run of an unfinished task keeps the trace of what has been tried. */
  lemma {:induction false} RanTraced(w: World, m: Memory, tactic: Tactic, t: Task, ancestors: seq<Expr>)
    requires AllSome(m.usages) && Shaped(w, t, |m.usages|) && !Done(t) && Traced(w, m, tactic, t, ancestors)
    ensures Follows(w, m, tactic, Ran(w, m, t, ancestors), ancestors)
    decreases t, 2
  {
    LaterRefl(w, m);
    if t.depth > DEPTH_LIMIT {
    } else if t.kind.Single? {
      TriedFollows(w, m, t, ancestors);
    } else {
      var subs, any := t.kind.subs, t.kind.AnyOf?;
      var tactics := if any then Origins(subs) else Searches(w, t.kind.g, OpenTypes(t.kind.slots));
      var r := RanUntil(w, m, subs, ancestors + [t.target], any);
      RanUntilTraced(w, m, tactics, subs, ancestors + [t.target], any);
      RanUntilKeeps(w, m, subs, ancestors + [t.target], any);
      if any { AnyFollows(w, m, tactic, t, r, ancestors); } else { AllFollow(w, m, tactic, t, r, ancestors); }
    }
  }

  // Sub-tasks and the tactics they began with.
  ghost predicate AllTraced(w: World, m: Memory, tactics: seq<Tactic>, subs: seq<Task>, ancestors: seq<Expr>) {
    |tactics| == |subs| && forall i :: 0 <= i < |subs| ==> Traced(w, m, tactics[i], subs[i], ancestors)
  }

  lemma AllTracedLater(w: World, m: Memory, n: Memory, tactics: seq<Tactic>, subs: seq<Task>, ancestors: seq<Expr>)
    requires AllTraced(w, m, tactics, subs, ancestors) && Later(w, m, n)
    requires forall i :: 0 <= i < |subs| ==> Shaped(w, subs[i], |m.usages|)
    ensures AllTraced(w, n, tactics, subs, ancestors)
  {
    forall i | 0 <= i < |subs| ensures Traced(w, n, tactics[i], subs[i], ancestors) {
      TracedLater(w, m, n, tactics[i], subs[i], ancestors);
    }
  }

  lemma {:induction false} RanUntilTraced(w: World, m: Memory, tactics: seq<Tactic>, subs: seq<Task>,
        ancestors: seq<Expr>, success: bool)
    requires AllSome(m.usages) && AllTraced(w, m, tactics, subs, ancestors)
    requires forall i :: 0 <= i < |subs| ==> Shaped(w, subs[i], |m.usages|)
    ensures var r := RanUntil(w, m, subs, ancestors, success);
            Later(w, m, r.0) && AllTraced(w, r.0, tactics, r.1, ancestors)
    decreases subs, 1
  {
    LaterRefl(w, m);
    if subs != [] {
      var first := RanOnce(w, m, subs[0], ancestors);
      RanOnceKeeps(w, m, subs[0], ancestors);
      if !Done(subs[0]) { RanTraced(w, m, tactics[0], subs[0], ancestors); }
      AllTracedLater(w, m, first.0, tactics[1..], subs[1..], ancestors);
      AllShapedLater(w, subs[1..], |m.usages|, |first.0.usages|);
      if Stops(first.1, success) {
        FirstThenRest(w, first.0, tactics, first.1, subs[1..], ancestors);
      } else {
        var rest := RanUntil(w, first.0, subs[1..], ancestors, success);
        RanUntilTraced(w, first.0, tactics[1..], subs[1..], ancestors, success);
        LaterTransitive(w, m, first.0, rest.0);
        TracedLater(w, first.0, rest.0, tactics[0], first.1, ancestors);
        FirstThenRest(w, rest.0, tactics, first.1, rest.1, ancestors);
      }
    }
  }

  lemma FirstThenRest(w: World, m: Memory, tactics: seq<Tactic>, first: Task, rest: seq<Task>, ancestors: seq<Expr>)
    requires tactics != [] && Traced(w, m, tactics[0], first, ancestors)
             && AllTraced(w, m, tactics[1..], rest, ancestors)
    ensures AllTraced(w, m, tactics, [first] + rest, ancestors)
  {
    var subs := [first] + rest;
    assert subs[1..] == rest;
    forall i | 0 <= i < |tactics| ensures Traced(w, m, tactics[i], subs[i], ancestors) {
      if i > 0 {
        assert subs[i] == subs[1..][i - 1] && tactics[i] == tactics[1..][i - 1];
      }
    }
  }

  function Origins(subs: seq<Task>): (tactics: seq<Tactic>)
    ensures |tactics| == |subs| && forall i :: 0 <= i < |subs| ==> tactics[i] == Origin(subs[i])
  {
    seq(|subs|, i requires 0 <= i < |subs| => Origin(subs[i]))
  }

  // An any-task whose sub-tasks have been run.
  lemma AnyTraced(w: World, m: Memory, n: Memory, tactic: Tactic, t: Task, subs: seq<Task>, ancestors: seq<Expr>)
    requires t.kind.AnyOf? && !Done(t) && Traced(w, m, tactic, t, ancestors) && |subs| == |t.kind.subs|
    requires forall i :: 0 <= i < |subs| ==> Evolved(t.kind.subs[i], subs[i])
    requires AllTraced(w, n, Origins(t.kind.subs), subs, ancestors + [t.target])
    ensures Traced(w, n, tactic, t.(kind := AnyOf(subs)), ancestors) && Origins(subs) == Origins(t.kind.subs)
  {
    var were := t.kind.subs;
    forall i | 0 <= i < |subs|
      ensures Origin(subs[i]) == Origin(were[i]) && Traced(w, n, Origin(were[i]), subs[i], ancestors + [t.target])
    {
      assert Traced(w, n, Origins(were)[i], subs[i], ancestors + [t.target]);
      OriginIs(w, n, Origin(were[i]), subs[i], ancestors + [t.target]);
    }
    StillCovers(w, tactic, t.target, were, subs);
    forall i | 0 <= i < |subs|
      ensures subs[i].target == were[i].target && subs[i].usage == were[i].usage && subs[i].depth == were[i].depth
    {
      assert Evolved(were[i], subs[i]);
    }
  }

  lemma AnySucceeds(w: World, m: Memory, tactic: Tactic, t: Task, e: Expr, ancestors: seq<Expr>)
    requires AllSome(m.usages) && t.kind.AnyOf? && !Done(t) && Traced(w, m, tactic, t, ancestors)
    requires forall i :: 0 <= i < |t.kind.subs| ==> Shaped(w, t.kind.subs[i], |m.usages|)
    ensures Follows(w, m, tactic, Succeed(m, t, e), ancestors)
  {
    var subs, after := t.kind.subs, Succeed(m, t, e).0;
    SuccessLater(w, m, t, e);
    assert AllTraced(w, m, Origins(subs), subs, ancestors + [t.target]);
    AllTracedLater(w, m, after, Origins(subs), subs, ancestors + [t.target]);
    forall i | 0 <= i < |subs| ensures Traced(w, after, Origin(subs[i]), subs[i], ancestors + [t.target]) {
      assert Traced(w, after, Origins(subs)[i], subs[i], ancestors + [t.target]);
    }
  }

  lemma AnyFollows(w: World, m: Memory, tactic: Tactic, t: Task, r: (Memory, seq<Task>, nat), ancestors: seq<Expr>)
    requires t.kind.AnyOf? && !Done(t) && Traced(w, m, tactic, t, ancestors) && t.depth <= DEPTH_LIMIT
    requires Later(w, m, r.0) && Advanced(w, m, t.kind.subs, r, true)
    requires AllTraced(w, r.0, Origins(t.kind.subs), r.1, ancestors + [t.target])
    ensures var u := t.(kind := AnyOf(r.1));
            var after := if r.2 < |r.1| then Succeed(r.0, u, ResultOf(r.1[r.2]))
              else if AllFailed(r.1) then (r.0, Fail(u)) else (r.0, u);
            Follows(w, m, tactic, after, ancestors)
  {
    var u := t.(kind := AnyOf(r.1));
    AnyTraced(w, m, r.0, tactic, t, r.1, ancestors);
    if r.2 < |r.1| {
      AnySucceeds(w, r.0, tactic, u, ResultOf(r.1[r.2]), ancestors);
      LaterTransitive(w, m, r.0, Succeed(r.0, u, ResultOf(r.1[r.2])).0);
    }
  }

  lemma StillCovers(w: World, tactic: Tactic, target: Expr, subs: seq<Task>, later: seq<Task>)
    requires Covers(w, tactic, target, subs) && |later| == |subs|
    requires forall i :: 0 <= i < |subs| ==> Origin(later[i]) == Origin(subs[i])
    ensures Covers(w, tactic, target, later)
  {
    forall o ensures Tries(later, o) <==> Tries(subs, o) {
      if Tries(later, o) { var i :| 0 <= i < |later| && Origin(later[i]) == o; assert Origin(subs[i]) == o; }
      if Tries(subs, o) { var i :| 0 <= i < |subs| && Origin(subs[i]) == o; assert Origin(later[i]) == o; }
    }
  }

  function Searches(w: World, g: nat, types: seq<Expr>): (tactics: seq<Tactic>)
    requires g < |w.callees|
    ensures |tactics| == |types|
    ensures forall i :: 0 <= i < |types| ==> tactics[i] == Search(!Unifies(w.callees[g], types[i]))
  {
    seq(|types|, i requires 0 <= i < |types| => Search(!Unifies(w.callees[g], types[i])))
  }

  // An all-task whose sub-tasks have been run.
  lemma AllTasksTraced(w: World, m: Memory, n: Memory, tactic: Tactic, t: Task, subs: seq<Task>, ancestors: seq<Expr>)
    requires t.kind.AllOf? && !Done(t) && Traced(w, m, tactic, t, ancestors) && |subs| == |t.kind.subs|
    requires forall i :: 0 <= i < |subs| ==> Evolved(t.kind.subs[i], subs[i])
    requires AllTraced(w, n, Searches(w, t.kind.g, OpenTypes(t.kind.slots)), subs, ancestors + [t.target])
    ensures Traced(w, n, tactic, t.(kind := t.kind.(subs := subs)), ancestors)
  {
    forall i | 0 <= i < |subs|
      ensures var was := t.kind.subs[i];
              subs[i].target == was.target && subs[i].depth == was.depth && subs[i].usage == was.usage
    {
      assert Evolved(t.kind.subs[i], subs[i]);
    }
    forall i | 0 <= i < |subs|
      ensures Traced(w, n, Search(!Unifies(w.callees[t.kind.g], OpenTypes(t.kind.slots)[i])), subs[i],
          ancestors + [t.target])
    {
      assert Traced(w, n, Searches(w, t.kind.g, OpenTypes(t.kind.slots))[i], subs[i], ancestors + [t.target]);
    }
  }

  lemma AllFollow(w: World, m: Memory, tactic: Tactic, t: Task, r: (Memory, seq<Task>, nat), ancestors: seq<Expr>)
    requires t.kind.AllOf? && !Done(t) && Traced(w, m, tactic, t, ancestors) && t.depth <= DEPTH_LIMIT
    requires Shaped(w, t, |m.usages|) && Later(w, m, r.0) && Advanced(w, m, t.kind.subs, r, false)
    requires AllTraced(w, r.0, Searches(w, t.kind.g, OpenTypes(t.kind.slots)), r.1, ancestors + [t.target])
    ensures var u := t.(kind := t.kind.(subs := r.1));
            var after := if r.2 < |r.1| then (r.0, Fail(u)) else if AllSucceeded(r.1) then Finished(w, r.0, u)
              else (r.0, u);
            Follows(w, m, tactic, after, ancestors)
  {
    var u := t.(kind := t.kind.(subs := r.1));
    AllTasksTraced(w, m, r.0, tactic, t, r.1, ancestors);
    if r.2 == |r.1| && AllSucceeded(r.1) {
      Rebuilt(w, t, |m.usages|, r.1, |r.0.usages|);
      FinishedFollows(w, r.0, tactic, u, ancestors);
      LaterTransitive(w, m, r.0, Finished(w, r.0, u).0);
    } else if r.2 < |r.1| {
      assert r.1[r.2].status.Failed?;
    }
  }

  lemma FinishedFollows(w: World, m: Memory, tactic: Tactic, t: Task, ancestors: seq<Expr>)
    requires AllSome(m.usages) && t.kind.AllOf? && !Done(t) && AllSucceeded(t.kind.subs)
    requires Traced(w, m, tactic, t, ancestors) && Shaped(w, Fail(t), |m.usages|)
    ensures Follows(w, m, tactic, Finished(w, m, t), ancestors)
  {
    LaterRefl(w, m);
    var spent := Spend(w, m, t.usage, OfUsage(t.kind.temp));
    if spent.Some? {
      var after := Finished(w, m, t);
      SpentLater(w, m, t.usage, OfUsage(t.kind.temp));
      SuccessLater(w, spent.value, t, ResultOf(after.1));
      LaterTransitive(w, m, spent.value, after.0);
      var tactics := Searches(w, t.kind.g, OpenTypes(t.kind.slots));
      AllTracedLater(w, m, after.0, tactics, t.kind.subs, ancestors + [t.target]);
      forall i | 0 <= i < |t.kind.subs|
        ensures Traced(w, after.0, Search(!Unifies(w.callees[t.kind.g], OpenTypes(t.kind.slots)[i])), t.kind.subs[i],
            ancestors + [t.target])
      {
        assert Traced(w, after.0, tactics[i], t.kind.subs[i], ancestors + [t.target]);
      }
    }
  }

  // ---- what failure means ----

  // A sub-task of the functions tried for `t`.
  ghost predicate AttemptOf(t: Task, u: Task) {
    exists i, k :: t.kind.AnyOf? && 0 <= i < |t.kind.subs| && t.kind.subs[i].kind.AnyOf?
      && 0 <= k < |t.kind.subs[i].kind.subs| && u == t.kind.subs[i].kind.subs[k]
  }

  // Nothing is to be found without applying a function.
  ghost predicate NothingDirect(w: World, m: Memory, t: Task) {
    NoVariable(w, m, t) && !w.holds(t.target) && w.trivial(t.target).None?
  }

  // The search for one of the arguments that are left open has failed.
  ghost predicate ArgumentMissing(w: World, m: Memory, t: Task, ancestors: seq<Expr>)
    requires t.kind.AllOf? && t.kind.g < |w.callees|
  {
    exists i :: 0 <= i < |t.kind.subs| && t.kind.subs[i].status.Failed?
      && Traced(w, m, Search(!Unifies(w.callees[t.kind.g], t.kind.subs[i].target)), t.kind.subs[i],
           ancestors + [t.target])
  }

  // Why an attempt to apply a function is in vain: the function cannot be planned for the target with uses that are
  // allowed, or arguments are left open and one is not found, or what they use is too much.
  ghost predicate InVain(w: World, m: Memory, g: nat, t: Task, ancestors: seq<Expr>) {
    || !Affordable(w, m, t, g)
    || (&& t.kind.AllOf? && t.kind.g == g < |w.callees|
        && PlanOf(w.callees[g], t.target) == Some(t.kind.slots)
        && |t.kind.subs| == |OpenTypes(t.kind.slots)| > 0
        && (forall i :: 0 <= i < |t.kind.subs| ==> t.kind.subs[i].target == OpenTypes(t.kind.slots)[i])
        && (|| ArgumentMissing(w, m, t, ancestors)
            || (AllSucceeded(t.kind.subs) && Spend(w, m, t.usage, OfUsage(t.kind.temp)).None?)))
  }

  /** A search that failed, neither too deep nor in a loop, found nothing to use; a full one has also attempted every
      viable function in vain. */
  lemma FailureExplained(w: World, m: Memory, full: bool, t: Task, ancestors: seq<Expr>)
    requires Traced(w, m, Search(full), t, ancestors) && t.status.Failed?
    requires t.depth < DEPTH_LIMIT && !Loops(ancestors, t.target)
    ensures NothingDirect(w, m, t)
    ensures full ==> forall g :: 0 <= g < |w.callees| && Viable(w, w.callees[g], t.target) ==>
              exists u :: AttemptOf(t, u) && u.status.Failed? && u.target == t.target && u.usage == t.usage
                && InVain(w, m, g, u, ancestors + [t.target] + [t.target])
  {
    var subs := t.kind.subs;
    var c :| 0 <= c < |subs| && Origin(subs[c]) == FromContext;
    var d :| 0 <= d < |subs| && Origin(subs[d]) == FromTruth;
    var e :| 0 <= e < |subs| && Origin(subs[e]) == Trivial;
    assert Reason(w, m, FromContext, subs[c], ancestors + [t.target]);
    assert Reason(w, m, FromTruth, subs[d], ancestors + [t.target]);
    assert Reason(w, m, Trivial, subs[e], ancestors + [t.target]);
    forall g | full && 0 <= g < |w.callees| && Viable(w, w.callees[g], t.target)
      ensures exists u :: AttemptOf(t, u) && u.status.Failed? && u.target == t.target && u.usage == t.usage
                && InVain(w, m, g, u, ancestors + [t.target] + [t.target])
    {
      var f :| 0 <= f < |subs| && Origin(subs[f]) == FromGlobals;
      assert Reason(w, m, FromGlobals, subs[f], ancestors + [t.target]);
      var all := subs[f].kind.subs;
      assert Tries(all, ApplyGlobal(g));
      var k :| 0 <= k < |all| && Origin(all[k]) == ApplyGlobal(g);
      AttemptExplained(w, m, g, all[k], ancestors + [t.target] + [t.target]);
      assert AttemptOf(t, all[k]);
    }
  }

  lemma AttemptExplained(w: World, m: Memory, g: nat, t: Task, ancestors: seq<Expr>)
    requires Traced(w, m, ApplyGlobal(g), t, ancestors) && t.status.Failed? && t.depth <= DEPTH_LIMIT
    ensures InVain(w, m, g, t, ancestors)
  {
    if t.kind.AllOf? && exists i :: 0 <= i < |t.kind.subs| && t.kind.subs[i].status.Failed? {
      var i :| 0 <= i < |t.kind.subs| && t.kind.subs[i].status.Failed?;
      var u := t.kind.subs[i];
      assert Traced(w, m, Search(!Unifies(w.callees[g], u.target)), u, ancestors + [t.target]);
    }
  }

  /** What has been found once is there for every later search for it, full or quick, as far as its uses allow. */
  lemma FoundAgain(w: World, m: Memory, tactic: Tactic, t: Task, ancestors: seq<Expr>, n: Memory, u: Task, full: bool,
        path: seq<Expr>)
    requires Traced(w, m, tactic, t, ancestors) && t.status.Succeeded? && Later(w, m, n)
    requires u.kind == Single(Search(full)) && !Done(u) && u.target == t.target && u.depth <= DEPTH_LIMIT
    ensures Recall(n.cache, t.target).Some?
    ensures var hit := Recall(n.cache, t.target).value;
            Spend(w, n, u.usage, OfTerm(hit)).Some? ==> Ran(w, n, u, path).1 == u.(status := Succeeded(hit))
  {
    StillRecalled(m.cache, n.cache, t.target);
  }

  /** A quick search applies no function. */
  lemma QuickSearchApplies(w: World, m: Memory, t: Task, ancestors: seq<Expr>, u: Task)
    requires Traced(w, m, Search(false), t, ancestors) && t.kind.AnyOf? && u in t.kind.subs
    ensures u.kind in {Single(FromContext), Single(FromTruth), Single(Trivial)}
  {
    var i :| 0 <= i < |t.kind.subs| && t.kind.subs[i] == u;
    assert !Tries(t.kind.subs, FromGlobals);
    assert Traced(w, m, Origin(u), u, ancestors + [t.target]);
  }

  /** The functions attempted: what returns a type that unifies, would not make the term mutable where that is not
      allowed, and is an axiom only in erased contexts, and then no absurd one. */
  lemma ViableIff(w: World, c: Callee, target: Expr, args: seq<Expr>)
    ensures Viable(w, c, target) <==>
            && Unifies(c, target)
            && (Applied(c, args).isMutable ==> w.mutableAllowed)
            && (c.kind.Axiom? ==> w.multiplier == Zero && !IsAbsurd(c.pi))
  {
  }

  // ---- the whole search ----

  function Start(before: Counts): Memory {
    Memory([], [[[]] + before])
  }

  lemma {:induction false} RunsTraced(w: World, before: Counts, target: Expr, n: nat)
    requires before != []
    ensures var r := RanTimes(w, Start(before), MainTask(target), n);
            && Follows(w, Start(before), Search(true), r, []) && AllSome(r.0.usages) && Shaped(w, r.1, |r.0.usages|)
            && r.1.target == target && r.1.usage == 0 && r.1.depth == 0
  {
    if n == 0 {
      LaterRefl(w, Start(before));
    } else {
      RunsTraced(w, before, target, n - 1);
      var r := RanTimes(w, Start(before), MainTask(target), n - 1);
      RanOnceKeeps(w, r.0, r.1, []);
      if !Done(r.1) {
        RanTraced(w, r.0, Search(true), r.1, []);
        LaterTransitive(w, Start(before), r.0, RanOnce(w, r.0, r.1, []).0);
      }
    }
  }

  /** There is no proof just when the main task fails: its uses are never too much for the caller. */
  lemma ProofIffSuccess(w: World, before: Counts, target: Expr, n: nat)
    requires before != []
    ensures var end := RanTimes(w, Start(before), MainTask(target), n);
            Outcome(w, before, end).0 == if end.1.status.Succeeded? then Some(end.1.status.result) else None
  {
    RunsTraced(w, before, target, n);
    var end := RanTimes(w, Start(before), MainTask(target), n);
    assert Grew(w.declared, Start(before).usages[0], end.0.usages[0]);
    ExtensionFits(w.declared, before, end.0.usages[0]);
  }

  // What a search finds whatever else there is: something true, a trivial value, a function without parameters, or a
  // variable whose use is not too much.
  ghost predicate Evident(w: World, before: Counts, target: Expr) {
    || w.holds(target) || w.trivial(target).Some?
    || (exists g :: 0 <= g < |w.callees| && Viable(w, w.callees[g], target) && w.callees[g].pi.args == [])
    || EvidentVariable(w, before, target)
  }

  ghost predicate EvidentVariable(w: World, before: Counts, target: Expr) {
    exists i :: 0 <= i < |w.locals| && w.equivalent(w.locals[i].ty, target)
      && Spend(w, Start(before), 0, OfVariable(w.locals[i].v)).Some?
  }

  /** If there is no proof, every direct tactic and every viable function has been tried in vain, with what may still be
      used at the end. */
  lemma NoProofExplained(w: World, before: Counts, target: Expr, n: nat)
    requires before != []
    requires var end := RanTimes(w, Start(before), MainTask(target), n);
             Done(end.1) && Outcome(w, before, end).0.None?
    ensures var (m, t) := RanTimes(w, Start(before), MainTask(target), n);
            && NothingDirect(w, m, t)
            && forall g :: 0 <= g < |w.callees| && Viable(w, w.callees[g], target) ==>
                 exists u :: AttemptOf(t, u) && u.status.Failed? && u.target == target && u.usage == t.usage
                   && InVain(w, m, g, u, [target, target])
  {
    RunsTraced(w, before, target, n);
    ProofIffSuccess(w, before, target, n);
    var end := RanTimes(w, Start(before), MainTask(target), n);
    FailureExplained(w, end.0, true, end.1, []);
    var none: seq<Expr> := [];
    assert none + [target] + [target] == [target, target];
  }

  /** And whatever is evident has a proof. */
  lemma EvidentIsFound(w: World, before: Counts, target: Expr, n: nat)
    requires before != [] && Evident(w, before, target)
    requires Done(RanTimes(w, Start(before), MainTask(target), n).1)
    ensures Outcome(w, before, RanTimes(w, Start(before), MainTask(target), n)).0.Some?
  {
    var end := RanTimes(w, Start(before), MainTask(target), n);
    ProofIffSuccess(w, before, target, n);
    if EvidentVariable(w, before, target) {
      VariableFound(w, before, target, n);
    } else if Outcome(w, before, end).0.None? {
      RunsTraced(w, before, target, n);
      FailureExplained(w, end.0, true, end.1, []);
      var g :| 0 <= g < |w.callees| && Viable(w, w.callees[g], target) && w.callees[g].pi.args == [];
      WithoutParameters(w, end.0, g, end.1);
    }
  }

  lemma NotInVain(w: World, m: Memory, g: nat, t: Task, ancestors: seq<Expr>)
    requires t.usage < |m.usages| && AllSome(m.usages)
    requires g < |w.callees| && Viable(w, w.callees[g], t.target) && w.callees[g].pi.args == []
    ensures !InVain(w, m, g, t, ancestors)
  {
    var c := w.callees[g];
    assert PlanOf(c, t.target) == Some([]) && OpenTypes([]) == [];
    assert Affordable(w, m, t, g);
  }

  lemma WithoutParameters(w: World, m: Memory, g: nat, t: Task)
    requires Traced(w, m, Search(true), t, []) && t.depth == 0 && t.usage < |m.usages| && AllSome(m.usages)
    requires g < |w.callees| && Viable(w, w.callees[g], t.target) && w.callees[g].pi.args == []
    ensures !t.status.Failed?
  {
    if t.status.Failed? {
      FailureExplained(w, m, true, t, []);
      var none: seq<Expr> := [];
      var u :| AttemptOf(t, u) && u.status.Failed? && u.target == t.target && u.usage == t.usage
        && InVain(w, m, g, u, none + [t.target] + [t.target]);
      NotInVain(w, m, g, u, none + [t.target] + [t.target]);
    }
  }

  // A variable is found in the second run.
  lemma {:induction false} VariableFound(w: World, before: Counts, target: Expr, n: nat)
    requires before != [] && EvidentVariable(w, before, target)
    ensures var r := RanTimes(w, Start(before), MainTask(target), n); Done(r.1) ==> r.1.status.Succeeded?
  {
    if n > 2 {
      VariableFound(w, before, target, n - 1);
      SecondRun(w, before, target);
      StaysDone(w, before, target, n - 1);
    } else if n == 2 {
      SecondRun(w, before, target);
    } else if n == 1 {
      FirstRun(w, before, target);
    }
  }

  lemma FirstRun(w: World, before: Counts, target: Expr)
    ensures var r := RanTimes(w, Start(before), MainTask(target), 1);
            r.0 == Start(before) && !Done(r.1) && r.1.kind.AnyOf? && r.1.kind.subs != [] && r.1.depth == 0
            && r.1.target == target && r.1.kind.subs[0] == Task(Single(FromContext), InProgress, 1, target, 0)
  {
    var m, t := Start(before), MainTask(target);
    assert RanTimes(w, m, t, 0) == (m, t);
    assert RanTimes(w, m, t, 1) == RanOnce(w, m, t, []) == Ran(w, m, t, []);
    assert Ran(w, m, t, []) == ByAll(w, m, t, true, []);
  }

  lemma VariableAtOnce(w: World, before: Counts, target: Expr, t: Task, ancestors: seq<Expr>)
    requires before != [] && EvidentVariable(w, before, target)
    requires t == Task(Single(FromContext), InProgress, 1, target, 0)
    ensures RanOnce(w, Start(before), t, ancestors).1.status.Succeeded?
  {
    var m := Start(before);
    assert RanOnce(w, m, t, ancestors) == Ran(w, m, t, ancestors);
    ByContextFollows(w, m, t, 0, ancestors);
    var i :| 0 <= i < |w.locals| && w.equivalent(w.locals[i].ty, target)
      && Spend(w, m, 0, OfVariable(w.locals[i].v)).Some?;
    assert ByContext(w, m, t, 0).1.status.Succeeded?;
  }

  lemma SecondRun(w: World, before: Counts, target: Expr)
    requires before != [] && EvidentVariable(w, before, target)
    ensures RanTimes(w, Start(before), MainTask(target), 2).1.status.Succeeded?
  {
    FirstRun(w, before, target);
    var m, r := Start(before), RanTimes(w, Start(before), MainTask(target), 1);
    var c, none: seq<Expr> := r.1.kind.subs[0], [];
    VariableAtOnce(w, before, target, c, none + [target]);
    assert Stops(RanOnce(w, m, c, none + [target]).1, true);
    assert RanUntil(w, m, r.1.kind.subs, none + [target], true).2 == 0;
    assert RanTimes(w, m, MainTask(target), 2) == Ran(w, m, r.1, none);
  }

  lemma {:induction false} StaysDone(w: World, before: Counts, target: Expr, n: nat)
    requires n >= 2 && RanTimes(w, Start(before), MainTask(target), 2).1.status.Succeeded?
    ensures RanTimes(w, Start(before), MainTask(target), n) == RanTimes(w, Start(before), MainTask(target), 2)
  {
    if n > 2 { StaysDone(w, before, target, n - 1); }
  }
}
