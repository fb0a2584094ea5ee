/** What the proof search returns has the type that was searched for.

    The rules asked of typing say nothing about unification, plans or tasks. Names have to be fine in every plan that is
    made for a target reached on the way; that follows from what can be checked before the search. */
module SearchSoundness {
  import opened Ast
  import opened AlphaEquivalence
  import opened NamesApart
  import opened Unification
  import opened Planning
  import opened PlanNames
  import opened Usages
  import opened UsageTables
  import opened ProofSearch

  function Context(locals: seq<Local>): set<Var> {
    if locals == [] then {} else {locals[0].v} + Context(locals[1..])
  }

  // The rules of the type system as far as the tactics use them.
  ghost predicate Rules(w: World, j: Typing) {
    && Conversion(j)
    && (forall i :: 0 <= i < |w.locals| ==> j.has(VarE(w.locals[i].v), w.locals[i].ty))
    && (forall a, b :: w.equivalent(a, b) ==> j.conv(a, b))
    && (forall ty :: w.holds(ty) ==> j.has(Node(InitList, []), ty))
    && (forall ty :: w.trivial(ty).Some? ==> j.has(w.trivial(ty).value, ty))
    && (forall g :: 0 <= g < |w.callees| ==>
          Applies(j, w.callees[g]) && ComparesSorts(j, Context(w.locals), w.callees[g]))
  }

  // A plan for the target has fine names, and the types it leaves open are among the targets again.
  ghost predicate PlansAmong(w: World, targets: iset<Expr>, c: Callee, target: Expr) {
    && Fine(Context(w.locals), c, target)
    && (PlanOf(c, target).Some? ==>
          var open := OpenTypes(PlanOf(c, target).value); forall i :: 0 <= i < |open| ==> open[i] in targets)
  }

  ghost predicate FineAmong(w: World, targets: iset<Expr>) {
    forall g, ty :: 0 <= g < |w.callees| && ty in targets ==>
      Formed(w.callees[g]) && PlansAmong(w, targets, w.callees[g], ty)
  }

  // ---- what can be checked before the search ----

  function NamesIn(args: seq<Arg>): set<Var> {
    if args == [] then {} else (if args[0].name.Some? then {args[0].name.value} else {}) + NamesIn(args[1..])
  }

  function Params(callees: seq<Callee>): set<Var> {
    if callees == [] then {} else NamesIn(callees[0].pi.args) + Params(callees[1..])
  }

  ghost predicate Fresh(w: World) {
    forall g :: 0 <= g < |w.callees| ==>
      && Formed(w.callees[g]) && Apart(Params(w.callees), w.callees[g].pi)
      && UnindexedTypes(w.callees[g].pi.args) && PlainSorts(Context(w.locals), w.callees[g].pi)
  }

  /** Then all targets that are clear of the parameters have plans with fine names, and so on for what these leave
      open. */
  lemma FreshIsFine(w: World)
    requires Fresh(w)
    ensures FineAmong(w, iset ty | Clear(Params(w.callees), ty))
  {
    var targets := iset ty | Clear(Params(w.callees), ty);
    forall g, ty | 0 <= g < |w.callees| && ty in targets
      ensures Formed(w.callees[g]) && PlansAmong(w, targets, w.callees[g], ty)
    {
      ApartIsFine(Params(w.callees), Context(w.locals), w.callees[g], ty);
      if PlanOf(w.callees[g], ty).Some? { OpenTypesClear(Params(w.callees), PlanOf(w.callees[g], ty).value); }
    }
  }

  lemma {:induction false} OpenTypesClear(params: set<Var>, slots: seq<Slot>)
    requires ClearSlots(params, slots)
    ensures forall i :: 0 <= i < |OpenTypes(slots)| ==> Clear(params, OpenTypes(slots)[i])
  {
    if slots != [] {
      assert forall i :: 0 <= i < |slots[1..]| ==> slots[1..][i] == slots[i + 1];
      OpenTypesClear(params, slots[1..]);
    }
  }

  // ---- what one run keeps ----

  // Every result has the type that was searched for.
  ghost predicate Typed(j: Typing, targets: iset<Expr>, t: Task)
    decreases t
  {
    && t.target in targets
    && (t.status.Succeeded? ==> j.has(t.status.result, t.target))
    && (!t.kind.Single? ==> forall i :: 0 <= i < |t.kind.subs| ==> Typed(j, targets, t.kind.subs[i]))
  }

  ghost predicate CacheTyped(j: Typing, cache: seq<Cached>) {
    forall i :: 0 <= i < |cache| ==> j.has(cache[i].value, cache[i].target)
  }

  ghost predicate Sound(j: Typing, targets: iset<Expr>, r: (Memory, Task)) {
    CacheTyped(j, r.0.cache) && Typed(j, targets, r.1)
  }

  // What the lemmas below are about.
  ghost predicate Ready(w: World, j: Typing, targets: iset<Expr>, m: Memory) {
    Rules(w, j) && FineAmong(w, targets) && CacheTyped(j, m.cache) && AllSome(m.usages)
  }

  lemma {:induction false} RecallTyped(j: Typing, cache: seq<Cached>, target: Expr)
    requires Conversion(j) && CacheTyped(j, cache)
    ensures Recall(cache, target).Some? ==> j.has(Recall(cache, target).value, target)
  {
    if cache != [] {
      if AlphaEq(cache[0].target, target) {
        AlphaSound(cache[0].target, target);
      } else {
        assert CacheTyped(j, cache[1..]);
        RecallTyped(j, cache[1..], target);
      }
    }
  }

  lemma {:induction false} BuildFills(j: Typing, slots: seq<Slot>, results: seq<Expr>)
    requires |results| == |OpenTypes(slots)|
    requires forall i :: 0 <= i < |results| ==> j.has(results[i], OpenTypes(slots)[i])
    ensures Filled(j, slots, Build(slots, results))
  {
    if slots != [] {
      var rest := if slots[0].Open? then results[1..] else results;
      if slots[0].Open? {
        assert forall i :: 0 <= i < |rest| ==> OpenTypes(slots[1..])[i] == OpenTypes(slots)[i + 1];
      }
      BuildFills(j, slots[1..], rest);
      var args, tail := Build(slots, results), Build(slots[1..], rest);
      forall i | 0 <= i < |args|
        ensures match slots[i] case Known(v) => args[i] == v case Open(ty) => j.has(args[i], ty)
      {
        if i > 0 { assert args[i] == tail[i - 1] && slots[i] == slots[1..][i - 1]; }
      }
    }
  }

  lemma {:induction false} ByContextTyped(w: World, j: Typing, targets: iset<Expr>, m: Memory, t: Task, i: nat)
    requires Ready(w, j, targets, m) && Typed(j, targets, t) && !Done(t)
    ensures Sound(j, targets, ByContext(w, m, t, i))
    decreases |w.locals| - i
  {
    if i < |w.locals| { ByContextTyped(w, j, targets, m, t, i + 1); }
  }

  lemma {:induction false} CandidatesTyped(w: World, j: Typing, targets: iset<Expr>, t: Task, n: nat)
    requires n <= |w.callees| && t.target in targets
    ensures forall i :: 0 <= i < |Candidates(w, t, n)| ==> Typed(j, targets, Candidates(w, t, n)[i])
  {
    if n > 0 { CandidatesTyped(w, j, targets, t, n - 1); }
  }

  // An application that is built as planned has the target type.
  lemma BuiltTyped(w: World, j: Typing, targets: iset<Expr>, g: nat, target: Expr, results: seq<Expr>)
    requires Rules(w, j) && FineAmong(w, targets) && g < |w.callees| && target in targets
    requires PlanOf(w.callees[g], target).Some?
    requires var open := OpenTypes(PlanOf(w.callees[g], target).value);
             |results| == |open| && forall i :: 0 <= i < |open| ==> j.has(results[i], open[i])
    ensures j.has(Applied(w.callees[g], Build(PlanOf(w.callees[g], target).value, results)), target)
  {
    var c := w.callees[g];
    BuildFills(j, PlanOf(c, target).value, results);
    assert PlansAmong(w, targets, c, target);
    PlannedHasType(j, Context(w.locals), c, target, Build(PlanOf(c, target).value, results));
  }

  lemma SubTasksTyped(w: World, j: Typing, targets: iset<Expr>, g: nat, t: Task, temp: nat)
    requires FineAmong(w, targets) && g < |w.callees| && t.target in targets && PlanOf(w.callees[g], t.target).Some?
    ensures var open := OpenTypes(PlanOf(w.callees[g], t.target).value);
            forall i :: 0 <= i < |open| ==>
              Typed(j, targets, SubTasks(w, w.callees[g], open, t.depth, temp)[i])
  {
    assert PlansAmong(w, targets, w.callees[g], t.target);
  }

  lemma ByApplyingTyped(w: World, j: Typing, targets: iset<Expr>, m: Memory, t: Task, g: nat)
    requires Rules(w, j) && FineAmong(w, targets) && CacheTyped(j, m.cache)
    requires g < |w.callees| && Typed(j, targets, t) && t.kind.Single? && !Done(t)
    ensures Sound(j, targets, ByApplying(w, m, t, g))
  {
    var c := w.callees[g];
    var found := if c.pi.end.PiEnd? then Unify(c.sorts, c.pi.end.ret, t.target) else None;
    if found.Some? {
      WalkPlans(w, m, t.usage, found.value, ArgNames(c.pi.args), c.pi);
      var walked := Walk(w, m, t.usage, found.value, ArgNames(c.pi.args), c.pi);
      if walked.0.Some? {
        assert PlanOf(c, t.target) == Some(walked.0.value);
        if OpenTypes(walked.0.value) == [] {
          BuiltTyped(w, j, targets, g, t.target, []);
        } else {
          SubTasksTyped(w, j, targets, g, t, |walked.1.usages|);
        }
      }
    }
  }

  lemma TriedTyped(w: World, j: Typing, targets: iset<Expr>, m: Memory, t: Task, ancestors: seq<Expr>)
    requires Ready(w, j, targets, m) && t.kind.Single? && !Done(t) && Shaped(w, t, |m.usages|) && Typed(j, targets, t)
    ensures Sound(j, targets, Tried(w, m, t, t.kind.tactic, ancestors))
  {
    match t.kind.tactic
    case Search(_) => RecallTyped(j, m.cache, t.target);
    case FromContext => ByContextTyped(w, j, targets, m, t, 0);
    case FromTruth =>
    case Trivial =>
    case FromGlobals => CandidatesTyped(w, j, targets, t, |w.callees|);
    case ApplyGlobal(g) => ByApplyingTyped(w, j, targets, m, t, g);
  }

  /** One run keeps every result, cached or not, of the type that was searched for. */
  lemma {:induction false} RanTyped(w: World, j: Typing, targets: iset<Expr>, m: Memory, t: Task,
        ancestors: seq<Expr>)
    requires Ready(w, j, targets, m) && Shaped(w, t, |m.usages|) && Typed(j, targets, t) && !Done(t)
    ensures Sound(j, targets, Ran(w, m, t, ancestors))
    decreases t, 2
  {
    if t.depth <= DEPTH_LIMIT {
      if t.kind.Single? {
        TriedTyped(w, j, targets, m, t, ancestors);
      } else {
        var r := RanUntil(w, m, t.kind.subs, ancestors + [t.target], t.kind.AnyOf?);
        RanUntilTyped(w, j, targets, m, t.kind.subs, ancestors + [t.target], t.kind.AnyOf?);
        RanUntilKeeps(w, m, t.kind.subs, ancestors + [t.target], t.kind.AnyOf?);
        if t.kind.AnyOf? { AnyTyped(w, j, targets, m, t, r); } else { AllTyped(w, j, targets, m, t, r); }
      }
    }
  }

  lemma {:induction false} RanUntilTyped(w: World, j: Typing, targets: iset<Expr>, m: Memory, subs: seq<Task>,
        ancestors: seq<Expr>, success: bool)
    requires Ready(w, j, targets, m)
    requires forall i :: 0 <= i < |subs| ==> Shaped(w, subs[i], |m.usages|) && Typed(j, targets, subs[i])
    ensures var r := RanUntil(w, m, subs, ancestors, success);
            CacheTyped(j, r.0.cache) && forall i :: 0 <= i < |subs| ==> Typed(j, targets, r.1[i])
    decreases subs, 1
  {
    if subs != [] {
      var first := RanOnce(w, m, subs[0], ancestors);
      RanOnceKeeps(w, m, subs[0], ancestors);
      if !Done(subs[0]) { RanTyped(w, j, targets, m, subs[0], ancestors); }
      assert forall i :: 1 <= i < |subs| ==> subs[i] == subs[1..][i - 1];
      if !Stops(first.1, success) {
        AllShapedLater(w, subs[1..], |m.usages|, |first.0.usages|);
        RanUntilTyped(w, j, targets, first.0, subs[1..], ancestors, success);
      }
    }
  }

  lemma AnyTyped(w: World, j: Typing, targets: iset<Expr>, m: Memory, t: Task, r: (Memory, seq<Task>, nat))
    requires t.kind.AnyOf? && !Done(t) && Shaped(w, t, |m.usages|) && Advanced(w, m, t.kind.subs, r, true)
    requires Typed(j, targets, t) && CacheTyped(j, r.0.cache)
    requires forall i :: 0 <= i < |r.1| ==> Typed(j, targets, r.1[i])
    ensures var u := t.(kind := AnyOf(r.1));
            var after := if r.2 < |r.1| then Succeed(r.0, u, ResultOf(r.1[r.2]))
              else if AllFailed(r.1) then (r.0, Fail(u)) else (r.0, u);
            Sound(j, targets, after)
  {
    if r.2 < |r.1| { assert Evolved(t.kind.subs[r.2], r.1[r.2]) && r.1[r.2].target == t.target; }
  }

  lemma AllTyped(w: World, j: Typing, targets: iset<Expr>, m: Memory, t: Task, r: (Memory, seq<Task>, nat))
    requires Rules(w, j) && FineAmong(w, targets) && t.kind.AllOf? && !Done(t) && Shaped(w, t, |m.usages|)
    requires Advanced(w, m, t.kind.subs, r, false)
    requires Typed(j, targets, t) && CacheTyped(j, r.0.cache)
    requires forall i :: 0 <= i < |r.1| ==> Typed(j, targets, r.1[i])
    ensures var u := t.(kind := t.kind.(subs := r.1));
            var after := if r.2 < |r.1| then (r.0, Fail(u)) else if AllSucceeded(r.1) then Finished(w, r.0, u)
              else (r.0, u);
            Sound(j, targets, after)
  {
    var u := t.(kind := t.kind.(subs := r.1));
    if r.2 == |r.1| && AllSucceeded(r.1) {
      Rebuilt(w, t, |m.usages|, r.1, |r.0.usages|);
      FinishedTyped(w, j, targets, r.0, u);
    }
  }

  lemma FinishedTyped(w: World, j: Typing, targets: iset<Expr>, m: Memory, t: Task)
    requires Ready(w, j, targets, m) && t.kind.AllOf? && !Done(t) && AllSucceeded(t.kind.subs)
    requires Shaped(w, Fail(t), |m.usages|) && Typed(j, targets, t)
    ensures Sound(j, targets, Finished(w, m, t))
  {
    var subs, slots := t.kind.subs, t.kind.slots;
    forall i | 0 <= i < |subs| ensures j.has(Results(subs)[i], OpenTypes(slots)[i]) {
      assert Typed(j, targets, subs[i]) && subs[i].target == OpenTypes(slots)[i];
    }
    BuiltTyped(w, j, targets, t.kind.g, t.target, Results(subs));
  }

  // ---- the whole search ----

  lemma {:induction false} RanTimesTyped(w: World, j: Typing, targets: iset<Expr>, m: Memory, t: Task, n: nat)
    requires Ready(w, j, targets, m) && Shaped(w, t, |m.usages|) && Typed(j, targets, t)
    ensures var r := RanTimes(w, m, t, n);
            Sound(j, targets, r) && AllSome(r.0.usages) && Shaped(w, r.1, |r.0.usages|) && r.1.target == t.target
  {
    if n > 0 {
      RanTimesTyped(w, j, targets, m, t, n - 1);
      var before := RanTimes(w, m, t, n - 1);
      RanOnceKeeps(w, before.0, before.1, []);
      if !Done(before.1) { RanTyped(w, j, targets, before.0, before.1, []); }
    }
  }

  /** Whatever `SearchProof` returns has the target type. */
  lemma ProofHasType(w: World, j: Typing, targets: iset<Expr>, before: Counts, target: Expr, n: nat)
    requires Rules(w, j) && FineAmong(w, targets) && target in targets && before != []
    ensures var proof := Outcome(w, before, RanTimes(w, Memory([], [[[]] + before]), MainTask(target), n)).0;
            proof.Some? ==> j.has(proof.value, target)
  {
    RanTimesTyped(w, j, targets, Memory([], [[[]] + before]), MainTask(target), n);
  }

  /** And what can be checked before the search is enough for that. */
  lemma FreshProofHasType(w: World, j: Typing, before: Counts, target: Expr, n: nat)
    requires Rules(w, j) && Fresh(w) && Clear(Params(w.callees), target) && before != []
    ensures var proof := Outcome(w, before, RanTimes(w, Memory([], [[[]] + before]), MainTask(target), n)).0;
            proof.Some? ==> j.has(proof.value, target)
  {
    FreshIsFine(w);
    var targets := iset ty | Clear(Params(w.callees), ty);
    ProofHasType(w, j, targets, before, target, n);
  }
}
