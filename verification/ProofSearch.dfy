/** Proof search: a tree of tasks that is run until the root has finished.

    A task has one owner, so a tree of values stands for the shared pointers, and the chain of parents is passed down
    as the list of their targets. What one run does is a function of task, cache and counts; the class at the end
    computes it on usage objects that share frames, and the lemmas between say what it keeps. */
module ProofSearch {
  import opened Ast
  import opened Binders
  import opened AlphaEquivalence
  import opened Unification
  import opened Planning
  import opened ScopeMaps
  import opened Usages
  import opened UsageTables

  datatype Tactic = Search(full: bool) | FromContext | FromTruth | Trivial | FromGlobals | ApplyGlobal(g: nat)

  datatype Kind =
    | Single(tactic: Tactic)
    | AnyOf(subs: seq<Task>)
    | AllOf(subs: seq<Task>, temp: nat, g: nat, slots: seq<Slot>)

  datatype Status = InProgress | Failed | Succeeded(result: Expr)
  datatype Task = Task(kind: Kind, status: Status, depth: nat, target: Expr, usage: nat)

  datatype Local = Local(v: Var, ty: Expr)

  // The environment, the context and the judgements the tactics rely on.
  datatype World = World(
    locals: seq<Local>,
    declared: Declared,
    callees: seq<Callee>,
    mutableAllowed: bool,
    multiplier: Qty,
    equivalent: (Expr, Expr) -> bool,
    holds: Expr -> bool,                 // the target is `true_t` of something that is true or known to be
    trivial: Expr -> Option<Expr>)

  datatype Cached = Cached(target: Expr, value: Expr)

  const DEPTH_LIMIT := 10

  predicate Viable(w: World, c: Callee, target: Expr) {
    && (match c.kind
        case Axiom => w.multiplier == Zero && !IsAbsurd(c.pi)
        case Extern => w.mutableAllowed
        case Function(m) => !m || w.mutableAllowed)
    && Unifies(c, target)
  }

  predicate Unifies(c: Callee, target: Expr) {
    c.pi.end.PiEnd? && Unify(c.sorts, c.pi.end.ret, target).Some?
  }

  // The return type is bound to an argument that no later argument constrains.
  predicate IsAbsurd(pi: Tele) {
    pi.end.PiEnd? && pi.end.ret.VarE? && BoundUnconstrained(pi.end.ret.v, pi.args)
  }

  predicate BoundUnconstrained(v: Var, args: seq<Arg>) {
    args != [] &&
    if args[0].name == Some(v) then !OccursInTele(v, Tele(args[1..], SigmaEnd), false)
    else BoundUnconstrained(v, args[1..])
  }

  // ---- what holds of every task ----

  predicate Done(t: Task) {
    !t.status.InProgress?
  }

  function OpenTypes(slots: seq<Slot>): seq<Expr> {
    if slots == [] then []
    else if slots[0].Open? then [slots[0].ty] + OpenTypes(slots[1..])
    else OpenTypes(slots[1..])
  }

  // ---- what keeps the tree in shape ----

  // An unfinished task has no sub-task that decides it, and if it waits it has something to wait for.
  predicate Waits(t: Task, subs: seq<Task>) {
    !Done(t) ==>
      && (forall i :: 0 <= i < |subs| ==> !Stops(subs[i], t.kind.AnyOf?))
      && (subs != [] ==> exists i :: 0 <= i < |subs| && !Done(subs[i]))
  }

  // Sub-tasks have the targets they were made for, and count on usage objects that exist.
  ghost predicate Shaped(w: World, t: Task, usages: nat)
    decreases t
  {
    && t.usage < usages && t.depth <= DEPTH_LIMIT + 1
    && match t.kind
       case Single(ApplyGlobal(g)) => g < |w.callees|
       case Single(_) => true
       case AnyOf(subs) =>
         Waits(t, subs) && forall i :: 0 <= i < |subs| ==> subs[i].target == t.target && Shaped(w, subs[i], usages)
       case AllOf(subs, temp, g, slots) =>
         && temp < usages && g < |w.callees| && PlanOf(w.callees[g], t.target) == Some(slots)
         && |subs| == |OpenTypes(slots)| && Waits(t, subs)
         && forall i :: 0 <= i < |subs| ==> subs[i].target == OpenTypes(slots)[i] && Shaped(w, subs[i], usages)
  }

  // ---- how tasks change ----

  // A finished task stays as it is; the others keep what they are for, and so do their sub-tasks.
  predicate Evolved(t: Task, r: Task)
    decreases t
  {
    && r.target == t.target && r.depth == t.depth && r.usage == t.usage
    && (Done(t) ==> r == t)
    && match t.kind
       case Single(_) => true
       case AnyOf(subs) =>
         r.kind.AnyOf? && |r.kind.subs| == |subs| && forall i :: 0 <= i < |subs| ==> Evolved(subs[i], r.kind.subs[i])
       case AllOf(subs, temp, g, slots) =>
         && r.kind.AllOf? && r.kind.temp == temp && r.kind.g == g && r.kind.slots == slots
         && |r.kind.subs| == |subs| && forall i :: 0 <= i < |subs| ==> Evolved(subs[i], r.kind.subs[i])
  }

  lemma {:induction false} EvolvedRefl(t: Task)
    ensures Evolved(t, t)
    decreases t
  {
    if !t.kind.Single? {
      forall i | 0 <= i < |t.kind.subs| ensures Evolved(t.kind.subs[i], t.kind.subs[i]) { EvolvedRefl(t.kind.subs[i]); }
    }
  }

  // ---- the measure ----

  // How many steps are left: three tactics for each depth still allowed.
  function Rank(tactic: Tactic, depth: nat): nat {
    var left := if depth <= DEPTH_LIMIT + 1 then DEPTH_LIMIT + 1 - depth else 0;
    match tactic
    case Search(_) => 3 * left
    case ApplyGlobal(_) => 3 * left + 1
    case FromGlobals => 3 * left + 2
    case _ => 0
  }

  function Weight(branching: nat, rank: nat): (n: nat)
    ensures n >= 1
  {
    if rank == 0 then 1 else 2 + branching * Weight(branching, rank - 1)
  }

  function Measure(branching: nat, t: Task): nat
    decreases t, 1
  {
    if Done(t) then 0
    else match t.kind
         case Single(tactic) => Weight(branching, Rank(tactic, t.depth))
         case AnyOf(subs) => 1 + Total(branching, subs)
         case AllOf(subs, _, _, _) => 1 + Total(branching, subs)
  }

  function Total(branching: nat, ts: seq<Task>): nat
    decreases ts, 0
  {
    if ts == [] then 0 else Measure(branching, ts[0]) + Total(branching, ts[1..])
  }

  function MostArgs(callees: seq<Callee>): nat {
    if callees == [] then 0 else Max(|callees[0].pi.args|, MostArgs(callees[1..]))
  }

  // No task has more sub-tasks than this.
  function Branching(w: World): nat {
    4 + |w.callees| + MostArgs(w.callees)
  }

  lemma {:induction false} ArgsBounded(callees: seq<Callee>, g: nat)
    requires g < |callees|
    ensures |callees[g].pi.args| <= MostArgs(callees)
  {
    if g > 0 { ArgsBounded(callees[1..], g - 1); }
  }

  lemma {:induction false} WeightMonotone(branching: nat, r: nat, q: nat)
    requires r <= q && branching >= 1
    ensures Weight(branching, r) <= Weight(branching, q)
    decreases q - r
  {
    if r < q {
      assert branching * Weight(branching, q - 1) >= Weight(branching, q - 1);
      WeightMonotone(branching, r, q - 1);
    }
  }

  lemma {:induction false} TotalBounded(branching: nat, ts: seq<Task>, bound: nat)
    requires forall i :: 0 <= i < |ts| ==> Measure(branching, ts[i]) <= bound
    ensures Total(branching, ts) <= |ts| * bound
  {
    if ts != [] {
      TotalBounded(branching, ts[1..], bound);
      assert |ts| * bound == bound + |ts[1..]| * bound;
    }
  }

  lemma {:induction false} TotalUpdate(branching: nat, ts: seq<Task>, i: nat, r: Task)
    requires i < |ts|
    ensures Total(branching, ts[i := r]) == Total(branching, ts) - Measure(branching, ts[i]) + Measure(branching, r)
    ensures Measure(branching, ts[i]) <= Total(branching, ts)
  {
    if i == 0 {
      assert ts[0 := r][1..] == ts[1..];
    } else {
      assert ts[i := r][1..] == ts[1..][i - 1 := r];
      TotalUpdate(branching, ts[1..], i - 1, r);
    }
  }

  // What a tactic spawns weighs less than the tactic did.
  lemma SpawnLighter(w: World, t: Task, subs: seq<Task>)
    requires t.kind.Single? && !Done(t) && |subs| <= Branching(w)
    requires forall i :: 0 <= i < |subs| ==>
               subs[i].kind.Single? && !Done(subs[i])
                 && Rank(subs[i].kind.tactic, subs[i].depth) < Rank(t.kind.tactic, t.depth)
    requires Rank(t.kind.tactic, t.depth) > 0
    ensures 1 + Total(Branching(w), subs) < Measure(Branching(w), t)
  {
    var n, rank := Branching(w), Rank(t.kind.tactic, t.depth);
    var bound := Weight(n, rank - 1);
    forall i | 0 <= i < |subs| ensures Measure(n, subs[i]) <= bound {
      WeightMonotone(n, Rank(subs[i].kind.tactic, subs[i].depth), rank - 1);
    }
    TotalBounded(n, subs, bound);
    TimesMonotone(|subs|, n, bound);
  }

  lemma TimesMonotone(a: nat, b: nat, n: nat)
    requires a <= b
    ensures a * n <= b * n
  {
  }

  // The arguments, with the results of the sub-tasks where they were open.
  function Build(slots: seq<Slot>, results: seq<Expr>): (args: seq<Expr>)
    requires |results| == |OpenTypes(slots)|
    ensures |args| == |slots|
  {
    if slots == [] then []
    else if slots[0].Open? then [results[0]] + Build(slots[1..], results[1..])
    else [slots[0].value] + Build(slots[1..], results)
  }

  lemma AfterStep(done: seq<Slot>, slot: Slot, tail: Option<seq<Slot>>)
    ensures After(done, After([slot], tail)) == After(done + [slot], tail)
  {
    if tail.Some? { assert done + ([slot] + tail.value) == (done + [slot]) + tail.value; }
  }

  lemma {:induction false} OpenAtMost(slots: seq<Slot>)
    ensures |OpenTypes(slots)| <= |slots|
  {
    if slots != [] { OpenAtMost(slots[1..]); }
  }

  lemma {:induction false} OpenAppend(slots: seq<Slot>, slot: Slot)
    ensures OpenTypes(slots + [slot]) == OpenTypes(slots) + if slot.Open? then [slot.ty] else []
  {
    if slots == [] {
      assert slots + [slot] == [slot] && [slot][1..] == [];
    } else {
      assert (slots + [slot])[0] == slots[0] && (slots + [slot])[1..] == slots[1..] + [slot];
      OpenAppend(slots[1..], slot);
    }
  }

  lemma {:induction false} PlanLength(s: Bindings, names: seq<Option<Var>>, t: Tele)
    requires |names| == |t.args|
    ensures Plan(s, names, t).Some? ==> |Plan(s, names, t).value| == |t.args|
    decreases |t.args|
  {
    if t.args != [] && Next(s, names[0], t).Some? {
      var next := Next(s, names[0], t).value;
      PlanLength(next.1, names[1..], next.2);
    }
  }

  // ---- one run, as a function ----

  // The cache of results and the usage objects.
  datatype Memory = Memory(cache: seq<Cached>, usages: seq<Counts>)

  function Recall(cache: seq<Cached>, target: Expr): Option<Expr> {
    if cache == [] then None
    else if AlphaEq(cache[0].target, target) then Some(cache[0].value)
    else Recall(cache[1..], target)
  }

  function Remember(cache: seq<Cached>, target: Expr, e: Expr): seq<Cached> {
    if Recall(cache, target).Some? then cache else cache + [Cached(target, e)]
  }

  function Fail(t: Task): Task {
    t.(status := Failed)
  }

  function Succeed(m: Memory, t: Task, e: Expr): (Memory, Task) {
    (m.(cache := Remember(m.cache, t.target, e)), t.(status := Succeeded(e)))
  }

  // Uses counted through one of the usage objects, unless they are too much.
  function Spend(w: World, m: Memory, usage: nat, use: Use): (r: Option<Memory>)
    ensures r.Some? ==> r.value.cache == m.cache && |r.value.usages| == |m.usages|
    ensures r.Some? && AllSome(m.usages) ==> AllSome(r.value.usages)
  {
    match Add(w.declared, m.usages, usage, use, w.multiplier) case None => None case Some(us) => Some(m.(usages := us))
  }

  // The first variable of a fitting type that may still be used.
  function ByContext(w: World, m: Memory, t: Task, i: nat): (Memory, Task)
    decreases |w.locals| - i
  {
    if i >= |w.locals| then (m, t)
    else
      var local := w.locals[i];
      var spent := if w.equivalent(local.ty, t.target) then Spend(w, m, t.usage, OfVariable(local.v)) else None;
      if spent.Some? then Succeed(spent.value, t, VarE(local.v)) else ByContext(w, m, t, i + 1)
  }

  // From the cache if the uses allow it; not at all if an ancestor searches for the same; otherwise by sub-tasks.
  function ByAll(w: World, m: Memory, t: Task, full: bool, ancestors: seq<Expr>): (Memory, Task) {
    var hit := Recall(m.cache, t.target);
    var spent := if hit.Some? then Spend(w, m, t.usage, OfTerm(hit.value)) else None;
    if spent.Some? then Succeed(spent.value, t, hit.value)
    else if Loops(ancestors, t.target) then (m, Fail(t))
    else
      var tactics := if full then [FromContext, FromTruth, Trivial, FromGlobals] else [FromContext, FromTruth, Trivial];
      (m, t.(kind := AnyOf(Spawn(tactics, t.depth + 1, t.target, t.usage))))
  }

  predicate Loops(ancestors: seq<Expr>, target: Expr) {
    exists i :: 0 <= i < |ancestors| && AlphaEq(ancestors[i], target)
  }

  function Spawn(tactics: seq<Tactic>, depth: nat, target: Expr, usage: nat): (subs: seq<Task>)
    ensures |subs| == |tactics|
  {
    seq(|tactics|, i requires 0 <= i < |tactics| => Task(Single(tactics[i]), InProgress, depth, target, usage))
  }

  // One sub-task for each of the first `n` functions whose result could have the target type.
  function Candidates(w: World, t: Task, n: nat): (subs: seq<Task>)
    requires n <= |w.callees|
    ensures |subs| <= n
  {
    if n == 0 then []
    else if Viable(w, w.callees[n - 1], t.target) then
      Candidates(w, t, n - 1) + [Task(Single(ApplyGlobal(n - 1)), InProgress, t.depth, t.target, t.usage)]
    else Candidates(w, t, n - 1)
  }

  // Unified arguments are used up on the way, even if a later argument makes the attempt fail.
  function Walk(w: World, m: Memory, usage: nat, s: Bindings, names: seq<Option<Var>>,
        t: Tele): (r: (Option<seq<Slot>>, Memory))
    requires |names| == |t.args|
    ensures r.1.cache == m.cache && |r.1.usages| == |m.usages| && (AllSome(m.usages) ==> AllSome(r.1.usages))
    decreases |t.args|
  {
    if t.args == [] then (Some([]), m)
    else
      var next := Next(s, names[0], t);
      if next.None? then (None, m)
      else
        var slot := next.value.0;
        var spent := if slot.Known? then Spend(w, m, usage, OfTerm(slot.value)) else Some(m);
        if spent.None? then (None, m)
        else
          var rest := Walk(w, spent.value, usage, next.value.1, names[1..], next.value.2);
          (After([slot], rest.0), rest.1)
  }

  // A path that could go on forever is only searched quickly.
  function SubTasks(w: World, c: Callee, types: seq<Expr>, depth: nat, temp: nat): (subs: seq<Task>)
    ensures |subs| == |types|
  {
    seq(|types|, i requires 0 <= i < |types| => Task(Single(Search(!Unifies(c, types[i]))), InProgress, depth,
      types[i], temp))
  }

  function ByApplying(w: World, m: Memory, t: Task, g: nat): (Memory, Task)
    requires g < |w.callees|
  {
    var c := w.callees[g];
    var found := if c.pi.end.PiEnd? then Unify(c.sorts, c.pi.end.ret, t.target) else None;
    if found.None? then (m, t)
    else
      var walked := Walk(w, m, t.usage, found.value, ArgNames(c.pi.args), c.pi);
      if walked.0.None? || t.usage >= |m.usages| then (walked.1, t)
      else
        var slots, after := walked.0.value, walked.1;
        if OpenTypes(slots) == [] then Succeed(after, t, Applied(c, Build(slots, [])))
        else
          var temp := |after.usages|;
          (after.(usages := after.usages + [[[]] + after.usages[t.usage]]),
           t.(kind := AllOf(SubTasks(w, c, OpenTypes(slots), t.depth, temp), temp, g, slots)))
  }

  function Tried(w: World, m: Memory, t: Task, tactic: Tactic, ancestors: seq<Expr>): (Memory, Task) {
    match tactic
    case Search(full) => ByAll(w, m, t, full, ancestors)
    case FromContext => ByContext(w, m, t, 0)
    case FromTruth => if w.holds(t.target) then Succeed(m, t, Node(InitList, [])) else (m, t)
    case Trivial => if w.trivial(t.target).Some? then Succeed(m, t, w.trivial(t.target).value) else (m, t)
    case FromGlobals => (m, t.(kind := AnyOf(Candidates(w, t, |w.callees|))))
    case ApplyGlobal(g) => if g < |w.callees| then ByApplying(w, m, t, g) else (m, t)
  }

  function Ran(w: World, m: Memory, t: Task, ancestors: seq<Expr>): (Memory, Task)
    decreases t, 2
  {
    if t.depth > DEPTH_LIMIT then (m, Fail(t))
    else match t.kind
      case Single(tactic) =>
        var r := Tried(w, m, t, tactic, ancestors);
        if !Done(r.1) && r.1.kind.Single? then (r.0, Fail(r.1)) else r  // neither success nor sub-tasks: failure
      case AnyOf(subs) =>
        var r := RanUntil(w, m, subs, ancestors + [t.target], true);
        var u := t.(kind := AnyOf(r.1));
        if r.2 < |subs| then Succeed(r.0, u, ResultOf(r.1[r.2]))
        else if AllFailed(r.1) then (r.0, Fail(u))
        else (r.0, u)
      case AllOf(subs, temp, g, slots) =>
        var r := RanUntil(w, m, subs, ancestors + [t.target], false);
        var u := t.(kind := t.kind.(subs := r.1));
        if r.2 < |subs| then (r.0, Fail(u))
        else if AllSucceeded(r.1) then Finished(w, r.0, u)
        else (r.0, u)
  }

  // Runs the unfinished sub-tasks up to the first that has succeeded, or failed; also says which one that is.
  function RanUntil(w: World, m: Memory, subs: seq<Task>, ancestors: seq<Expr>,
        success: bool): (r: (Memory, seq<Task>, nat))
    ensures |r.1| == |subs| && r.2 <= |subs|
    decreases subs, 1
  {
    if subs == [] then (m, [], 0)
    else
      var first := RanOnce(w, m, subs[0], ancestors);
      if Stops(first.1, success) then (first.0, [first.1] + subs[1..], 0)
      else
        var rest := RanUntil(w, first.0, subs[1..], ancestors, success);
        (rest.0, [first.1] + rest.1, rest.2 + 1)
  }

  function RanOnce(w: World, m: Memory, t: Task, ancestors: seq<Expr>): (Memory, Task)
    decreases t, 3
  {
    if Done(t) then (m, t) else Ran(w, m, t, ancestors)
  }

  predicate Stops(t: Task, success: bool) {
    if success then t.status.Succeeded? else t.status.Failed?
  }

  predicate AllFailed(ts: seq<Task>) {
    forall i :: 0 <= i < |ts| ==> ts[i].status.Failed?
  }

  predicate AllSucceeded(ts: seq<Task>) {
    forall i :: 0 <= i < |ts| ==> ts[i].status.Succeeded?
  }

  function ResultOf(t: Task): Expr {
    if t.status.Succeeded? then t.status.result else t.target
  }

  function Results(ts: seq<Task>): (es: seq<Expr>)
    ensures |es| == |ts|
  {
    seq(|ts|, i requires 0 <= i < |ts| => ResultOf(ts[i]))
  }

  // All sub-tasks have succeeded: their uses are added to those of the task, and their results make up its own.
  function Finished(w: World, m: Memory, t: Task): (Memory, Task)
    requires t.kind.AllOf?
  {
    var spent := Spend(w, m, t.usage, OfUsage(t.kind.temp));
    if spent.None? || t.kind.g >= |w.callees| || |t.kind.subs| != |OpenTypes(t.kind.slots)| then (m, Fail(t))
    else Succeed(spent.value, t, Applied(w.callees[t.kind.g], Build(t.kind.slots, Results(t.kind.subs))))
  }

  lemma {:induction false} ShapedLater(w: World, t: Task, n: nat, later: nat)
    requires Shaped(w, t, n) && n <= later
    ensures Shaped(w, t, later)
    decreases t
  {
    if !t.kind.Single? {
      forall i | 0 <= i < |t.kind.subs| ensures Shaped(w, t.kind.subs[i], later) {
        ShapedLater(w, t.kind.subs[i], n, later);
      }
    }
  }

  // ---- what one run keeps ----

  ghost predicate Keeps(w: World, m: Memory, t: Task, r: (Memory, Task)) {
    AllSome(r.0.usages) && |r.0.usages| >= |m.usages| && Shaped(w, r.1, |r.0.usages|) && Evolved(t, r.1)
  }

  lemma SucceedKeeps(w: World, m: Memory, t: Task, e: Expr)
    requires AllSome(m.usages) && !Done(t) && Shaped(w, Fail(t), |m.usages|)
    ensures Keeps(w, m, t, Succeed(m, t, e)) && Done(Succeed(m, t, e).1)
  {
    EvolvedRefl(t);
  }

  lemma {:induction false} ByContextKeeps(w: World, m: Memory, t: Task, i: nat)
    requires AllSome(m.usages) && t.kind.Single? && !Done(t) && Shaped(w, t, |m.usages|)
    ensures var r := ByContext(w, m, t, i); Keeps(w, m, t, r) && (r == (m, t) || Done(r.1))
    decreases |w.locals| - i
  {
    if i < |w.locals| {
      var local := w.locals[i];
      var spent := if w.equivalent(local.ty, t.target) then Spend(w, m, t.usage, OfVariable(local.v)) else None;
      if spent.Some? {
        SucceedKeeps(w, spent.value, t, VarE(local.v));
      } else {
        ByContextKeeps(w, m, t, i + 1);
      }
    }
  }

  lemma ByAllKeeps(w: World, m: Memory, t: Task, full: bool, ancestors: seq<Expr>)
    requires AllSome(m.usages) && t.kind == Single(Search(full)) && !Done(t) && Shaped(w, t, |m.usages|)
    requires t.depth <= DEPTH_LIMIT
    ensures var r := ByAll(w, m, t, full, ancestors);
            Keeps(w, m, t, r) && Measure(Branching(w), r.1) < Measure(Branching(w), t)
  {
    var hit := Recall(m.cache, t.target);
    var spent := if hit.Some? then Spend(w, m, t.usage, OfTerm(hit.value)) else None;
    if spent.Some? {
      SucceedKeeps(w, spent.value, t, hit.value);
    } else if !Loops(ancestors, t.target) {
      SpawnKeeps(w, m, t, if full then [FromContext, FromTruth, Trivial, FromGlobals]
        else [FromContext, FromTruth, Trivial]);
    }
  }

  lemma SpawnKeeps(w: World, m: Memory, t: Task, tactics: seq<Tactic>)
    requires AllSome(m.usages) && t.kind.Single? && t.kind.tactic.Search? && !Done(t) && Shaped(w, t, |m.usages|)
             && t.depth <= DEPTH_LIMIT
    requires 0 < |tactics| <= 4 && forall i :: 0 <= i < |tactics| ==>
             tactics[i] in {FromContext, FromTruth, Trivial, FromGlobals}
    ensures var r := t.(kind := AnyOf(Spawn(tactics, t.depth + 1, t.target, t.usage)));
            Keeps(w, m, t, (m, r)) && Measure(Branching(w), r) < Measure(Branching(w), t)
  {
    var subs := Spawn(tactics, t.depth + 1, t.target, t.usage);
    assert !Done(subs[0]);
    forall i | 0 <= i < |subs| ensures Rank(subs[i].kind.tactic, subs[i].depth) < Rank(t.kind.tactic, t.depth) {
      assert subs[i].kind.tactic in {FromContext, FromTruth, Trivial, FromGlobals};
    }
    SpawnLighter(w, t, subs);
  }

  lemma {:induction false} CandidatesApply(w: World, t: Task, n: nat)
    requires n <= |w.callees|
    ensures forall i :: 0 <= i < |Candidates(w, t, n)| ==>
              var u := Candidates(w, t, n)[i];
              u.kind.Single? && u.kind.tactic.ApplyGlobal? && u.kind.tactic.g < n
                && u == Task(u.kind, InProgress, t.depth, t.target, t.usage)
  {
    if n > 0 { CandidatesApply(w, t, n - 1); }
  }

  lemma FromGlobalsKeeps(w: World, m: Memory, t: Task)
    requires AllSome(m.usages) && t.kind == Single(FromGlobals) && !Done(t) && Shaped(w, t, |m.usages|)
    ensures var r := t.(kind := AnyOf(Candidates(w, t, |w.callees|)));
            Keeps(w, m, t, (m, r)) && Measure(Branching(w), r) < Measure(Branching(w), t)
  {
    var subs := Candidates(w, t, |w.callees|);
    CandidatesApply(w, t, |w.callees|);
    assert subs != [] ==> !Done(subs[0]);
    SpawnLighter(w, t, subs);
  }

  lemma {:induction false} WalkPlans(w: World, m: Memory, usage: nat, s: Bindings, names: seq<Option<Var>>, t: Tele)
    requires |names| == |t.args|
    ensures Walk(w, m, usage, s, names, t).0.Some? ==> Walk(w, m, usage, s, names, t).0 == Plan(s, names, t)
    decreases |t.args|
  {
    if t.args != [] && Next(s, names[0], t).Some? {
      var next := Next(s, names[0], t).value;
      var spent := if next.0.Known? then Spend(w, m, usage, OfTerm(next.0.value)) else Some(m);
      if spent.Some? { WalkPlans(w, spent.value, usage, next.1, names[1..], next.2); }
    }
  }

  lemma PlanBounded(w: World, g: nat, target: Expr)
    requires g < |w.callees| && PlanOf(w.callees[g], target).Some?
    ensures |OpenTypes(PlanOf(w.callees[g], target).value)| <= Branching(w)
  {
    var pi := w.callees[g].pi;
    PlanLength(Unify(w.callees[g].sorts, pi.end.ret, target).value, ArgNames(pi.args), pi);
    OpenAtMost(PlanOf(w.callees[g], target).value);
    ArgsBounded(w.callees, g);
  }

  lemma ByApplyingKeeps(w: World, m: Memory, t: Task, g: nat)
    requires AllSome(m.usages) && t.kind == Single(ApplyGlobal(g)) && !Done(t) && Shaped(w, t, |m.usages|)
    ensures var r := ByApplying(w, m, t, g);
            AllSome(r.0.usages) && |r.0.usages| >= |m.usages| && (r.1 == t || Keeps(w, m, t, r))
            && (r.1 == t || Measure(Branching(w), r.1) < Measure(Branching(w), t))
  {
    var c := w.callees[g];
    var found := if c.pi.end.PiEnd? then Unify(c.sorts, c.pi.end.ret, t.target) else None;
    if found.Some? {
      WalkPlans(w, m, t.usage, found.value, ArgNames(c.pi.args), c.pi);
      var walked := Walk(w, m, t.usage, found.value, ArgNames(c.pi.args), c.pi);
      if walked.0.Some? {
        var slots := walked.0.value;
        assert PlanOf(c, t.target) == Some(slots);
        if OpenTypes(slots) == [] {
          SucceedKeeps(w, walked.1, t, Applied(c, Build(slots, [])));
        } else {
          PlanBounded(w, g, t.target);
          SubTasksKeep(w, walked.1, t, g, slots);
        }
      }
    }
  }

  lemma SubTasksKeep(w: World, m: Memory, t: Task, g: nat, slots: seq<Slot>)
    requires AllSome(m.usages) && t.kind == Single(ApplyGlobal(g)) && !Done(t) && Shaped(w, t, |m.usages|)
    requires PlanOf(w.callees[g], t.target) == Some(slots) && 0 < |OpenTypes(slots)| <= Branching(w)
    ensures var temp := |m.usages|;
            var subs := SubTasks(w, w.callees[g], OpenTypes(slots), t.depth, temp);
            var r := t.(kind := AllOf(subs, temp, g, slots));
            && Keeps(w, m, t, (m.(usages := m.usages + [[[]] + m.usages[t.usage]]), r))
            && Measure(Branching(w), r) < Measure(Branching(w), t)
  {
    var subs, after := SubTasks(w, w.callees[g], OpenTypes(slots), t.depth, |m.usages|),
      m.usages + [[[]] + m.usages[t.usage]];
    assert !Done(subs[0]);
    SpawnLighter(w, t, subs);
    forall i | 0 <= i < |subs| ensures Shaped(w, subs[i], |after|) && subs[i].target == OpenTypes(slots)[i] {
      assert subs[i].kind.Single? && subs[i].kind.tactic.Search?;
    }
  }

  lemma TriedKeeps(w: World, m: Memory, t: Task, ancestors: seq<Expr>)
    requires AllSome(m.usages) && t.kind.Single? && !Done(t) && Shaped(w, t, |m.usages|) && t.depth <= DEPTH_LIMIT
    ensures var r := Ran(w, m, t, ancestors);
            Keeps(w, m, t, r) && Measure(Branching(w), r.1) < Measure(Branching(w), t)
  {
    match t.kind.tactic
    case Search(full) => ByAllKeeps(w, m, t, full, ancestors);
    case FromContext => ByContextKeeps(w, m, t, 0);
    case FromTruth => if w.holds(t.target) { SucceedKeeps(w, m, t, Node(InitList, [])); }
    case Trivial => if w.trivial(t.target).Some? { SucceedKeeps(w, m, t, w.trivial(t.target).value); }
    case FromGlobals => FromGlobalsKeeps(w, m, t);
    case ApplyGlobal(g) =>
      ByApplyingKeeps(w, m, t, g);
      ShapedLater(w, t, |m.usages|, |ByApplying(w, m, t, g).0.usages|);
  }

  /** One run of an unfinished task makes it lighter, changes no finished task and keeps the tree in shape, whatever the
      types and names in it. So the search ends without its deadline. */
  lemma {:induction false} RanKeeps(w: World, m: Memory, t: Task, ancestors: seq<Expr>)
    requires AllSome(m.usages) && Shaped(w, t, |m.usages|) && !Done(t)
    ensures var r := Ran(w, m, t, ancestors);
            Keeps(w, m, t, r) && Measure(Branching(w), r.1) < Measure(Branching(w), t)
    decreases t, 2
  {
    EvolvedRefl(t);
    if t.depth <= DEPTH_LIMIT {
      if t.kind.Single? {
        TriedKeeps(w, m, t, ancestors);
      } else {
        var r := RanUntil(w, m, t.kind.subs, ancestors + [t.target], t.kind.AnyOf?);
        RanUntilKeeps(w, m, t.kind.subs, ancestors + [t.target], t.kind.AnyOf?);
        if t.kind.AnyOf? { AnyKeeps(w, m, t, r); } else { AllKeep(w, m, t, r); }
      }
    }
  }

  // What has become of some sub-tasks.
  ghost predicate Advanced(w: World, m: Memory, subs: seq<Task>, r: (Memory, seq<Task>, nat), success: bool) {
    && AllSome(r.0.usages) && |r.0.usages| >= |m.usages| && |r.1| == |subs| && r.2 <= |subs|
    && (forall i :: 0 <= i < |subs| ==> Shaped(w, r.1[i], |r.0.usages|) && Evolved(subs[i], r.1[i]))
    && (forall i :: 0 <= i < r.2 ==> !Stops(r.1[i], success))
    && (r.2 < |subs| ==> Stops(r.1[r.2], success))
    && Total(Branching(w), r.1) <= Total(Branching(w), subs)
    && (r.2 == |subs| && (exists i :: 0 <= i < |subs| && !Done(subs[i])) ==>
       Total(Branching(w), r.1) < Total(Branching(w), subs))
  }

  lemma {:induction false} RanUntilKeeps(w: World, m: Memory, subs: seq<Task>, ancestors: seq<Expr>, success: bool)
    requires AllSome(m.usages) && forall i :: 0 <= i < |subs| ==> Shaped(w, subs[i], |m.usages|)
    ensures Advanced(w, m, subs, RanUntil(w, m, subs, ancestors, success), success)
    decreases subs, 1
  {
    if subs != [] {
      var first := RanOnce(w, m, subs[0], ancestors);
      RanOnceKeeps(w, m, subs[0], ancestors);
      AllShapedLater(w, subs[1..], |m.usages|, |first.0.usages|);
      if Stops(first.1, success) {
        StoppedAtFirst(w, m, subs, first, success);
      } else {
        RanUntilKeeps(w, first.0, subs[1..], ancestors, success);
        OneMore(w, m, subs, first, RanUntil(w, first.0, subs[1..], ancestors, success), success);
      }
    }
  }

  lemma RanOnceKeeps(w: World, m: Memory, t: Task, ancestors: seq<Expr>)
    requires AllSome(m.usages) && Shaped(w, t, |m.usages|)
    ensures var r := RanOnce(w, m, t, ancestors);
            && Keeps(w, m, t, r)
            && if Done(t) then r == (m, t) else Measure(Branching(w), r.1) < Measure(Branching(w), t)
    decreases t, 3
  {
    if Done(t) { EvolvedRefl(t); } else { RanKeeps(w, m, t, ancestors); }
  }

  lemma AllShapedLater(w: World, ts: seq<Task>, n: nat, later: nat)
    requires n <= later && forall i :: 0 <= i < |ts| ==> Shaped(w, ts[i], n)
    ensures forall i :: 0 <= i < |ts| ==> Shaped(w, ts[i], later)
  {
    forall i | 0 <= i < |ts| ensures Shaped(w, ts[i], later) { ShapedLater(w, ts[i], n, later); }
  }

  lemma StoppedAtFirst(w: World, m: Memory, subs: seq<Task>, first: (Memory, Task), success: bool)
    requires subs != [] && Keeps(w, m, subs[0], first) && Stops(first.1, success)
    requires Measure(Branching(w), first.1) <= Measure(Branching(w), subs[0])
    requires forall i :: 0 <= i < |subs[1..]| ==> Shaped(w, subs[1..][i], |first.0.usages|)
    ensures Advanced(w, m, subs, (first.0, [first.1] + subs[1..], 0), success)
  {
    assert forall i :: 1 <= i < |subs| ==> subs[i] == subs[1..][i - 1];
    assert ([first.1] + subs[1..])[1..] == subs[1..];
    forall i | 1 <= i < |subs| ensures Evolved(subs[i], subs[i]) { EvolvedRefl(subs[i]); }
  }

  lemma OneMore(w: World, m: Memory, subs: seq<Task>, first: (Memory, Task), rest: (Memory, seq<Task>, nat),
        success: bool)
    requires subs != [] && Keeps(w, m, subs[0], first) && !Stops(first.1, success)
    requires if Done(subs[0]) then first.1 == subs[0]
             else Measure(Branching(w), first.1) < Measure(Branching(w), subs[0])
    requires Advanced(w, first.0, subs[1..], rest, success)
    ensures Advanced(w, m, subs, (rest.0, [first.1] + rest.1, rest.2 + 1), success)
  {
    var all := [first.1] + rest.1;
    assert all[1..] == rest.1;
    ShapedLater(w, first.1, |first.0.usages|, |rest.0.usages|);
    forall i | 1 <= i < |subs|
      ensures Shaped(w, all[i], |rest.0.usages|) && Evolved(subs[i], all[i])
    {
      assert subs[i] == subs[1..][i - 1] && all[i] == rest.1[i - 1];
    }
    if exists i :: 0 <= i < |subs| && !Done(subs[i]) {
      var i :| 0 <= i < |subs| && !Done(subs[i]);
      if i > 0 { assert !Done(subs[1..][i - 1]); }
    }
  }

  // A task whose sub-tasks have evolved has evolved, and as a failed task it would be in shape.
  lemma Rebuilt(w: World, t: Task, n: nat, subs: seq<Task>, later: nat)
    requires !t.kind.Single? && !Done(t) && Shaped(w, t, n) && n <= later && |subs| == |t.kind.subs|
    requires forall i :: 0 <= i < |subs| ==> Shaped(w, subs[i], later) && Evolved(t.kind.subs[i], subs[i])
    ensures var r := if t.kind.AnyOf? then t.(kind := AnyOf(subs)) else t.(kind := t.kind.(subs := subs));
            Evolved(t, r) && Shaped(w, Fail(r), later)
  {
    ShapedLater(w, t, n, later);
  }

  lemma AnyKeeps(w: World, m: Memory, t: Task, r: (Memory, seq<Task>, nat))
    requires t.kind.AnyOf? && !Done(t) && Shaped(w, t, |m.usages|) && Advanced(w, m, t.kind.subs, r, true)
    ensures var u := t.(kind := AnyOf(r.1));
            var after := if r.2 < |r.1| then Succeed(r.0, u, ResultOf(r.1[r.2]))
              else if AllFailed(r.1) then (r.0, Fail(u)) else (r.0, u);
            Keeps(w, m, t, after) && Measure(Branching(w), after.1) < Measure(Branching(w), t)
  {
    Rebuilt(w, t, |m.usages|, r.1, |r.0.usages|);
    var u := t.(kind := AnyOf(r.1));
    if r.2 < |r.1| {
      assert Shaped(w, r.1[r.2], |r.0.usages|) && r.1[r.2].target == t.kind.subs[r.2].target == t.target;
      SucceedKeeps(w, r.0, u, ResultOf(r.1[r.2]));
    }
  }

  lemma AllKeep(w: World, m: Memory, t: Task, r: (Memory, seq<Task>, nat))
    requires t.kind.AllOf? && !Done(t) && Shaped(w, t, |m.usages|)
    requires Advanced(w, m, t.kind.subs, r, false)
    ensures var u := t.(kind := t.kind.(subs := r.1));
            var after := if r.2 < |r.1| then (r.0, Fail(u)) else if AllSucceeded(r.1) then Finished(w, r.0, u)
              else (r.0, u);
            Keeps(w, m, t, after) && Measure(Branching(w), after.1) < Measure(Branching(w), t)
  {
    Rebuilt(w, t, |m.usages|, r.1, |r.0.usages|);
    var u := t.(kind := t.kind.(subs := r.1));
    if r.2 == |r.1| && AllSucceeded(r.1) { FinishedKeeps(w, r.0, u); }
  }

  lemma FinishedKeeps(w: World, m: Memory, t: Task)
    requires AllSome(m.usages) && t.kind.AllOf? && !Done(t) && Shaped(w, Fail(t), |m.usages|)
    requires AllSucceeded(t.kind.subs)
    ensures Keeps(w, m, t, Finished(w, m, t)) && Done(Finished(w, m, t).1)
  {
    EvolvedRefl(t);
    var spent := Spend(w, m, t.usage, OfUsage(t.kind.temp));
    if spent.Some? {
      SucceedKeeps(w, spent.value, t, Applied(w.callees[t.kind.g], Build(t.kind.slots, Results(t.kind.subs))));
    }
  }

  // The search starts with the root, and runs it until it has finished.
  function MainTask(target: Expr): Task {
    Task(Single(Search(true)), InProgress, 0, target, 0)
  }

  function RanTimes(w: World, m: Memory, t: Task, n: nat): (Memory, Task) {
    if n == 0 then (m, t) else var before := RanTimes(w, m, t, n - 1); RanOnce(w, before.0, before.1, [])
  }

  lemma RanUntilAt(w: World, m: Memory, subs: seq<Task>, i: nat, ancestors: seq<Expr>, success: bool)
    requires i < |subs|
    ensures var first := RanOnce(w, m, subs[i], ancestors);
            var rest := RanUntil(w, first.0, subs[i + 1..], ancestors, success);
            RanUntil(w, m, subs[i..], ancestors, success) ==
            if Stops(first.1, success) then (first.0, [first.1] + subs[i + 1..], 0)
            else (rest.0, [first.1] + rest.1, rest.2 + 1)
  {
    assert subs[i..][0] == subs[i] && subs[i..][1..] == subs[i + 1..];
  }

  lemma AppendOne<T>(a: seq<T>, x: T, b: seq<T>)
    ensures a + ([x] + b) == (a + [x]) + b
  {
  }

  // ---- the search as the source runs it ----

  class SearchState {
    const w: World
    const table: UsageTable
    var cache: seq<Cached>

    ghost predicate Valid()
      reads this, table, table.repr
    {
      this !in table.repr && table.Valid() && table.declared == w.declared && AllSome(table.views)
    }

    // What a run works on: the usage objects by what they see, but for totals that decide nothing.
    ghost function Now(): Memory
      reads this, table
    {
      Memory(cache, table.views)
    }

    constructor (w: World, table: UsageTable)
      requires table.Valid() && table.declared == w.declared && AllSome(table.views)
      ensures this.w == w && this.table == table && Valid() && Now() == Memory([], table.views)
    {
      this.w, this.table, cache := w, table, [];
    }

    method Find(target: Expr) returns (e: Option<Expr>)
      ensures e == Recall(cache, target)
    {
      for i := 0 to |cache|
        invariant Recall(cache[i..], target) == Recall(cache, target)
      {
        assert cache[i..][0] == cache[i] && cache[i..][1..] == cache[i + 1..];
        if AlphaEq(cache[i].target, target) {
          return Some(cache[i].value);
        }
      }
      return None;
    }

    method SetResult(t: Task, e: Expr) returns (r: Task)
      requires Valid()
      modifies this`cache
      ensures Valid() && (Now(), r) == Succeed(old(Now()), t, e)
    {
      var known := Find(t.target);
      if known.None? {
        cache := cache + [Cached(t.target, e)];
      }
      r := t.(status := Succeeded(e));
    }

    /** Uses counted through the object that belongs to a task, unless they are too much. */
    method TrySpend(usage: nat, use: Use) returns (ok: bool)
      requires Valid()
      modifies table`views, table`own, table`repr, table.own
      ensures Valid() && fresh(table.own - old(table.own))
      ensures var spent := Spend(w, old(Now()), usage, use);
              ok == spent.Some? && Now() == if ok then spent.value else old(Now())
    {
      ok := table.TrySpend(usage, use, w.multiplier);
    }

    method SearchContext(t: Task) returns (r: Task)
      requires Valid()
      modifies this`cache, table, table.own
      ensures Valid() && fresh(table.own - old(table.own)) && (Now(), r) == ByContext(w, old(Now()), t, 0)
    {
      for i := 0 to |w.locals|
        invariant Valid() && fresh(table.own - old(table.own))
        invariant Now() == old(Now()) && ByContext(w, Now(), t, i) == ByContext(w, Now(), t, 0)
      {
        var local := w.locals[i];
        if w.equivalent(local.ty, t.target) {
          var spent := TrySpend(t.usage, OfVariable(local.v));
          if spent {
            r := SetResult(t, VarE(local.v));
            return;
          }
        }
      }
      return t;
    }

    method SearchByAll(t: Task, full: bool, ancestors: seq<Expr>) returns (r: Task)
      requires Valid()
      modifies this`cache, table, table.own
      ensures Valid() && fresh(table.own - old(table.own)) && (Now(), r) == ByAll(w, old(Now()), t, full, ancestors)
    {
      var hit := Find(t.target);
      if hit.Some? {
        var spent := TrySpend(t.usage, OfTerm(hit.value));
        if spent {
          r := SetResult(t, hit.value);
          return;
        }
      }
      var loops := DetectLoop(ancestors, t.target);
      if loops {
        return Fail(t);
      }
      var tactics := if full then [FromContext, FromTruth, Trivial, FromGlobals] else [FromContext, FromTruth, Trivial];
      r := t.(kind := AnyOf(Spawn(tactics, t.depth + 1, t.target, t.usage)));
    }

    /** Some ancestor, from the parent up to the root, searches for the same. */
    method DetectLoop(ancestors: seq<Expr>, target: Expr) returns (found: bool)
      ensures found <==> exists i :: 0 <= i < |ancestors| && AlphaEq(ancestors[i], target)
    {
      var i := |ancestors|;
      while i > 0
        invariant 0 <= i <= |ancestors|
        invariant forall k :: i <= k < |ancestors| ==> !AlphaEq(ancestors[k], target)
      {
        i := i - 1;
        if AlphaEq(ancestors[i], target) {
          return true;
        }
      }
      return false;
    }

    method SearchGlobals(t: Task) returns (r: Task)
      ensures r == t.(kind := AnyOf(Candidates(w, t, |w.callees|)))
    {
      var subs: seq<Task> := [];
      for g := 0 to |w.callees|
        invariant subs == Candidates(w, t, g)
      {
        if Viable(w, w.callees[g], t.target) {
          subs := subs + [Task(Single(ApplyGlobal(g)), InProgress, t.depth, t.target, t.usage)];
        }
      }
      r := t.(kind := AnyOf(subs));
    }

    // The loop over the arguments, which uses up the substitution and rewrites the type of the application as it goes.
    method Arguments(usage: nat, s: Bindings, pi: Tele) returns (slots: Option<seq<Slot>>)
      requires Valid()
      modifies table, table.own
      ensures Valid() && fresh(table.own - old(table.own))
      ensures (slots, Now()) == Walk(w, old(Now()), usage, s, ArgNames(pi.args), pi)
    {
      var bindings, names, rest, done := s, ArgNames(pi.args), pi, [];
      ghost var whole := Walk(w, Now(), usage, s, names, pi);
      assert whole.0.Some? ==> [] + whole.0.value == whole.0.value;
      while rest.args != []
        invariant Valid() && fresh(table.own - old(table.own)) && cache == old(cache) && |names| == |rest.args|
        invariant var tail := Walk(w, Now(), usage, bindings, names, rest); whole == (After(done, tail.0), tail.1)
        decreases |rest.args|
      {
        var next := Next(bindings, names[0], rest);
        if next.None? {
          return None;
        }
        var slot := next.value.0;
        ghost var before := Now();
        var spent := true;
        if slot.Known? {
          spent := TrySpend(usage, OfTerm(slot.value));
        }
        if !spent {
          return None;
        }
        AfterStep(done, slot, Walk(w, Now(), usage, next.value.1, names[1..], next.value.2).0);
        bindings, names, rest, done := next.value.1, names[1..], next.value.2, done + [slot];
      }
      assert done + [] == done;
      return Some(done);
    }

    method TryApply(t: Task, g: nat) returns (r: Task)
      requires Valid() && g < |w.callees|
      modifies this`cache, table, table.own
      ensures Valid() && fresh(table.own - old(table.own)) && (Now(), r) == ByApplying(w, old(Now()), t, g)
    {
      var c := w.callees[g];
      if !c.pi.end.PiEnd? {
        return t;
      }
      var found := Unify(c.sorts, c.pi.end.ret, t.target);
      if found.None? {
        return t;
      }
      var plan := Arguments(t.usage, found.value, c.pi);
      if plan.None? || t.usage >= |table.usages| {
        return t;
      }
      if OpenTypes(plan.value) == [] {
        r := SetResult(t, Applied(c, Build(plan.value, [])));
      } else {
        var temp := |table.usages|;
        table.Extend(t.usage);
        r := t.(kind := AllOf(SubTasks(w, c, OpenTypes(plan.value), t.depth, temp), temp, g, plan.value));
      }
    }

    method TryTactic(t: Task, tactic: Tactic, ancestors: seq<Expr>) returns (r: Task)
      requires Valid()
      modifies this`cache, table, table.own
      ensures Valid() && fresh(table.own - old(table.own)) && (Now(), r) == Tried(w, old(Now()), t, tactic, ancestors)
    {
      r := t;
      match tactic
      case Search(full) => r := SearchByAll(t, full, ancestors);
      case FromContext => r := SearchContext(t);
      case FromTruth =>
        if w.holds(t.target) {
          r := SetResult(t, Node(InitList, []));
        }
      case Trivial =>
        var e := w.trivial(t.target);
        if e.Some? {
          r := SetResult(t, e.value);
        }
      case FromGlobals => r := SearchGlobals(t);
      case ApplyGlobal(g) =>
        if g < |w.callees| {
          r := TryApply(t, g);
        }
    }

    method Run(t: Task, ancestors: seq<Expr>) returns (r: Task)
      requires Valid()
      modifies this`cache, table, table.own
      ensures Valid() && fresh(table.own - old(table.own)) && (Now(), r) == Ran(w, old(Now()), t, ancestors)
      decreases t, 2
    {
      if t.depth > DEPTH_LIMIT {
        return Fail(t);
      }
      match t.kind
      case Single(tactic) =>
        r := TryTactic(t, tactic, ancestors);
        if !Done(r) && r.kind.Single? {
          r := Fail(r);
        }
      case AnyOf(subs) =>
        var after, i := RunUntil(subs, ancestors + [t.target], true);
        r := t.(kind := AnyOf(after));
        if i < |subs| {
          r := SetResult(r, ResultOf(after[i]));
        } else if AllFailed(after) {
          r := Fail(r);
        }
      case AllOf(subs, temp, g, slots) =>
        var after, i := RunUntil(subs, ancestors + [t.target], false);
        r := t.(kind := t.kind.(subs := after));
        if i < |subs| {
          r := Fail(r);
        } else if AllSucceeded(after) {
          r := Finish(r);
        }
    }

    method RunUntil(subs: seq<Task>, ancestors: seq<Expr>, success: bool) returns (after: seq<Task>, i: nat)
      requires Valid()
      modifies this`cache, table, table.own
      ensures Valid() && fresh(table.own - old(table.own))
      ensures (Now(), after, i) == RanUntil(w, old(Now()), subs, ancestors, success)
      decreases subs, 1
    {
      after, i := [], 0;
      ghost var whole := RanUntil(w, Now(), subs, ancestors, success);
      assert subs[0..] == subs && [] + whole.1 == whole.1;
      while i < |subs|
        invariant Valid() && fresh(table.own - old(table.own)) && |after| == i <= |subs|
        invariant var rest := RanUntil(w, Now(), subs[i..], ancestors, success);
                whole == (rest.0, after + rest.1, i + rest.2)
      {
        RanUntilAt(w, Now(), subs, i, ancestors, success);
        var u := RunOnce(subs[i], ancestors);
        if Stops(u, success) {
          after := after + ([u] + subs[i + 1..]);
          return;
        }
        AppendOne(after, u, RanUntil(w, Now(), subs[i + 1..], ancestors, success).1);
        after, i := after + [u], i + 1;
      }
      assert subs[i..] == [] && after + [] == after;
    }

    method RunOnce(t: Task, ancestors: seq<Expr>) returns (r: Task)
      requires Valid()
      modifies this`cache, table, table.own
      ensures Valid() && fresh(table.own - old(table.own)) && (Now(), r) == RanOnce(w, old(Now()), t, ancestors)
      decreases t, 3
    {
      r := t;
      if !Done(t) {
        r := Run(t, ancestors);
      }
    }

    method Finish(t: Task) returns (r: Task)
      requires Valid() && t.kind.AllOf?
      modifies this`cache, table, table.own
      ensures Valid() && fresh(table.own - old(table.own)) && (Now(), r) == Finished(w, old(Now()), t)
    {
      if t.kind.g >= |w.callees| || |t.kind.subs| != |OpenTypes(t.kind.slots)| {
        return Fail(t);
      }
      var spent := TrySpend(t.usage, OfUsage(t.kind.temp));
      if !spent {
        return Fail(t);
      }
      r := SetResult(t, Applied(w.callees[t.kind.g], Build(t.kind.slots, Results(t.kind.subs))));
    }

    method Advance(t: Task, ghost start: (Memory, Task), ghost n: nat) returns (r: Task)
      requires Valid() && Shaped(w, t, |table.usages|) && !Done(t) && (Now(), t) == RanTimes(w, start.0, start.1, n)
      modifies this`cache, table, table.own
      ensures Valid() && fresh(table.own - old(table.own))
      ensures Shaped(w, r, |table.usages|) && r.target == t.target
      ensures Measure(Branching(w), r) < Measure(Branching(w), t)
      ensures (Now(), r) == RanTimes(w, start.0, start.1, n + 1)
    {
      RanKeeps(w, Now(), t, []);
      r := RunOnce(t, []);
    }

    /** Runs until the task has finished; no deadline is needed. */
    method RunToEnd(t: Task) returns (r: Task, ghost n: nat)
      requires Valid() && Shaped(w, t, |table.usages|)
      modifies this`cache, table, table.own
      ensures Valid() && fresh(table.own - old(table.own))
      ensures Done(r) && r.target == t.target && Shaped(w, r, |table.usages|)
      ensures (Now(), r) == RanTimes(w, old(Now()), t, n)
    {
      r, n := t, 0;
      ghost var start := (Now(), t);
      while !Done(r)
        invariant Valid() && fresh(table.own - old(table.own))
        invariant r.target == t.target && Shaped(w, r, |table.usages|)
        invariant (Now(), r) == RanTimes(w, start.0, start.1, n)
        decreases Measure(Branching(w), r)
      {
        r := Advance(r, start, n);
        n := n + 1;
      }
    }

    // Also gives the object through which the main task has counted.
    method Search(target: Expr) returns (main: Task, direct: Usage, ghost n: nat)
      requires Valid() && |table.usages| >= 1
      modifies this`cache, table, table.own
      ensures fresh(table.own - old(table.own)) && direct.Valid() && direct.count in table.own
      ensures var end := RanTimes(w, old(Now()), MainTask(target), n);
              && Done(main) && main == end.1 && end.0.usages != [] && end.0.usages[0] != []
              && LevelKept(w.declared, direct.count.data, end.0.usages[0][0])
    {
      main, n := RunToEnd(MainTask(target));
      direct := table.usages[0];
      table.Counted(0);
    }
  }

  method SearchOn(w: World, target: Expr, inner: Usage) returns (main: Task, direct: Usage, ghost n: nat)
    requires inner.Valid()
    modifies inner, inner.count
    ensures direct.Valid() && (direct.count == old(inner.count) || fresh(direct.count))
    ensures var end := RanTimes(w, Memory([], [old(inner.Counts())]), MainTask(target), n);
            && Done(main) && main == end.1 && end.0.usages != [] && end.0.usages[0] != []
            && LevelKept(w.declared, direct.count.data, end.0.usages[0][0])
  {
    var table := new UsageTable(w.declared, inner);
    var st := new SearchState(w, table);
    main, direct, n := st.Search(target);
    assert direct.count as object != inner;
  }

  // The search changes nothing that was there before: it counts on an object that extends the caller's.
  method SearchFor(w: World, target: Expr, usage: Usage) returns (main: Task, direct: Usage, ghost n: nat)
    requires usage.Valid()
    ensures direct.Valid() && fresh(direct.count)
    ensures var end := RanTimes(w, Memory([], [[[]] + old(usage.Counts())]), MainTask(target), n);
            && Done(main) && main == end.1 && end.0.usages != [] && end.0.usages[0] != []
            && LevelKept(w.declared, direct.count.data, end.0.usages[0][0])
  {
    var inner := usage.Extend();
    main, direct, n := SearchOn(w, target, inner);
  }

  // What the caller is left with: the proof, and its counts.
  function Outcome(w: World, before: Counts, end: (Memory, Task)): (Option<Expr>, Counts)
    requires before != []
  {
    if !end.1.status.Succeeded? || end.0.usages == [] || end.0.usages[0] == [] then (None, before)
    else match TryAddAll(w.declared, before, end.0.usages[0][0])
         case None => (None, before)
         case Some(after) => (Some(end.1.status.result), after)
  }

  // What the main task has used is added to what the caller has used, if that is not too much.
  method Commit(w: World, usage: Usage, main: Task, direct: Usage, ghost end: (Memory, Task))
    returns (proof: Option<Expr>)
    requires usage.Valid() && direct.Valid() && direct.count != usage.count
    requires main == end.1 && end.0.usages != [] && end.0.usages[0] != []
    requires LevelKept(w.declared, direct.count.data, end.0.usages[0][0])
    modifies usage, usage.count
    ensures usage.Valid() && (proof, usage.Counts()) == Outcome(w, old(usage.Counts()), end)
  {
    proof := None;
    if main.status.Succeeded? {
      SameVariables(w.declared, usage.Counts(), direct.count.data, end.0.usages[0][0]);
      var added := usage.TryAddUsage(w.declared, direct, {});
      if added {
        proof := Some(main.status.result);
      }
    }
  }

  /** The search ends. The caller's usage object sees what it saw if there is no proof, and otherwise also one use of
      whatever the main task has used; what types proofs have is said in `SearchSoundness`. */
  method SearchProof(w: World, target: Expr, usage: Usage) returns (proof: Option<Expr>, ghost n: nat)
    requires usage.Valid()
    modifies usage, usage.count
    ensures usage.Valid()
    ensures proof.None? ==> usage.Counts() == old(usage.Counts())
    ensures var end := RanTimes(w, Memory([], [[[]] + old(usage.Counts())]), MainTask(target), n);
            Done(end.1) && (proof, usage.Counts()) == Outcome(w, old(usage.Counts()), end)
  {
    ghost var before := usage.Counts();
    var main, direct;
    main, direct, n := SearchFor(w, target, usage);
    proof := Commit(w, usage, main, direct, RanTimes(w, Memory([], [[[]] + before]), MainTask(target), n));
  }
}
