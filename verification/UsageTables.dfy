/** A collection of usage objects that share frames, against a list of values that share nothing.

    What is counted through one object changes what others see, but only totals of variables that may be used any
    number of times, and those decide nothing. So the objects accept and reject as the values would. */
module UsageTables {
  import opened Ast
  import opened ScopeMaps
  import opened Usages

  // What can be counted through an object: a variable, a term, or what was counted directly through another object.
  datatype Use = OfVariable(v: Var) | OfTerm(e: Expr) | OfUsage(j: nat)

  // The values afterwards; nothing if the use is too much, or if there is no such object; none is added to itself.
  function Add(declared: Declared, views: seq<Counts>, i: nat, use: Use, m: Qty): (r: Option<seq<Counts>>)
    ensures r.Some? ==> |r.value| == |views| && (AllSome(views) ==> AllSome(r.value))
  {
    if i >= |views| || views[i] == [] || use == OfUsage(i) then None
    else match Added(declared, views, views[i], use, m) case None => None case Some(view) => Some(views[i := view])
  }

  predicate AllSome(views: seq<Counts>) {
    forall i :: 0 <= i < |views| ==> views[i] != []
  }

  function Added(declared: Declared, views: seq<Counts>, view: Counts, use: Use, m: Qty): (r: Option<Counts>)
    requires view != []
    ensures r.Some? ==> r.value != []
  {
    if !use.OfUsage? then Direct(declared, view, [], use, m)
    else if use.j < |views| && views[use.j] != [] then Direct(declared, view, views[use.j][0], use, m)
    else None
  }

  // `level` is what was counted directly through the other object.
  function Direct(declared: Declared, view: Counts, level: Level, use: Use, m: Qty): (r: Option<Counts>)
    requires view != []
    ensures r.Some? ==> r.value != []
  {
    match use
    case OfVariable(v) =>
      if m == Zero then Some(view) else if declared(v).None? then None else TryAdd(view, v, declared(v).value, m)
    case OfTerm(e) => TryAddExpr(declared, view, e, m)
    case OfUsage(_) => TryAddAll(declared, view, level)
  }

  // ---- totals of variables that may be used any number of times decide nothing ----

  lemma {:induction false} KeptFound(declared: Declared, a: Level, b: Level, v: Var)
    requires LevelKept(declared, a, b)
    ensures FindIn(a, v).Some? == FindIn(b, v).Some?
    ensures declared(v) != Some(Many) ==> FindIn(a, v) == FindIn(b, v)
  {
    if a != [] { KeptFound(declared, a[1..], b[1..], v); }
  }

  lemma {:induction false} KeptTotal(declared: Declared, a: Counts, b: Counts, v: Var)
    requires Kept(declared, a, b) && declared(v) != Some(Many)
    ensures At(a, v) == At(b, v)
  {
    if a != [] {
      assert LevelKept(declared, a[0], b[0]);
      KeptFound(declared, a[0], b[0], v);
      KeptTail(declared, a, b);
      KeptTotal(declared, a[1..], b[1..], v);
    }
  }

  lemma KeptTail(declared: Declared, a: Counts, b: Counts)
    requires Kept(declared, a, b) && a != []
    ensures LevelKept(declared, a[0], b[0]) && Kept(declared, a[1..], b[1..])
  {
    forall i | 0 <= i < |a[1..]| ensures LevelKept(declared, a[1..][i], b[1..][i]) {
      assert LevelKept(declared, a[i + 1], b[i + 1]);
    }
  }

  lemma KeptCons(declared: Declared, a: Level, b: Level, outer: Counts, view: Counts)
    requires LevelKept(declared, a, b) && Kept(declared, outer, view)
    ensures Kept(declared, [a] + outer, [b] + view)
  {
  }

  lemma {:induction false} KeptPut(declared: Declared, a: Level, b: Level, v: Var, p: Qty, q: Qty)
    requires LevelKept(declared, a, b) && (p == q || declared(v) == Some(Many))
    ensures LevelKept(declared, Put(a, v, p), Put(b, v, q))
  {
    if a != [] && a[0].key != v {
      KeptPut(declared, a[1..], b[1..], v, p, q);
    }
  }

  // The same decision, and still the same but for such totals.
  ghost predicate SameUse(declared: Declared, r: Option<Counts>, s: Option<Counts>) {
    r.Some? == s.Some? && (r.Some? ==> Kept(declared, r.value, s.value))
  }

  lemma KeptAdd(declared: Declared, a: Counts, b: Counts, v: Var, m: Qty)
    requires a != [] && Kept(declared, a, b) && declared(v).Some?
    ensures SameUse(declared, TryAdd(a, v, declared(v).value, m), TryAdd(b, v, declared(v).value, m))
  {
    KeptTail(declared, a, b);
    if declared(v) != Some(Many) { KeptTotal(declared, a, b, v); }
    if m != Zero {
      var p, q := Sum(At(a, v), Product(One, m)), Sum(At(b, v), Product(One, m));
      KeptPut(declared, a[0], b[0], v, p, q);
      KeptCons(declared, Put(a[0], v, p), Put(b[0], v, q), a[1..], b[1..]);
    }
  }

  lemma {:induction false} KeptAddExpr(declared: Declared, a: Counts, b: Counts, e: Expr, m: Qty)
    requires a != [] && Kept(declared, a, b)
    ensures SameUse(declared, TryAddExpr(declared, a, e, m), TryAddExpr(declared, b, e, m))
    decreases Size(e), 0
  {
    if m != Zero {
      match e
      case Atom(_) =>
      case VarE(v) => if declared(v).Some? { KeptAdd(declared, a, b, v, m); }
      case Node(_, es) => KeptAddExprs(declared, a, b, es, m);
      case App(_, f, es) =>
        KeptAddExpr(declared, a, b, f, m);
        var r, s := TryAddExpr(declared, a, f, m), TryAddExpr(declared, b, f, m);
        if r.Some? { KeptAddExprs(declared, r.value, s.value, es, m); }
      case Because(v, _) => KeptAddExpr(declared, a, b, v, m);
      case Bind(_) =>
    }
  }

  lemma {:induction false} KeptAddExprs(declared: Declared, a: Counts, b: Counts, es: seq<Expr>, m: Qty)
    requires a != [] && Kept(declared, a, b)
    ensures SameUse(declared, TryAddExprs(declared, a, es, m), TryAddExprs(declared, b, es, m))
    decreases SizeSeq(es), 1
  {
    if es != [] {
      KeptAddExpr(declared, a, b, es[0], m);
      var r, s := TryAddExpr(declared, a, es[0], m), TryAddExpr(declared, b, es[0], m);
      if r.Some? { KeptAddExprs(declared, r.value, s.value, es[1..], m); }
    }
  }

  // Of another object only the variables matter, not how often they were counted there.
  lemma {:induction false} KeptAddAll(declared: Declared, a: Counts, b: Counts, level: Level, known: Level)
    requires a != [] && Kept(declared, a, b) && LevelKept(declared, level, known)
    ensures SameUse(declared, TryAddAll(declared, a, level), TryAddAll(declared, b, known))
    decreases |level|
  {
    if level != [] && declared(level[0].key).Some? {
      var k := level[0].key;
      KeptAdd(declared, a, b, k, One);
      var r, s := TryAdd(a, k, declared(k).value, One), TryAdd(b, k, declared(k).value, One);
      if r.Some? { KeptAddAll(declared, r.value, s.value, level[1..], known[1..]); }
    }
  }

  lemma {:induction false} SameVariables(declared: Declared, view: Counts, level: Level, known: Level)
    requires view != [] && LevelKept(declared, level, known)
    ensures TryAddAll(declared, view, level) == TryAddAll(declared, view, known)
    decreases |level|
  {
    if level != [] && declared(level[0].key).Some? {
      var r := TryAdd(view, level[0].key, declared(level[0].key).value, One);
      if r.Some? { SameVariables(declared, r.value, level[1..], known[1..]); }
    }
  }

  lemma {:induction false} KeptMerge(declared: Declared, a: Level, b: Level, c: Level, d: Level)
    requires LevelKept(declared, a, b) && LevelKept(declared, c, d)
    ensures LevelKept(declared, Merge(a, c), Merge(b, d))
    decreases |c|
  {
    if c != [] {
      var e, f := c[0], d[0];
      KeptFound(declared, a, b, e.key);
      var next := match FindIn(a, e.key) case None => a + [e] case Some(q) => Put(a, e.key, Larger(q, e.value));
      var known := match FindIn(b, f.key) case None => b + [f] case Some(q) => Put(b, f.key, Larger(q, f.value));
      if FindIn(a, e.key).Some? {
        KeptPut(declared, a, b, e.key, Larger(FindIn(a, e.key).value, e.value),
          Larger(FindIn(b, e.key).value, f.value));
      }
      KeptMerge(declared, next, known, c[1..], d[1..]);
    }
  }

  // ---- the objects ----

  ghost predicate Separate(us: seq<Usage>)
    reads us
  {
    forall i, j :: 0 <= i < j < |us| ==> us[i] != us[j] && us[i].count != us[j].count
  }

  ghost function FramesOf(us: seq<Usage>): set<ScopeMap<Var, Qty>>
    reads us
  {
    set u | u in us :: u.count
  }

  ghost function Shared(us: seq<Usage>): set<object>
    reads us, FramesOf(us)
  {
    set f, m | f in FramesOf(us) && m in f.above :: m
  }

  // The objects and their frames are among `own`, and whatever is seen is among `repr`.
  ghost predicate Within(us: seq<Usage>, own: set<object>, repr: set<object>)
    reads us
  {
    own <= repr && forall i :: 0 <= i < |us| ==> us[i] in own && us[i].count in own && us[i].count.above <= repr
  }

  ghost predicate Sees(declared: Declared, u: Usage, view: Counts)
    reads u, u.count, u.count.above
  {
    u.Valid() && Kept(declared, u.Counts(), view)
  }

  // Each object has a frame of its own, and sees what its value says.
  ghost predicate Held(declared: Declared, us: seq<Usage>, views: seq<Counts>)
    reads us, FramesOf(us), Shared(us)
  {
    && |us| == |views| && Separate(us)
    && forall i :: 0 <= i < |us| ==> Sees(declared, us[i], views[i])
  }

  ghost predicate Unlike(us: seq<Usage>, frames: seq<ScopeMap<Var, Qty>>) {
    |us| == |frames| && forall j, k :: 0 <= j < k < |us| ==> us[j] != us[k] && frames[j] != frames[k]
  }

  lemma FramesOfEach(us: seq<Usage>) returns (frames: seq<ScopeMap<Var, Qty>>)
    requires Separate(us)
    ensures Unlike(us, frames) && forall j :: 0 <= j < |us| ==> frames[j] == us[j].count
  {
    frames := [];
    for i := 0 to |us|
      invariant |frames| == i && forall j :: 0 <= j < i ==> frames[j] == us[j].count
    {
      frames := frames + [us[i].count];
    }
  }

  lemma StillSeparate(us: seq<Usage>, i: nat, frames: seq<ScopeMap<Var, Qty>>)
    requires i < |us| && Unlike(us, frames)
    requires forall j :: 0 <= j < |us| && j != i ==> us[j].count == frames[j] && us[j].count != us[i].count
    ensures Separate(us)
  {
  }

  lemma StillHeld(declared: Declared, us: seq<Usage>, views: seq<Counts>, i: nat, view: Counts)
    requires i < |us| == |views| && Separate(us)
    requires Sees(declared, us[i], view)
    requires forall j :: 0 <= j < |us| && j != i ==> Sees(declared, us[j], views[j])
    ensures Held(declared, us, views[i := view])
  {
  }

  lemma Distinguish(us: seq<Usage>, i: nat)
    requires i < |us| && Separate(us)
    ensures forall j :: 0 <= j < |us| ==> us[j] as object != us[i].count && us[j].count as object != us[i]
    ensures forall j :: 0 <= j < |us| && j != i ==> us[j] != us[i] && us[j].count != us[i].count
  {
  }

  // The frames of the other objects.
  ghost function Others(us: seq<Usage>, i: nat): (world: set<ScopeMap<Var, Qty>>)
    requires i < |us| && Separate(us)
    reads us
    ensures us[i].count !in world
    ensures forall j :: 0 <= j < |us| && j != i ==> us[j].count in world
    ensures forall g :: g in world ==> exists j :: 0 <= j < |us| && j != i && us[j].count == g
  {
    FramesOf(us) - {us[i].count}
  }

  lemma StillKept(declared: Declared, u: Usage, was: Counts, view: Counts)
    requires u.count.Valid() && Positive(u.count.data)
    requires Kept(declared, u.count.View(), was) && Kept(declared, was, view)
    ensures Sees(declared, u, view)
  {
    KeptTransitive(declared, u.Counts(), was, view);
  }

  lemma KeptRefl(declared: Declared, view: Counts)
    ensures Kept(declared, view, view)
  {
  }

  lemma KeptDirect(declared: Declared, a: Counts, b: Counts, level: Level, known: Level, use: Use, m: Qty)
    requires a != [] && Kept(declared, a, b) && LevelKept(declared, level, known)
    ensures SameUse(declared, Direct(declared, a, level, use, m), Direct(declared, b, known, use, m))
  {
    match use
    case OfVariable(v) => if declared(v).Some? { KeptAdd(declared, a, b, v, m); }
    case OfTerm(e) => KeptAddExpr(declared, a, b, e, m);
    case OfUsage(_) => KeptAddAll(declared, a, b, level, known);
  }

  lemma KeptAdded(declared: Declared, us: seq<Usage>, views: seq<Counts>, i: nat, use: Use, m: Qty)
    requires i < |us| && Held(declared, us, views) && (use.OfUsage? ==> use.j < |us|)
    ensures var level := if use.OfUsage? then us[use.j].Counts()[0] else [];
            SameUse(declared, Direct(declared, us[i].Counts(), level, use, m), Added(declared, views, views[i], use, m))
  {
    if use.OfUsage? {
      KeptTail(declared, us[use.j].Counts(), views[use.j]);
      KeptDirect(declared, us[i].Counts(), views[i], us[use.j].Counts()[0], views[use.j][0], use, m);
    } else {
      KeptDirect(declared, us[i].Counts(), views[i], [], [], use, m);
    }
  }

  lemma KeptMerged(declared: Declared, a: Counts, b: Counts, c: Counts, d: Counts)
    requires a != [] && c != [] && Kept(declared, a, b) && Kept(declared, c, d)
    ensures Kept(declared, [Merge(a[0], c[0])], [Merge(b[0], d[0])])
  {
    KeptTail(declared, a, b);
    KeptTail(declared, c, d);
    KeptMerge(declared, a[0], b[0], c[0], d[0]);
  }

  // ---- the operations ----

  method AddTo(declared: Declared, us: seq<Usage>, i: nat, use: Use, m: Qty, ghost world: set<ScopeMap<Var, Qty>>)
    returns (ok: bool)
    requires i < |us| && us[i].Valid() && us[i].count !in world
    requires use.OfUsage? ==> use.j < |us| && us[use.j].Valid() && us[use.j].count != us[i].count
    requires forall g :: g in world ==> g.Valid()
    modifies us[i], us[i].count
    ensures us[i].Valid() && (us[i].count == old(us[i].count) || fresh(us[i].count))
    ensures us[i].count.above <= old(us[i].count.above) + {us[i].count}
    ensures var level := if use.OfUsage? then old(us[use.j].Counts())[0] else [];
            var r := Direct(declared, old(us[i].Counts()), level, use, m);
            ok == r.Some? && us[i].Counts() == if ok then r.value else old(us[i].Counts())
    ensures forall g :: g in world ==> g.Valid() && Kept(declared, g.View(), old(g.View()))
  {
    match use {
      case OfVariable(v) =>
        if declared(v).Some? {
          ok := us[i].AddVariable(declared, v, m, world);
        } else {
          ok := m == Zero;
          forall g | g in world ensures Kept(declared, g.View(), g.View()) { KeptRefl(declared, g.View()); }
        }
      case OfTerm(e) => ok := us[i].TryAddTerm(declared, e, m, world);
      case OfUsage(j) => ok := us[i].TryAddUsage(declared, us[j], world);
    }
  }

  // Nothing that others see changes, but for totals that decide nothing.
  method AddBesides(declared: Declared, us: seq<Usage>, i: nat, use: Use, m: Qty, ghost views: seq<Counts>)
    returns (ok: bool)
    requires Held(declared, us, views) && i < |us| && (use.OfUsage? ==> use.j < |us| && use.j != i)
    modifies us[i], us[i].count
    ensures us[i].count == old(us[i].count) || fresh(us[i].count)
    ensures us[i].count.above <= old(us[i].count.above) + {us[i].count}
    ensures var r := Added(declared, views, views[i], use, m);
            ok == r.Some? && Sees(declared, us[i], if ok then r.value else views[i])
    ensures forall j :: 0 <= j < |us| && j != i ==> Sees(declared, us[j], views[j])
    ensures forall j :: 0 <= j < |us| && j != i ==> us[j].count == old(us[j].count) != us[i].count
  {
    ghost var world := Others(us, i);
    ghost var before := map g | g in world :: g.View();
    Distinguish(us, i);
    KeptAdded(declared, us, views, i, use, m);
    ok := AddTo(declared, us, i, use, m, world);
    forall j | 0 <= j < |us| && j != i ensures Sees(declared, us[j], views[j]) {
      assert us[j].count == old(us[j].count) && us[j].count in world && us[j].count.data == old(us[j].count.data);
      StillKept(declared, us[j], before[us[j].count], views[j]);
    }
  }

  method AddUse(declared: Declared, us: seq<Usage>, i: nat, use: Use, m: Qty, ghost views: seq<Counts>,
      ghost own: set<object>, ghost repr: set<object>)
    returns (ok: bool)
    requires Held(declared, us, views) && i < |us| && (use.OfUsage? ==> use.j < |us| && use.j != i)
             && Within(us, own, repr)
    modifies us[i], us[i].count
    ensures var r := Added(declared, views, views[i], use, m);
            ok == r.Some? && Held(declared, us, if ok then views[i := r.value] else views)
    ensures us[i].count in own || fresh(us[i].count)
    ensures Within(us, own + {us[i].count}, repr + {us[i].count})
  {
    ghost var frames := FramesOfEach(us);
    ok := AddBesides(declared, us, i, use, m, views);
    StillSeparate(us, i, frames);
    StillHeld(declared, us, views, i, if ok then Added(declared, views, views[i], use, m).value else views[i]);
    assert views[i := views[i]] == views;
  }

  // ---- the collection ----

  twostate lemma HeldStill(new declared: Declared, new us: seq<Usage>, new views: seq<Counts>, new own: set<object>,
        new repr: set<object>)
    requires old(allocated(declared)) && old(allocated(views))
    requires own <= repr && forall o :: o in repr ==> old(allocated(o)) && unchanged(o)
    requires forall i :: 0 <= i < |us| ==> us[i] in repr
    requires old(Within(us, own, repr)) && old(Held(declared, us, views))
    ensures Within(us, own, repr) && Held(declared, us, views)
  {
    forall i | 0 <= i < |us| ensures Sees(declared, us[i], views[i]) {
      assert us[i].count == old(us[i].count);
    }
  }

  class UsageTable {
    const declared: Declared
    var usages: seq<Usage>
    ghost var views: seq<Counts>  // what the objects see, but for totals that decide nothing
    ghost var own: set<object>    // the objects and their frames
    ghost var repr: set<object>   // and the frames that are only seen

    ghost predicate Valid()
      reads this, repr
    {
      && this !in repr && (forall i :: 0 <= i < |usages| ==> usages[i] in repr)
      && Within(usages, own, repr) && Held(declared, usages, views)
    }

    constructor (declared: Declared, u: Usage)
      requires u.Valid()
      ensures Valid() && this.declared == declared && usages == [u] && views == [u.Counts()]
      ensures own == {u, u.count} && repr == {u} + u.count.above
    {
      this.declared := declared;
      usages, views, own, repr := [u], [u.Counts()], {u, u.count}, {u} + u.count.above;
      new;
      KeptRefl(declared, u.Counts());
      assert Sees(declared, u, u.Counts());
    }

    lemma Counted(i: nat)
      requires Valid() && i < |usages|
      ensures usages[i].Valid() && usages[i].count in own
      ensures |views| == |usages| && views[i] != [] && LevelKept(declared, usages[i].count.data, views[i][0])
    {
      KeptTail(declared, usages[i].Counts(), views[i]);
    }

    /** The object accepts the use just when the values do, and all objects go on seeing what the values say. */
    method TryAdd(i: nat, use: Use, m: Qty) returns (ok: bool)
      requires Valid() && i < |usages| && (use.OfUsage? ==> use.j < |usages| && use.j != i)
      modifies this`views, this`own, this`repr, own
      ensures Valid() && usages == old(usages) && fresh(own - old(own)) && fresh(repr - old(repr))
      ensures var r := Added(declared, old(views), old(views)[i], use, m);
              ok == r.Some? && views == if ok then old(views)[i := r.value] else old(views)
    {
      var us := usages;
      ghost var was, r := views, Added(declared, views, views[i], use, m);
      ghost var mine: set<object>, seen: set<object> := own, repr;
      ok := AddUse(declared, us, i, use, m, was, mine, seen);
      ghost var frame := us[i].count;
      ghost var now := if ok then was[i := r.value] else was;
      mine, seen := mine + {frame}, seen + {frame};
      assert usages == us && old(own) <= old(repr);
      assert frame in old(own) || fresh(frame);
      Settle(now, mine, seen);
    }

    ghost method Settle(now: seq<Counts>, mine: set<object>, seen: set<object>)
      requires Within(usages, mine, seen) && Held(declared, usages, now) && this !in seen
      modifies this`views, this`own, this`repr
      ensures Valid() && usages == old(usages) && views == now && own == mine && repr == seen
    {
      views, own, repr := now, mine, seen;
      HeldStill(declared, usages, now, mine, seen);
    }

    method TrySpend(i: nat, use: Use, m: Qty) returns (ok: bool)
      requires Valid()
      modifies this`views, this`own, this`repr, own
      ensures Valid() && usages == old(usages) && fresh(own - old(own)) && fresh(repr - old(repr))
      ensures var r := Add(declared, old(views), i, use, m);
              ok == r.Some? && views == if ok then r.value else old(views)
    {
      if i >= |usages| || (use.OfUsage? && (use.j >= |usages| || use.j == i)) {
        return false;
      }
      ghost var was, r := views, Add(declared, views, i, use, m);
      ok := TryAdd(i, use, m);
      assert ok == r.Some? && views == if ok then r.value else was;
    }

    // A new object joins the others.
    method Include(u: Usage, ghost view: Counts)
      requires Valid() && Sees(declared, u, view) && u !in repr && u.count !in repr
      requires u.count.above <= repr + {u.count} && u.count as object != this
      modifies this
      ensures Valid() && usages == old(usages) + [u] && views == old(views) + [view]
      ensures own == old(own) + {u, u.count} && repr == old(repr) + {u, u.count}
    {
      var us := usages + [u];
      ghost var now := views + [view];
      ghost var mine: set<object>, seen: set<object> := own + {u, u.count}, repr + {u, u.count};
      assert Held(declared, us, now);
      usages, views, own, repr := us, now, mine, seen;
      HeldStill(declared, us, now, mine, seen);
    }

    /** An object that starts from what another one sees. */
    method Extend(i: nat)
      requires Valid() && i < |usages|
      modifies this
      ensures Valid() && |usages| == |old(usages)| + 1 && usages[..|old(usages)|] == old(usages)
      ensures views == old(views) + [[[]] + old(views)[i]]
      ensures fresh(own - old(own)) && fresh(repr - old(repr))
    {
      var u := usages[i].Extend();
      KeptCons(declared, [], [], usages[i].Counts(), views[i]);
      Include(u, [[]] + views[i]);
    }

    /** An object that starts from what was counted directly through two others. */
    method Merge(i: nat, j: nat)
      requires Valid() && i < |usages| && j < |usages|
      modifies this
      ensures Valid() && |usages| == |old(usages)| + 1 && old(views)[i] != [] && old(views)[j] != []
      ensures views == old(views) + [[Usages.Merge(old(views)[i][0], old(views)[j][0])]]
      ensures fresh(own - old(own)) && fresh(repr - old(repr))
    {
      KeptMerged(declared, usages[i].Counts(), views[i], usages[j].Counts(), views[j]);
      ghost var a, b := usages[i].Counts()[0], usages[j].Counts()[0];
      var u := MergeUsages(usages[i], usages[j]);
      assert u.Counts() == [Usages.Merge(a, b)];
      assert Sees(declared, u, [Usages.Merge(views[i][0], views[j][0])]);
      Include(u, [Usages.Merge(views[i][0], views[j][0])]);
    }
  }
}
