/** Arbitrary operations on a growing collection of usage objects that share frames, against exact counting.

    Exact counting knows for each object what had been used when it was made and what was used through it since; adding
    one object to another adds all uses of the former. The objects saturate, remember one use for whatever was used,
    and see totals of other objects change. They accept and reject the same operations. */
module UsageRuns {
  import opened Ast
  import opened ScopeMaps
  import opened Usages
  import opened UsageTables
  import opened Quantities
  import opened QuantitySoundness

  datatype Operation = Extending(i: nat) | Adding(i: nat, use: Use, m: Qty) | Merging(i: nat, j: nat)

  // The objects are there; an object is not added to itself.
  predicate Possible(n: nat, op: Operation) {
    match op
    case Extending(i) => i < n
    case Adding(i, use, _) => i < n && (use.OfUsage? ==> use.j < n && use.j != i)
    case Merging(i, j) => i < n && j < n
  }

  // ---- exact counting ----

  datatype Counter = Counter(base: Exact, own: Exact) {
    function Total(): Exact {
      var (b, o) := (base, own);
      v => b(v) + o(v)
    }
  }

  function CountUse(declared: Declared, c: Counter, v: Var, m: Qty): Option<Counter> {
    if m == Zero then Some(c)
    else if declared(v).None? || !Fits(c.Total()(v) + AsNat(m), declared(v).value) then None
    else Some(Counter(c.base, Bump(c.own, v, AsNat(m))))
  }

  function CountUses(declared: Declared, c: Counter, vs: seq<Var>, m: Qty): Option<Counter>
    decreases |vs|
  {
    if vs == [] then Some(c)
    else match CountUse(declared, c, vs[0], m) case None => None case Some(d) => CountUses(declared, d, vs[1..], m)
  }

  // The variables used by a term, from left to right; uses in the body of an abstraction are not supported.
  function UsesOf(e: Expr): Option<seq<Var>>
    decreases Size(e), 0
  {
    match e
    case Atom(_) => Some([])
    case VarE(v) => Some([v])
    case Node(_, es) => UsesOfAll(es)
    case App(_, f, es) => Both(UsesOf(f), UsesOfAll(es))
    case Because(v, _) => UsesOf(v)
    case Bind(t) => if t.end.AbsEnd? then None else Some([])
  }

  function UsesOfAll(es: seq<Expr>): Option<seq<Var>>
    decreases SizeSeq(es), 1
  {
    if es == [] then Some([]) else Both(UsesOf(es[0]), UsesOfAll(es[1..]))
  }

  function Both(a: Option<seq<Var>>, b: Option<seq<Var>>): Option<seq<Var>> {
    if a.None? || b.None? then None else Some(a.value + b.value)
  }

  function CountTerm(declared: Declared, c: Counter, e: Expr, m: Qty): Option<Counter> {
    if m == Zero then Some(c)
    else match UsesOf(e) case None => None case Some(vs) => CountUses(declared, c, vs, m)
  }

  // All the uses made through another object.
  ghost function CountUsage(declared: Declared, c: Counter, that: Counter): Option<Counter> {
    if forall v | that.own(v) > 0 :: declared(v).Some? && Fits(c.Total()(v) + that.own(v), declared(v).value)
    then Some(Counter(c.base, v => c.own(v) + that.own(v)))
    else None
  }

  ghost function CountThrough(declared: Declared, cs: seq<Counter>, i: nat, use: Use, m: Qty): Option<Counter>
    requires Possible(|cs|, Adding(i, use, m))
  {
    match use
    case OfVariable(v) => CountUse(declared, cs[i], v, m)
    case OfTerm(e) => CountTerm(declared, cs[i], e, m)
    case OfUsage(j) => CountUsage(declared, cs[i], cs[j])
  }

  // What the operation decides and what is counted afterwards.
  ghost function Counted(declared: Declared, cs: seq<Counter>, op: Operation): (bool, seq<Counter>) {
    if !Possible(|cs|, op) then (true, cs)
    else match op
      case Extending(i) => (true, cs + [Counter(cs[i].Total(), NOTHING)])
      case Adding(i, use, m) =>
        (match CountThrough(declared, cs, i, use, m) case None => (false, cs) case Some(c) => (true, cs[i := c]))
      case Merging(i, j) => (true, cs + [Counter(NOTHING, Worst(cs[i].own, cs[j].own))])
  }

  ghost function Decisions(declared: Declared, cs: seq<Counter>, ops: seq<Operation>): seq<bool>
    decreases |ops|
  {
    if ops == [] then []
    else var (ok, next) := Counted(declared, cs, ops[0]); [ok] + Decisions(declared, next, ops[1..])
  }

  // ---- the same on saturating values ----

  function Valued(declared: Declared, views: seq<Counts>, op: Operation): (r: (bool, seq<Counts>))
    requires AllSome(views)
    ensures AllSome(r.1)
  {
    if !Possible(|views|, op) then (true, views)
    else match op
      case Extending(i) => (true, views + [[[]] + views[i]])
      case Adding(i, use, m) =>
        (match Add(declared, views, i, use, m) case None => (false, views) case Some(after) => (true, after))
      case Merging(i, j) => (true, views + [[Merge(views[i][0], views[j][0])]])
  }

  function ValueDecisions(declared: Declared, views: seq<Counts>, ops: seq<Operation>): seq<bool>
    requires AllSome(views)
    decreases |ops|
  {
    if ops == [] then []
    else var (ok, next) := Valued(declared, views, ops[0]); [ok] + ValueDecisions(declared, next, ops[1..])
  }

  // ---- an object and its exact counter ----

  ghost predicate Matches(declared: Declared, view: Counts, c: Counter) {
    Agrees(declared, view, c.base, c.Total()) && forall v :: declared(v).None? ==> c.own(v) == 0
  }

  lemma PointwiseAgrees(declared: Declared, view: Counts, e0: Exact, f0: Exact, e: Exact, f: Exact)
    requires Agrees(declared, view, e0, e) && forall v :: e0(v) == f0(v) && e(v) == f(v)
    ensures Agrees(declared, view, f0, f)
  {
  }

  lemma UseMatches(declared: Declared, view: Counts, c: Counter, v: Var, m: Qty)
    requires Matches(declared, view, c) && declared(v).Some?
    ensures var r := TryAdd(view, v, declared(v).value, m);
            && r.Some? == CountUse(declared, c, v, m).Some?
            && (r.Some? ==> Matches(declared, r.value, CountUse(declared, c, v, m).value))
  {
    UseAgrees(declared, view, c.base, c.Total(), v, m);
    var r := TryAdd(view, v, declared(v).value, m);
    if r.Some? && m != Zero {
      var d := CountUse(declared, c, v, m).value;
      PointwiseAgrees(declared, r.value, c.base, d.base, Bump(c.Total(), v, AsNat(m)), d.Total());
    }
  }

  lemma {:induction false} CountUsesAppend(declared: Declared, c: Counter, vs: seq<Var>, us: seq<Var>, m: Qty)
    ensures CountUses(declared, c, vs + us, m) ==
            match CountUses(declared, c, vs, m) case None => None case Some(d) => CountUses(declared, d, us, m)
    decreases |vs|
  {
    if vs == [] {
      assert vs + us == us;
    } else {
      assert (vs + us)[1..] == vs[1..] + us;
      var d := CountUse(declared, c, vs[0], m);
      if d.Some? { CountUsesAppend(declared, d.value, vs[1..], us, m); }
    }
  }

  lemma JustOne(declared: Declared, c: Counter, v: Var, m: Qty)
    ensures CountUses(declared, c, [v], m) == CountUse(declared, c, v, m)
  {
    assert [v][0] == v && [v][1..] == [];
  }

  ghost predicate SameTerm(declared: Declared, r: Option<Counts>, vs: Option<seq<Var>>, c: Counter, m: Qty) {
    if vs.None? || CountUses(declared, c, vs.value, m).None? then r.None?
    else r.Some? && r.value != [] && Matches(declared, r.value, CountUses(declared, c, vs.value, m).value)
  }

  lemma {:induction false} TermMatches(declared: Declared, view: Counts, c: Counter, e: Expr, m: Qty)
    requires Matches(declared, view, c) && m != Zero
    ensures SameTerm(declared, TryAddExpr(declared, view, e, m), UsesOf(e), c, m)
    decreases Size(e), 0
  {
    match e
    case Atom(_) =>
    case VarE(v) =>
      JustOne(declared, c, v, m);
      if declared(v).Some? { UseMatches(declared, view, c, v, m); }
    case Node(_, es) => TermsMatch(declared, view, c, es, m);
    case App(_, f, es) =>
      TermMatches(declared, view, c, f, m);
      ThenTerms(declared, TryAddExpr(declared, view, f, m), UsesOf(f), c, es, m);
    case Because(v, _) => TermMatches(declared, view, c, v, m);
    case Bind(_) =>
  }

  lemma {:induction false} TermsMatch(declared: Declared, view: Counts, c: Counter, es: seq<Expr>, m: Qty)
    requires Matches(declared, view, c) && m != Zero
    ensures SameTerm(declared, TryAddExprs(declared, view, es, m), UsesOfAll(es), c, m)
    decreases SizeSeq(es), 1
  {
    if es != [] {
      TermMatches(declared, view, c, es[0], m);
      ThenTerms(declared, TryAddExpr(declared, view, es[0], m), UsesOf(es[0]), c, es[1..], m);
    }
  }

  lemma {:induction false} ThenTerms(declared: Declared, r: Option<Counts>, vs: Option<seq<Var>>, c: Counter,
        es: seq<Expr>, m: Qty)
    requires SameTerm(declared, r, vs, c, m) && m != Zero && (r.Some? ==> r.value != [])
    ensures SameTerm(declared, if r.None? then None
            else TryAddExprs(declared, r.value, es, m), Both(vs, UsesOfAll(es)), c, m)
    decreases SizeSeq(es), 2
  {
    if r.Some? {
      TermsMatch(declared, r.value, CountUses(declared, c, vs.value, m).value, es, m);
    }
    if vs.Some? && UsesOfAll(es).Some? { CountUsesAppend(declared, c, vs.value, UsesOfAll(es).value, m); }
  }

  // ---- all uses of another object ----

  // A linear variable that was used here and there.
  lemma {:induction false} Blocked(declared: Declared, view: Counts, level: Level, v: Var)
    requires view != [] && declared(v) == Some(One) && At(view, v) != Zero && FindIn(level, v).Some?
    ensures TryAddAll(declared, view, level).None?
    decreases |level|
  {
    var k := level[0].key;
    if k != v && declared(k).Some? {
      var r := TryAdd(view, k, declared(k).value, One);
      if r.Some? { Blocked(declared, r.value, level[1..], v); }
    }
  }

  lemma UsageMatches(declared: Declared, view: Counts, c: Counter, inner: Counts, that: Counter)
    requires Matches(declared, view, c) && Matches(declared, inner, that)
    ensures var r, x := TryAddAll(declared, view, inner[0]), CountUsage(declared, c, that);
            && r.Some? == x.Some? && (r.Some? ==> r.value != [] && Matches(declared, r.value, x.value))
  {
    var x := CountUsage(declared, c, that);
    if x.Some? {
      forall i | 0 <= i < |inner[0]|
        ensures var k := inner[0][i].key;
                && (declared(k) == Some(One) || declared(k) == Some(Many))
                   && (declared(k) == Some(One) ==> c.Total()(k) == 0)
      {
        FoundWhere(inner[0], i);
        assert declared(inner[0][i].key) == Some(One) ==> that.own(inner[0][i].key) == 1;
      }
      CommitAgrees(declared, view, c.base, c.Total(), inner[0], x.value.Total());
    } else {
      var v :| that.own(v) > 0 && !(declared(v).Some? && Fits(c.Total()(v) + that.own(v), declared(v).value));
      assert that.Total()(v) == that.base(v) + that.own(v);
      Blocked(declared, view, inner[0], v);
    }
  }

  // ---- merging ----

  function LargerOf(a: Option<Qty>, b: Option<Qty>): Option<Qty> {
    match (a, b)
    case (None, _) => b
    case (_, None) => a
    case (Some(p), Some(q)) => Some(Larger(p, q))
  }

  lemma {:induction false} MergedCount(a: Level, b: Level, v: Var)
    requires Distinct(b)
    ensures FindIn(Merge(a, b), v) == LargerOf(FindIn(a, v), FindIn(b, v))
    decreases |b|
  {
    if b != [] {
      var e := b[0];
      var next := match FindIn(a, e.key) case None => a + [e] case Some(q) => Put(a, e.key, Larger(q, e.value));
      if FindIn(a, e.key).None? { AppendNew(a, e); }
      AbsentAfter(b);
      MergedCount(next, b[1..], v);
    }
  }

  lemma AppendNew(a: Level, e: Entry<Var, Qty>)
    requires FindIn(a, e.key).None?
    ensures a + [e] == Put(a, e.key, e.value)
  {
    forall i | 0 <= i < |a| ensures a[i].key != e.key { FoundWhere(a, i); }
    PutNew(a, e.key, e.value);
  }

  lemma MergeMatches(declared: Declared, va: Counts, a: Counter, vb: Counts, b: Counter)
    requires Matches(declared, va, a) && Matches(declared, vb, b)
    ensures Matches(declared, [Merge(va[0], vb[0])], Counter(NOTHING, Worst(a.own, b.own)))
  {
    MergeFinds(va[0], vb[0]);
    forall v ensures FindIn(Merge(va[0], vb[0]), v) == LargerOf(FindIn(va[0], v), FindIn(vb[0], v)) {
      MergedCount(va[0], vb[0], v);
    }
    forall v ensures a.Total()(v) == a.base(v) + a.own(v) && b.Total()(v) == b.base(v) + b.own(v) { }
  }

  lemma ExtensionMatches(declared: Declared, view: Counts, c: Counter)
    requires Matches(declared, view, c)
    ensures Matches(declared, [[]] + view, Counter(c.Total(), NOTHING))
  {
    AgreesInside(declared, view, c.base, c.Total());
    PointwiseAgrees(declared, [[]] + view, c.Total(), c.Total(), c.Total(), Counter(c.Total(), NOTHING).Total());
  }

  // ---- the values decide as exact counting does ----

  ghost predicate AllMatch(declared: Declared, views: seq<Counts>, cs: seq<Counter>) {
    |views| == |cs| && forall i :: 0 <= i < |cs| ==> Matches(declared, views[i], cs[i])
  }

  lemma ThroughMatches(declared: Declared, views: seq<Counts>, cs: seq<Counter>, i: nat, use: Use, m: Qty)
    requires AllMatch(declared, views, cs) && Possible(|cs|, Adding(i, use, m))
    ensures var r, x := Added(declared, views, views[i], use, m), CountThrough(declared, cs, i, use, m);
            && r.Some? == x.Some? && (r.Some? ==> Matches(declared, r.value, x.value))
  {
    match use
    case OfVariable(v) => if declared(v).Some? { UseMatches(declared, views[i], cs[i], v, m); }
    case OfTerm(e) => if m != Zero { TermMatches(declared, views[i], cs[i], e, m); }
    case OfUsage(j) => UsageMatches(declared, views[i], cs[i], views[j], cs[j]);
  }

  lemma ValuesMatch(declared: Declared, views: seq<Counts>, cs: seq<Counter>, op: Operation)
    requires AllMatch(declared, views, cs)
    ensures AllSome(views)
    ensures var (ok, after) := Valued(declared, views, op);
            ok == Counted(declared, cs, op).0 && AllMatch(declared, after, Counted(declared, cs, op).1)
  {
    forall i | 0 <= i < |views| ensures views[i] != [] { assert Matches(declared, views[i], cs[i]); }
    if Possible(|cs|, op) {
      match op
      case Extending(i) => ExtensionMatches(declared, views[i], cs[i]);
      case Adding(i, use, m) => ThroughMatches(declared, views, cs, i, use, m);
      case Merging(i, j) => MergeMatches(declared, views[i], cs[i], views[j], cs[j]);
    }
  }

  lemma {:induction false} ValuesDecide(declared: Declared, views: seq<Counts>, cs: seq<Counter>, ops: seq<Operation>)
    requires AllMatch(declared, views, cs)
    ensures AllSome(views) && ValueDecisions(declared, views, ops) == Decisions(declared, cs, ops)
    decreases |ops|
  {
    if ops == [] {
      ValuesMatch(declared, views, cs, Extending(|cs|));
    } else {
      ValuesMatch(declared, views, cs, ops[0]);
      ValuesDecide(declared, Valued(declared, views, ops[0]).1, Counted(declared, cs, ops[0]).1, ops[1..]);
    }
  }

  // ---- the objects decide as the values do ----

  method Perform(table: UsageTable, op: Operation) returns (ok: bool)
    requires table.Valid() && AllSome(table.views)
    modifies table, table.own
    ensures table.Valid() && ok == Valued(table.declared, old(table.views), op).0
    ensures table.views == Valued(table.declared, old(table.views), op).1
    ensures fresh(table.own - old(table.own))
  {
    ok := true;
    if Possible(|table.usages|, op) {
      match op {
        case Extending(i) => table.Extend(i);
        case Adding(i, use, m) => ok := table.TryAdd(i, use, m);
        case Merging(i, j) => table.Merge(i, j);
      }
    }
  }

  method PerformFrom(table: UsageTable, ops: seq<Operation>) returns (decisions: seq<bool>)
    requires table.Valid() && AllSome(table.views)
    modifies table, table.own
    ensures decisions == ValueDecisions(table.declared, old(table.views), ops)
    decreases |ops|
  {
    if ops == [] {
      return [];
    }
    var ok := Perform(table, ops[0]);
    var rest := PerformFrom(table, ops[1..]);
    return [ok] + rest;
  }

  /** Starting from one empty object, saturating counts on shared frames accept and reject what exact counting does. */
  method PerformAll(declared: Declared, ops: seq<Operation>) returns (decisions: seq<bool>)
    ensures decisions == Decisions(declared, [Counter(NOTHING, NOTHING)], ops)
  {
    var first := new Usage();
    var table := new UsageTable(declared, first);
    ghost var c := Counter(NOTHING, NOTHING);
    PointwiseAgrees(declared, [[]], NOTHING, NOTHING, NOTHING, c.Total());
    ValuesDecide(declared, [[[]]], [c], ops);
    decisions := PerformFrom(table, ops);
  }
}
