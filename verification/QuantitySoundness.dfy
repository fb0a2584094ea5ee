/** The lossy counts decide as exact counting would, and what is accepted never uses a variable more often than
    declared, whichever branches a run takes. */
module QuantitySoundness {
  import opened Ast
  import opened ScopeMaps
  import opened Usages
  import opened Quantities

  // ---- exact counting ----

  type Exact = Var -> nat
  datatype Counted = Counted(ok: bool, e: Exact)

  predicate Fits(n: nat, declared: Qty) {
    declared == Many || n <= AsNat(declared)
  }

  function Bump(e: Exact, v: Var, n: nat): Exact {
    u => if u == v then e(u) + n else e(u)
  }

  function Worst(a: Exact, b: Exact): Exact {
    u => if a(u) < b(u) then b(u) else a(u)
  }

  function Count(declared: Declared, e: Exact, t: Term, m: Qty, expected: bool): Counted
    decreases t, 1
  {
    match t
    case Use(v) =>
      if declared(v).None? || m == Zero then Counted(true, e)
      else if Fits(e(v) + AsNat(m), declared(v).value) then Counted(true, Bump(e, v, AsNat(m)))
      else Counted(false, e)
    case All(ts) => CountAll(declared, e, ts, m)
    case Scaled(q, s) => Count(declared, e, s, Product(m, q), expected)
    case Pair(lhs, rhs) =>
      var a := Count(declared, e, lhs, m, false);
      if a.ok then Count(declared, a.e, rhs, m, true)
      else
        var b := Count(declared, e, rhs, m, false);
        if b.ok then Count(declared, b.e, lhs, m, true) else b
    case Head(s) => Count(declared, e, s, m, false)
    case NeedsType(s) => if expected then Count(declared, e, s, m, true) else Counted(false, e)
    case IllTyped(s) => Counted(false, e)
    case Lambda(b) => CountBlock(declared, e, b.stmts, m)
  }

  function CountAll(declared: Declared, e: Exact, ts: seq<Term>, m: Qty): Counted
    decreases ts, 0
  {
    if ts == [] then Counted(true, e)
    else
      var r := Count(declared, e, ts[0], m, true);
      if r.ok then CountAll(declared, r.e, ts[1..], m) else r
  }

  function CountBlock(declared: Declared, e: Exact, ss: seq<Step>, m: Qty): Counted
    decreases ss, 0
  {
    if ss == [] then Counted(true, e)
    else
      var r := CountStep(declared, e, ss[0], m);
      if r.ok then CountBlock(declared, r.e, ss[1..], m) else r
  }

  function CountStep(declared: Declared, e: Exact, s: Step, m: Qty): Counted
    decreases s, 1
  {
    match s
    case Eval(t) => Count(declared, e, t, m, true)
    case Leave(t) => Count(declared, e, t, m, true)
    case If(c, t, k) =>
      var outer := Count(declared, e, c, m, true);
      if !outer.ok then outer
      else
        var a, b := CountBlock(declared, outer.e, t.stmts, m), CountBlock(declared, outer.e, k.stmts, m);
        Counted(a.ok && b.ok, Worst(a.e, b.e))
  }

  // ---- the relation between the two ----

  predicate Distinct(level: Level) {
    forall i, j :: 0 <= i < j < |level| ==> level[i].key != level[j].key
  }

  // `e0` is exact where the innermost object was created, `e` is exact now. Linear variables are counted exactly,
  // erased ones have no count, and nothing is known about the others.
  ghost predicate Agrees(declared: Declared, view: Counts, e0: Exact, e: Exact) {
    && view != [] && Distinct(view[0])
    && (forall v :: FindIn(view[0], v).Some? ==> declared(v) == Some(One) || declared(v) == Some(Many))
    && (forall v | declared(v) == Some(One) ::
          && e0(v) == AsNat(At(view[1..], v)) <= 1
          && (match FindIn(view[0], v) case None => e(v) == e0(v) case Some(q) => q == One && e0(v) == 0 && e(v) == 1))
    && (forall v | declared(v) == Some(Zero) :: e(v) == e0(v) == 0 && At(view[1..], v) == Zero)
  }

  lemma AgreesNow(declared: Declared, view: Counts, e0: Exact, e: Exact, v: Var)
    requires Agrees(declared, view, e0, e)
    ensures declared(v) == Some(One) ==> AsNat(At(view, v)) == e(v) <= 1
    ensures declared(v) == Some(Zero) ==> At(view, v) == Zero && e(v) == 0
  {
  }

  lemma AgreesInside(declared: Declared, view: Counts, e0: Exact, e: Exact)
    requires Agrees(declared, view, e0, e)
    ensures Agrees(declared, [[]] + view, e, e)
  {
  }

  lemma {:induction false} PutDistinct(level: Level, v: Var, q: Qty)
    requires Distinct(level)
    ensures Distinct(Put(level, v, q))
    ensures forall i :: 0 <= i < |Put(level, v, q)| ==>
              Put(level, v, q)[i].key == v || exists j :: 0 <= j < |level| && level[j].key == Put(level, v, q)[i].key
    ensures level != [] && level[0].key != v ==> Put(level, v, q)[0].key == level[0].key
  {
    if level != [] && level[0].key != v {
      PutDistinct(level[1..], v, q);
      var rest := Put(level[1..], v, q);
      forall i | 0 <= i < |rest| ensures rest[i].key != level[0].key {
        if rest[i].key != v {
          var j :| 0 <= j < |level[1..]| && level[1..][j].key == rest[i].key;
          assert level[j + 1].key == rest[i].key;
        }
      }
    } else if level != [] {
      var r := Put(level, v, q);
      assert forall i :: 0 < i < |r| ==> r[i] == level[i];
    }
  }

  // One use: the same decision, and still in agreement.
  lemma UseAgrees(declared: Declared, view: Counts, e0: Exact, e: Exact, v: Var, m: Qty)
    requires Agrees(declared, view, e0, e) && declared(v).Some?
    ensures TryAdd(view, v, declared(v).value, m).Some? == Count(declared, e, Use(v), m, true).ok
    ensures TryAdd(view, v, declared(v).value, m).Some? ==>
              Agrees(declared, TryAdd(view, v, declared(v).value, m).value, e0, Count(declared, e, Use(v), m, true).e)
  {
    AgreesNow(declared, view, e0, e, v);
    if m != Zero && TryAdd(view, v, declared(v).value, m).Some? {
      var total := Sum(At(view, v), Product(One, m));
      var w := Set(view, v, total);
      PutDistinct(view[0], v, total);
      assert w[0] == Put(view[0], v, total) && w[1..] == view[1..];
      assert declared(v) == Some(One) ==> total == One && FindIn(view[0], v).None?;
    }
  }

  // What was counted inside, added outside.
  ghost predicate Committable(declared: Declared, e: Exact, level: Level) {
    && Distinct(level)
    && (forall i :: 0 <= i < |level| ==>
          && (declared(level[i].key) == Some(One) || declared(level[i].key) == Some(Many))
          && (declared(level[i].key) == Some(One) ==> e(level[i].key) == 0))
  }

  lemma {:induction false} CommitAgrees(declared: Declared, view: Counts, e0: Exact, e: Exact, level: Level,
        after: Exact)
    requires Agrees(declared, view, e0, e) && Committable(declared, e, level)
    requires forall v | declared(v) == Some(One) :: after(v) == if FindIn(level, v).Some? then 1 else e(v)
    requires forall v | declared(v) == Some(Zero) :: after(v) == 0
    ensures Commit(declared, view, level).ok && Agrees(declared, Commit(declared, view, level).view, e0, after)
    decreases |level|
  {
    if level != [] {
      var v := level[0].key;
      UseAgrees(declared, view, e0, e, v, One);
      var w, next := TryAdd(view, v, declared(v).value, One).value, Count(declared, e, Use(v), One, true).e;
      var rest := level[1..];
      assert forall i :: 0 <= i < |rest| ==> rest[i] == level[i + 1];
      AbsentAfter(level);
      CommitAgrees(declared, w, e0, next, rest, after);
    }
  }

  lemma AbsentAfter(level: Level)
    requires level != [] && Distinct(level)
    ensures FindIn(level[1..], level[0].key).None?
  {
    FindNowhere(level[1..], level[0].key);
  }

  lemma {:induction false} FoundSomewhere(level: Level, v: Var)
    requires FindIn(level, v).Some?
    ensures exists i :: 0 <= i < |level| && level[i].key == v && FindIn(level, v) == Some(level[i].value)
  {
    if level[0].key != v {
      FoundSomewhere(level[1..], v);
      var i :| 0 <= i < |level[1..]| && level[1..][i].key == v && FindIn(level[1..], v) == Some(level[1..][i].value);
      assert level[i + 1].key == v;
    }
  }

  lemma {:induction false} FoundWhere(level: Level, i: nat)
    requires i < |level|
    ensures FindIn(level, level[i].key).Some?
  {
    if i > 0 { FoundWhere(level[1..], i - 1); }
  }

  // The direct uses of an object created here can be committed here.
  lemma InsideCommits(declared: Declared, view: Counts, e0: Exact, e: Exact, inner: Counts, after: Exact)
    requires Agrees(declared, view, e0, e) && Agrees(declared, inner, e, after)
    ensures Commit(declared, view, inner[0]).ok && Agrees(declared, Commit(declared, view, inner[0]).view, e0, after)
  {
    forall i | 0 <= i < |inner[0]|
      ensures var k := inner[0][i].key;
              && (declared(k) == Some(One) || declared(k) == Some(Many)) && (declared(k) == Some(One) ==> e(k) == 0)
    {
      FoundWhere(inner[0], i);
    }
    CommitAgrees(declared, view, e0, e, inner[0], after);
  }

  lemma {:induction false} MergeFinds(a: Level, b: Level)
    requires Distinct(a)
    ensures Distinct(Merge(a, b))
    ensures forall v :: FindIn(Merge(a, b), v).Some? <==> FindIn(a, v).Some? || FindIn(b, v).Some?
    decreases |b|
  {
    if b != [] {
      var e := b[0];
      var a' := match FindIn(a, e.key) case None => a + [e] case Some(q) => Put(a, e.key, Larger(q, e.value));
      MergeStep(a, e, a');
      MergeFinds(a', b[1..]);
    }
  }

  lemma MergeStep(a: Level, e: Entry<Var, Qty>, a': Level)
    requires Distinct(a)
    requires a' == match FindIn(a, e.key) case None => a + [e] case Some(q) => Put(a, e.key, Larger(q, e.value))
    ensures Distinct(a') && forall v :: FindIn(a', v).Some? <==> FindIn(a, v).Some? || v == e.key
  {
    if FindIn(a, e.key).Some? {
      PutDistinct(a, e.key, Larger(FindIn(a, e.key).value, e.value));
    } else {
      forall i | 0 <= i < |a| ensures a[i].key != e.key { FoundWhere(a, i); }
      forall v ensures FindIn(a', v).Some? <==> FindIn(a, v).Some? || v == e.key {
        PutNew(a, e.key, e.value);
        assert a' == Put(a, e.key, e.value);
      }
    }
  }

  // Two branches: the worse of the two.
  lemma BranchesCommit(declared: Declared, view: Counts, e0: Exact, e: Exact, a: Charged, b: Charged, ea: Exact,
        eb: Exact)
    requires a.ok && b.ok && Agrees(declared, view, e0, e)
    requires Agrees(declared, a.view, e, ea) && Agrees(declared, b.view, e, eb)
    ensures var r := Joined(declared, view, a, b); r.ok && Agrees(declared, r.view, e0, Worst(ea, eb))
  {
    var level := Merge(a.view[0], b.view[0]);
    MergeFinds(a.view[0], b.view[0]);
    forall i | 0 <= i < |level|
      ensures var k := level[i].key;
              && (declared(k) == Some(One) || declared(k) == Some(Many)) && (declared(k) == Some(One) ==> e(k) == 0)
    {
      FoundWhere(level, i);
    }
    CommitAgrees(declared, view, e0, e, level, Worst(ea, eb));
  }

  // ---- lossy counting decides as exact counting does ----

  ghost predicate SameDecision(declared: Declared, e0: Exact, c: Charged, x: Counted) {
    c.ok == x.ok && (c.ok ==> Agrees(declared, c.view, e0, x.e))
  }

  lemma {:induction false} LossyIsExact(declared: Declared, view: Counts, e0: Exact, e: Exact, t: Term, m: Qty,
        expected: bool)
    requires Agrees(declared, view, e0, e)
    ensures SameDecision(declared, e0, Charge(declared, view, t, m, expected), Count(declared, e, t, m, expected))
    decreases t, 1
  {
    match t
    case Use(v) => if declared(v).Some? { UseAgrees(declared, view, e0, e, v, m); }
    case All(ts) => LossyIsExactAll(declared, view, e0, e, ts, m);
    case Scaled(q, s) => LossyIsExact(declared, view, e0, e, s, Product(m, q), expected);
    case Pair(lhs, rhs) =>
      AgreesInside(declared, view, e0, e);
      LossyIsExact(declared, [[]] + view, e, e, lhs, m, false);
      var a, xa := Charge(declared, [[]] + view, lhs, m, false), Count(declared, e, lhs, m, false);
      if a.ok {
        InsideCommits(declared, view, e0, e, a.view, xa.e);
        LossyIsExact(declared, Commit(declared, view, a.view[0]).view, e0, xa.e, rhs, m, true);
      } else {
        LossyIsExact(declared, [[]] + view, e, e, rhs, m, false);
        var b, xb := Charge(declared, [[]] + view, rhs, m, false), Count(declared, e, rhs, m, false);
        if b.ok {
          InsideCommits(declared, view, e0, e, b.view, xb.e);
          LossyIsExact(declared, Commit(declared, view, b.view[0]).view, e0, xb.e, lhs, m, true);
        }
      }
    case Head(s) => LossyIsExact(declared, view, e0, e, s, m, false);
    case NeedsType(s) => if expected { LossyIsExact(declared, view, e0, e, s, m, true); }
    case IllTyped(s) =>
    case Lambda(b) => LossyIsExactBlock(declared, view, e0, e, b.stmts, m);
  }

  lemma {:induction false} LossyIsExactAll(declared: Declared, view: Counts, e0: Exact, e: Exact, ts: seq<Term>, m: Qty)
    requires Agrees(declared, view, e0, e)
    ensures SameDecision(declared, e0, ChargeAll(declared, view, ts, m), CountAll(declared, e, ts, m))
    decreases ts, 0
  {
    if ts != [] {
      LossyIsExact(declared, view, e0, e, ts[0], m, true);
      var r, x := Charge(declared, view, ts[0], m, true), Count(declared, e, ts[0], m, true);
      if r.ok { LossyIsExactAll(declared, r.view, e0, x.e, ts[1..], m); }
    }
  }

  lemma {:induction false} LossyIsExactBlock(declared: Declared, view: Counts, e0: Exact, e: Exact, ss: seq<Step>,
        m: Qty)
    requires Agrees(declared, view, e0, e)
    ensures SameDecision(declared, e0, ChargeBlock(declared, view, ss, m), CountBlock(declared, e, ss, m))
    decreases ss, 0
  {
    if ss != [] {
      LossyIsExactStep(declared, view, e0, e, ss[0], m);
      var r, x := ChargeStep(declared, view, ss[0], m), CountStep(declared, e, ss[0], m);
      if r.ok { LossyIsExactBlock(declared, r.view, e0, x.e, ss[1..], m); }
    }
  }

  lemma {:induction false} LossyIsExactStep(declared: Declared, view: Counts, e0: Exact, e: Exact, s: Step, m: Qty)
    requires Agrees(declared, view, e0, e)
    ensures SameDecision(declared, e0, ChargeStep(declared, view, s, m), CountStep(declared, e, s, m))
    decreases s, 1
  {
    match s
    case Eval(t) => LossyIsExact(declared, view, e0, e, t, m, true);
    case Leave(t) => LossyIsExact(declared, view, e0, e, t, m, true);
    case If(c, t, k) =>
      LossyIsExact(declared, view, e0, e, c, m, true);
      var outer, x := Charge(declared, view, c, m, true), Count(declared, e, c, m, true);
      if outer.ok {
        AgreesInside(declared, outer.view, e0, x.e);
        LossyIsExactBlock(declared, [[]] + outer.view, x.e, x.e, t.stmts, m);
        LossyIsExactBlock(declared, [[]] + outer.view, x.e, x.e, k.stmts, m);
        var a, b := ChargeBlock(declared, [[]] + outer.view, t.stmts, m),
          ChargeBlock(declared, [[]] + outer.view, k.stmts, m);
        var xa, xb := CountBlock(declared, x.e, t.stmts, m), CountBlock(declared, x.e, k.stmts, m);
        if a.ok && b.ok { BranchesCommit(declared, outer.view, e0, x.e, a, b, xa.e, xb.e); }
      }
  }

  // ---- runs ----

  // Which way each `if` goes, by its position in the body.
  type Choice = seq<nat> -> bool

  datatype Spent = Spent(uses: nat, left: bool)

  // The weighted uses of a variable along one choice of branches.
  function Spend(v: Var, t: Term, m: Qty, at: seq<nat>, pick: Choice): nat
    decreases t, 1
  {
    match t
    case Use(u) => if u == v then AsNat(m) else 0
    case All(ts) => SpendAll(v, ts, m, at, pick)
    case Scaled(q, s) => Spend(v, s, Product(m, q), at, pick)
    case Pair(lhs, rhs) => Spend(v, lhs, m, at + [0], pick) + Spend(v, rhs, m, at + [1], pick)
    case Head(s) => Spend(v, s, m, at, pick)
    case NeedsType(s) => Spend(v, s, m, at, pick)
    case IllTyped(s) => Spend(v, s, m, at, pick)
    case Lambda(b) => SpendBlock(v, b.stmts, m, at, pick).uses
  }

  function SpendAll(v: Var, ts: seq<Term>, m: Qty, at: seq<nat>, pick: Choice): nat
    decreases ts, 0
  {
    if ts == [] then 0 else Spend(v, ts[0], m, at + [|ts|], pick) + SpendAll(v, ts[1..], m, at, pick)
  }

  function SpendBlock(v: Var, ss: seq<Step>, m: Qty, at: seq<nat>, pick: Choice): Spent
    decreases ss, 0
  {
    if ss == [] then Spent(0, false)
    else
      var first := SpendStep(v, ss[0], m, at + [|ss|], pick);
      if first.left then first
      else var rest := SpendBlock(v, ss[1..], m, at, pick); Spent(first.uses + rest.uses, rest.left)
  }

  function SpendStep(v: Var, s: Step, m: Qty, at: seq<nat>, pick: Choice): Spent
    decreases s, 1
  {
    match s
    case Eval(t) => Spent(Spend(v, t, m, at, pick), false)
    case Leave(t) => Spent(Spend(v, t, m, at, pick), true)
    case If(c, t, e) =>
      var cond := Spend(v, c, m, at + [0], pick);
      var branch := if pick(at) then SpendBlock(v, t.stmts, m, at + [1], pick)
        else SpendBlock(v, e.stmts, m, at + [2], pick);
      Spent(cond + branch.uses, branch.left)
  }

  // What is counted covers the uses of every run, and stays within what is declared.
  ghost predicate Covers(declared: Declared, e: Exact, uses: nat, v: Var, after: Exact) {
    declared(v).Some? ==> e(v) + uses <= after(v) && (Fits(e(v), declared(v).value) ==>
      Fits(after(v), declared(v).value))
  }

  lemma {:induction false} CountCovers(declared: Declared, e: Exact, t: Term, m: Qty, expected: bool, v: Var,
        at: seq<nat>, pick: Choice)
    requires Count(declared, e, t, m, expected).ok
    ensures Covers(declared, e, Spend(v, t, m, at, pick), v, Count(declared, e, t, m, expected).e)
    decreases t, 1
  {
    match t
    case Use(_) =>
    case All(ts) => CountCoversAll(declared, e, ts, m, v, at, pick);
    case Scaled(q, s) => CountCovers(declared, e, s, Product(m, q), expected, v, at, pick);
    case Pair(lhs, rhs) =>
      var a := Count(declared, e, lhs, m, false);
      if a.ok {
        CountCovers(declared, e, lhs, m, false, v, at + [0], pick);
        CountCovers(declared, a.e, rhs, m, true, v, at + [1], pick);
      } else {
        CountCovers(declared, e, rhs, m, false, v, at + [1], pick);
        CountCovers(declared, Count(declared, e, rhs, m, false).e, lhs, m, true, v, at + [0], pick);
      }
    case Head(s) => CountCovers(declared, e, s, m, false, v, at, pick);
    case NeedsType(s) => CountCovers(declared, e, s, m, true, v, at, pick);
    case Lambda(b) => CountCoversBlock(declared, e, b.stmts, m, v, at, pick);
  }

  lemma {:induction false} CountCoversAll(declared: Declared, e: Exact, ts: seq<Term>, m: Qty, v: Var, at: seq<nat>,
        pick: Choice)
    requires CountAll(declared, e, ts, m).ok
    ensures Covers(declared, e, SpendAll(v, ts, m, at, pick), v, CountAll(declared, e, ts, m).e)
    decreases ts, 0
  {
    if ts != [] {
      CountCovers(declared, e, ts[0], m, true, v, at + [|ts|], pick);
      CountCoversAll(declared, Count(declared, e, ts[0], m, true).e, ts[1..], m, v, at, pick);
    }
  }

  lemma {:induction false} CountCoversBlock(declared: Declared, e: Exact, ss: seq<Step>, m: Qty, v: Var, at: seq<nat>,
        pick: Choice)
    requires CountBlock(declared, e, ss, m).ok
    ensures Covers(declared, e, SpendBlock(v, ss, m, at, pick).uses, v, CountBlock(declared, e, ss, m).e)
    decreases ss, 0
  {
    if ss != [] {
      CountCoversStep(declared, e, ss[0], m, v, at + [|ss|], pick);
      CountCoversBlock(declared, CountStep(declared, e, ss[0], m).e, ss[1..], m, v, at, pick);
    }
  }

  lemma {:induction false} CountCoversStep(declared: Declared, e: Exact, s: Step, m: Qty, v: Var, at: seq<nat>,
        pick: Choice)
    requires CountStep(declared, e, s, m).ok
    ensures Covers(declared, e, SpendStep(v, s, m, at, pick).uses, v, CountStep(declared, e, s, m).e)
    decreases s, 1
  {
    match s
    case Eval(t) => CountCovers(declared, e, t, m, true, v, at, pick);
    case Leave(t) => CountCovers(declared, e, t, m, true, v, at, pick);
    case If(c, t, k) =>
      CountCovers(declared, e, c, m, true, v, at + [0], pick);
      var outer := Count(declared, e, c, m, true);
      CountCoversBlock(declared, outer.e, t.stmts, m, v, at + [1], pick);
      CountCoversBlock(declared, outer.e, k.stmts, m, v, at + [2], pick);
  }

  // ---- the theorems ----

  const NOTHING: Exact := _ => 0

  lemma AgreesAtFirst(declared: Declared)
    ensures Agrees(declared, [[]], NOTHING, NOTHING)
  {
  }

  /** Adding `one` for whatever a branch counted is harmless: a body is accepted just when exact counting accepts it. */
  lemma LossyDecidesAsExact(declared: Declared, ss: seq<Step>, m: Qty)
    ensures ChargeBlock(declared, [[]], ss, m).ok <==> CountBlock(declared, NOTHING, ss, m).ok
  {
    AgreesAtFirst(declared);
    LossyIsExactBlock(declared, [[]], NOTHING, NOTHING, ss, m);
  }

  /** Quantity soundness: along every choice of branches, the weighted uses of each variable stay within its
      quantity. */
  lemma QuantitiesSound(declared: Declared, ss: seq<Step>, m: Qty, v: Var, pick: Choice)
    requires ChargeBlock(declared, [[]], ss, m).ok && declared(v).Some?
    ensures Fits(SpendBlock(v, ss, m, [], pick).uses, declared(v).value)
  {
    LossyDecidesAsExact(declared, ss, m);
    CountCoversBlock(declared, NOTHING, ss, m, v, [], pick);
  }
}
