/** The quantity check is exact: what is well typed is accepted just when no run uses a variable too often. */
module QuantityExactness {
  import opened Ast
  import opened Usages
  import opened Quantities
  import opened QuantitySoundness

  // ---- programs whose only problem can be a quantity ----

  // Rejected whatever its uses.
  predicate Untypable(t: Term, expected: bool) {
    match t
    case NeedsType(_) => !expected
    case IllTyped(_) => true
    case Scaled(_, s) => Untypable(s, expected)
    case Head(s) => Untypable(s, false)
    case _ => false
  }

  predicate Typed(t: Term, expected: bool)
    decreases t, 1
  {
    match t
    case Use(_) => true
    case All(ts) => TypedAll(ts)
    case Scaled(_, s) => Typed(s, expected)
    case Pair(lhs, rhs) =>
      (Typed(lhs, false) && Typed(rhs, true)) || (Untypable(lhs, false) && Typed(rhs, false) && Typed(lhs, true))
    case Head(s) => Typed(s, false)
    case NeedsType(s) => expected && Typed(s, true)
    case IllTyped(_) => false
    case Lambda(b) => TypedBlock(b.stmts)
  }

  predicate TypedAll(ts: seq<Term>)
    decreases ts, 0
  {
    ts != [] ==> Typed(ts[0], true) && TypedAll(ts[1..])
  }

  // Nothing follows a statement that can leave: what follows would be checked but not run.
  predicate TypedBlock(ss: seq<Step>)
    decreases ss, 0
  {
    ss != [] ==> TypedStep(ss[0]) && TypedBlock(ss[1..]) && (ss[1..] != [] ==> !CanLeave(ss[0]))
  }

  predicate TypedStep(s: Step)
    decreases s, 1
  {
    match s
    case Eval(t) => Typed(t, true)
    case Leave(t) => Typed(t, true)
    case If(c, t, e) => Typed(c, true) && TypedBlock(t.stmts) && TypedBlock(e.stmts)
  }

  predicate CanLeave(s: Step)
    decreases s, 1
  {
    match s
    case Eval(_) => false
    case Leave(_) => true
    case If(_, t, e) => AnyLeaves(t.stmts) || AnyLeaves(e.stmts)
  }

  predicate AnyLeaves(ss: seq<Step>)
    decreases ss, 0
  {
    ss != [] && (CanLeave(ss[0]) || AnyLeaves(ss[1..]))
  }

  lemma {:induction false} StaysIn(v: Var, s: Step, m: Qty, at: seq<nat>, pick: Choice)
    requires !CanLeave(s)
    ensures !SpendStep(v, s, m, at, pick).left
    decreases s, 1
  {
    if s.If? {
      BlockStaysIn(v, s.thenB.stmts, m, at + [1], pick);
      BlockStaysIn(v, s.elseB.stmts, m, at + [2], pick);
    }
  }

  lemma {:induction false} BlockStaysIn(v: Var, ss: seq<Step>, m: Qty, at: seq<nat>, pick: Choice)
    requires !AnyLeaves(ss)
    ensures !SpendBlock(v, ss, m, at, pick).left
    decreases ss, 0
  {
    if ss != [] {
      StaysIn(v, ss[0], m, at + [|ss|], pick);
      BlockStaysIn(v, ss[1..], m, at, pick);
    }
  }

  // ---- what is used at a position depends on the choices below it ----

  predicate SameBelow(p: Choice, q: Choice, at: seq<nat>, pos: seq<nat>) {
    at <= pos ==> p(pos) == q(pos)
  }

  lemma {:induction false} SpendLocal(v: Var, t: Term, m: Qty, at: seq<nat>, p: Choice, q: Choice)
    requires forall pos :: SameBelow(p, q, at, pos)
    ensures Spend(v, t, m, at, p) == Spend(v, t, m, at, q)
    decreases t, 1
  {
    forall k: nat, pos ensures SameBelow(p, q, at + [k], pos) { Below(p, q, at, k, pos); }
    match t
    case Use(_) =>
    case All(ts) => SpendAllLocal(v, ts, m, at, p, q);
    case Scaled(d, s) => SpendLocal(v, s, Product(m, d), at, p, q);
    case Pair(lhs, rhs) =>
      SpendLocal(v, lhs, m, at + [0], p, q);
      SpendLocal(v, rhs, m, at + [1], p, q);
    case Head(s) => SpendLocal(v, s, m, at, p, q);
    case NeedsType(s) => SpendLocal(v, s, m, at, p, q);
    case IllTyped(s) => SpendLocal(v, s, m, at, p, q);
    case Lambda(b) => SpendBlockLocal(v, b.stmts, m, at, p, q);
  }

  lemma Below(p: Choice, q: Choice, at: seq<nat>, k: nat, pos: seq<nat>)
    requires SameBelow(p, q, at, pos)
    ensures SameBelow(p, q, at + [k], pos)
  {
  }

  lemma {:induction false} SpendAllLocal(v: Var, ts: seq<Term>, m: Qty, at: seq<nat>, p: Choice, q: Choice)
    requires forall k: nat, pos | k <= |ts| :: SameBelow(p, q, at + [k], pos)
    ensures SpendAll(v, ts, m, at, p) == SpendAll(v, ts, m, at, q)
    decreases ts, 0
  {
    if ts != [] {
      SpendLocal(v, ts[0], m, at + [|ts|], p, q);
      SpendAllLocal(v, ts[1..], m, at, p, q);
    }
  }

  lemma {:induction false} SpendBlockLocal(v: Var, ss: seq<Step>, m: Qty, at: seq<nat>, p: Choice, q: Choice)
    requires forall k: nat, pos | k <= |ss| :: SameBelow(p, q, at + [k], pos)
    ensures SpendBlock(v, ss, m, at, p) == SpendBlock(v, ss, m, at, q)
    decreases ss, 0
  {
    if ss != [] {
      SpendStepLocal(v, ss[0], m, at + [|ss|], p, q);
      SpendBlockLocal(v, ss[1..], m, at, p, q);
    }
  }

  lemma {:induction false} SpendStepLocal(v: Var, s: Step, m: Qty, at: seq<nat>, p: Choice, q: Choice)
    requires forall pos :: SameBelow(p, q, at, pos)
    ensures SpendStep(v, s, m, at, p) == SpendStep(v, s, m, at, q)
    decreases s, 1
  {
    forall k: nat, pos ensures SameBelow(p, q, at + [k], pos) { Below(p, q, at, k, pos); }
    match s
    case Eval(t) => SpendLocal(v, t, m, at, p, q);
    case Leave(t) => SpendLocal(v, t, m, at, p, q);
    case If(c, t, e) =>
      assert SameBelow(p, q, at, at);
      SpendLocal(v, c, m, at + [0], p, q);
      forall k: nat, j: nat, pos ensures SameBelow(p, q, at + [k] + [j], pos) { Below(p, q, at + [k], j, pos); }
      SpendBlockLocal(v, t.stmts, m, at + [1], p, q);
      SpendBlockLocal(v, e.stmts, m, at + [2], p, q);
  }

  // Below child `n` as in `p`, elsewhere as in `q`.
  function Merged(p: Choice, q: Choice, at: seq<nat>, n: nat): Choice {
    pos => if at + [n] <= pos then p(pos) else q(pos)
  }

  lemma MergedBelow(p: Choice, q: Choice, at: seq<nat>, n: nat)
    ensures forall pos :: SameBelow(Merged(p, q, at, n), p, at + [n], pos)
    ensures forall k: nat, pos | k != n :: SameBelow(Merged(p, q, at, n), q, at + [k], pos)
  {
    forall k: nat, pos | k != n ensures SameBelow(Merged(p, q, at, n), q, at + [k], pos) {
      if at + [k] <= pos { assert pos[|at|] == k; }
    }
  }

  // ---- every count is reached by some run ----

  ghost predicate AllFit(declared: Declared, e: Exact) {
    forall v | declared(v).Some? :: Fits(e(v), declared(v).value)
  }

  lemma {:induction false} UntypableFails(declared: Declared, e: Exact, t: Term, m: Qty, expected: bool)
    requires Untypable(t, expected)
    ensures !Count(declared, e, t, m, expected).ok
    decreases t
  {
    match t
    case Scaled(q, s) => UntypableFails(declared, e, s, Product(m, q), expected);
    case Head(s) => UntypableFails(declared, e, s, m, false);
    case _ =>
  }

  lemma StillFit(declared: Declared, e: Exact, t: Term, m: Qty, expected: bool)
    requires AllFit(declared, e) && Count(declared, e, t, m, expected).ok
    ensures AllFit(declared, Count(declared, e, t, m, expected).e)
  {
    forall v | declared(v).Some? ensures Fits(Count(declared, e, t, m, expected).e(v), declared(v).value) {
      CountCovers(declared, e, t, m, expected, v, [], _ => true);
    }
  }

  lemma StillFitStep(declared: Declared, e: Exact, s: Step, m: Qty)
    requires AllFit(declared, e) && CountStep(declared, e, s, m).ok
    ensures AllFit(declared, CountStep(declared, e, s, m).e)
  {
    forall v | declared(v).Some? ensures Fits(CountStep(declared, e, s, m).e(v), declared(v).value) {
      CountCoversStep(declared, e, s, m, v, [], _ => true);
    }
  }

  // If the first operand uses too much, checking it last does not help.
  lemma NoSecondChance(declared: Declared, e: Exact, lhs: Term, rhs: Term, m: Qty)
    requires AllFit(declared, e) && Typed(lhs, false) && !Count(declared, e, lhs, m, false).ok
    ensures !Count(declared, e, Pair(lhs, rhs), m, true).ok
    decreases Pair(lhs, rhs), 0
  {
    var v, pick := Overflows(declared, e, lhs, m, false, []);
    var b := Count(declared, e, rhs, m, false);
    if b.ok && Count(declared, b.e, lhs, m, true).ok {
      CountCovers(declared, e, rhs, m, false, v, [], pick);
      CountCovers(declared, b.e, lhs, m, true, v, [], pick);
    }
  }

  lemma {:induction false} Attains(declared: Declared, e: Exact, t: Term, m: Qty, expected: bool, v: Var, at: seq<nat>)
    returns (pick: Choice)
    requires AllFit(declared, e) && Typed(t, expected) && declared(v).Some? && Count(declared, e, t, m, expected).ok
    ensures e(v) + Spend(v, t, m, at, pick) == Count(declared, e, t, m, expected).e(v)
    decreases t, 2
  {
    pick := _ => true;
    match t
    case Use(_) =>
    case All(ts) => pick := AttainsAll(declared, e, ts, m, v, at);
    case Scaled(q, s) => pick := Attains(declared, e, s, Product(m, q), expected, v, at);
    case Pair(lhs, rhs) => pick := AttainsPair(declared, e, lhs, rhs, m, v, at);
    case Head(s) => pick := Attains(declared, e, s, m, false, v, at);
    case NeedsType(s) => pick := Attains(declared, e, s, m, true, v, at);
    case Lambda(b) => pick := AttainsBlock(declared, e, b.stmts, m, v, at);
  }

  lemma {:induction false} AttainsPair(declared: Declared, e: Exact, lhs: Term, rhs: Term, m: Qty, v: Var, at: seq<nat>)
    returns (pick: Choice)
    requires AllFit(declared, e) && Typed(Pair(lhs, rhs), true) && declared(v).Some?
             && Count(declared, e, Pair(lhs, rhs), m, true).ok
    ensures e(v) + Spend(v, Pair(lhs, rhs), m, at, pick) == Count(declared, e, Pair(lhs, rhs), m, true).e(v)
    decreases Pair(lhs, rhs), 1
  {
    var first := Typed(lhs, false) && Typed(rhs, true);
    var p, q;
    if first {
      if !Count(declared, e, lhs, m, false).ok { NoSecondChance(declared, e, lhs, rhs, m); }
      StillFit(declared, e, lhs, m, false);
      p := Attains(declared, e, lhs, m, false, v, at + [0]);
      q := Attains(declared, Count(declared, e, lhs, m, false).e, rhs, m, true, v, at + [1]);
    } else {
      UntypableFails(declared, e, lhs, m, false);
      StillFit(declared, e, rhs, m, false);
      q := Attains(declared, e, rhs, m, false, v, at + [1]);
      p := Attains(declared, Count(declared, e, rhs, m, false).e, lhs, m, true, v, at + [0]);
    }
    pick := Merged(p, q, at, 0);
    PairSpends(v, lhs, rhs, m, at, p, q);
  }

  lemma PairSpends(v: Var, lhs: Term, rhs: Term, m: Qty, at: seq<nat>, p: Choice, q: Choice)
    ensures Spend(v, Pair(lhs, rhs), m, at, Merged(p, q, at, 0))
            == Spend(v, lhs, m, at + [0], p) + Spend(v, rhs, m, at + [1], q)
  {
    MergedBelow(p, q, at, 0);
    SpendLocal(v, lhs, m, at + [0], Merged(p, q, at, 0), p);
    SpendLocal(v, rhs, m, at + [1], Merged(p, q, at, 0), q);
  }

  lemma AllSpends(v: Var, ts: seq<Term>, m: Qty, at: seq<nat>, p: Choice, q: Choice)
    requires ts != []
    ensures SpendAll(v, ts, m, at, Merged(p, q, at, |ts|))
            == Spend(v, ts[0], m, at + [|ts|], p) + SpendAll(v, ts[1..], m, at, q)
  {
    MergedBelow(p, q, at, |ts|);
    SpendLocal(v, ts[0], m, at + [|ts|], Merged(p, q, at, |ts|), p);
    SpendAllLocal(v, ts[1..], m, at, Merged(p, q, at, |ts|), q);
  }

  lemma BlockSpends(v: Var, ss: seq<Step>, m: Qty, at: seq<nat>, p: Choice, q: Choice)
    requires ss != [] && TypedBlock(ss)
    ensures SpendBlock(v, ss, m, at, Merged(p, q, at, |ss|)).uses ==
            SpendStep(v, ss[0], m, at + [|ss|], p).uses + SpendBlock(v, ss[1..], m, at, q).uses
  {
    MergedBelow(p, q, at, |ss|);
    SpendStepLocal(v, ss[0], m, at + [|ss|], Merged(p, q, at, |ss|), p);
    SpendBlockLocal(v, ss[1..], m, at, Merged(p, q, at, |ss|), q);
    if ss[1..] != [] { StaysIn(v, ss[0], m, at + [|ss|], p); }
  }

  // The condition as in `p`, the chosen branch as in `q`.
  function Chosen(p: Choice, q: Choice, at: seq<nat>, way: bool): Choice {
    Merged(p, pos => if pos == at then way else q(pos), at, 0)
  }

  lemma IfSpends(v: Var, s: Step, m: Qty, at: seq<nat>, p: Choice, q: Choice, way: bool)
    requires s.If?
    ensures SpendStep(v, s, m, at, Chosen(p, q, at, way)).uses ==
            Spend(v, s.cond, m, at + [0], p) +
            (if way then SpendBlock(v, s.thenB.stmts, m, at + [1], q).uses
              else SpendBlock(v, s.elseB.stmts, m, at + [2], q).uses)
  {
    var here: Choice := pos => if pos == at then way else q(pos);
    var pick := Chosen(p, q, at, way);
    MergedBelow(p, here, at, 0);
    SpendLocal(v, s.cond, m, at + [0], pick, p);
    forall k: nat, j: nat, pos | k != 0 ensures SameBelow(pick, q, at + [k] + [j], pos) {
      assert SameBelow(pick, here, at + [k], pos);
      Below(pick, here, at + [k], j, pos);
      if at + [k] + [j] <= pos { assert |pos| > |at|; }
    }
    SpendBlockLocal(v, s.thenB.stmts, m, at + [1], pick, q);
    SpendBlockLocal(v, s.elseB.stmts, m, at + [2], pick, q);
    assert pick(at) == way;
  }

  lemma {:induction false} AttainsAll(declared: Declared, e: Exact, ts: seq<Term>, m: Qty, v: Var, at: seq<nat>)
    returns (pick: Choice)
    requires AllFit(declared, e) && TypedAll(ts) && declared(v).Some? && CountAll(declared, e, ts, m).ok
    ensures e(v) + SpendAll(v, ts, m, at, pick) == CountAll(declared, e, ts, m).e(v)
    decreases ts, 0
  {
    pick := _ => true;
    if ts != [] {
      StillFit(declared, e, ts[0], m, true);
      var p := Attains(declared, e, ts[0], m, true, v, at + [|ts|]);
      var q := AttainsAll(declared, Count(declared, e, ts[0], m, true).e, ts[1..], m, v, at);
      pick := Merged(p, q, at, |ts|);
      AllSpends(v, ts, m, at, p, q);
    }
  }

  lemma {:induction false} AttainsBlock(declared: Declared, e: Exact, ss: seq<Step>, m: Qty, v: Var, at: seq<nat>)
    returns (pick: Choice)
    requires AllFit(declared, e) && TypedBlock(ss) && declared(v).Some? && CountBlock(declared, e, ss, m).ok
    ensures e(v) + SpendBlock(v, ss, m, at, pick).uses == CountBlock(declared, e, ss, m).e(v)
    decreases ss, 0
  {
    pick := _ => true;
    if ss != [] {
      StillFitStep(declared, e, ss[0], m);
      var p := AttainsStep(declared, e, ss[0], m, v, at + [|ss|]);
      var q := AttainsBlock(declared, CountStep(declared, e, ss[0], m).e, ss[1..], m, v, at);
      pick := Merged(p, q, at, |ss|);
      BlockSpends(v, ss, m, at, p, q);
    }
  }

  lemma {:induction false} AttainsStep(declared: Declared, e: Exact, s: Step, m: Qty, v: Var, at: seq<nat>)
    returns (pick: Choice)
    requires AllFit(declared, e) && TypedStep(s) && declared(v).Some? && CountStep(declared, e, s, m).ok
    ensures e(v) + SpendStep(v, s, m, at, pick).uses == CountStep(declared, e, s, m).e(v)
    decreases s, 1
  {
    match s
    case Eval(t) => pick := Attains(declared, e, t, m, true, v, at);
    case Leave(t) => pick := Attains(declared, e, t, m, true, v, at);
    case If(c, t, k) =>
      StillFit(declared, e, c, m, true);
      var outer := Count(declared, e, c, m, true).e;
      var p := Attains(declared, e, c, m, true, v, at + [0]);
      var a := AttainsBlock(declared, outer, t.stmts, m, v, at + [1]);
      var b := AttainsBlock(declared, outer, k.stmts, m, v, at + [2]);
      var way := CountBlock(declared, outer, k.stmts, m).e(v) <= CountBlock(declared, outer, t.stmts, m).e(v);
      pick := Chosen(p, if way then a else b, at, way);
      IfSpends(v, s, m, at, p, if way then a else b, way);
  }

  // ---- a rejection is some run's fault ----

  ghost predicate Exceeds(declared: Declared, v: Var, n: nat) {
    declared(v).Some? && !Fits(n, declared(v).value)
  }

  lemma {:induction false} Overflows(declared: Declared, e: Exact, t: Term, m: Qty, expected: bool, at: seq<nat>)
    returns (v: Var, pick: Choice)
    requires AllFit(declared, e) && Typed(t, expected) && !Count(declared, e, t, m, expected).ok
    ensures Exceeds(declared, v, e(v) + Spend(v, t, m, at, pick))
    decreases t, 2
  {
    match t
    case Use(u) => v, pick := u, _ => true;
    case All(ts) => v, pick := OverflowsAll(declared, e, ts, m, at);
    case Scaled(q, s) => v, pick := Overflows(declared, e, s, Product(m, q), expected, at);
    case Pair(lhs, rhs) => v, pick := OverflowsPair(declared, e, lhs, rhs, m, at);
    case Head(s) => v, pick := Overflows(declared, e, s, m, false, at);
    case NeedsType(s) => v, pick := Overflows(declared, e, s, m, true, at);
    case Lambda(b) => v, pick := OverflowsBlock(declared, e, b.stmts, m, at);
  }

  lemma {:induction false} OverflowsPair(declared: Declared, e: Exact, lhs: Term, rhs: Term, m: Qty, at: seq<nat>)
    returns (v: Var, pick: Choice)
    requires AllFit(declared, e) && Typed(Pair(lhs, rhs), true) && !Count(declared, e, Pair(lhs, rhs), m, true).ok
    ensures Exceeds(declared, v, e(v) + Spend(v, Pair(lhs, rhs), m, at, pick))
    decreases Pair(lhs, rhs), 1
  {
    var p, q;
    if Typed(lhs, false) && Typed(rhs, true) {
      if Count(declared, e, lhs, m, false).ok {
        StillFit(declared, e, lhs, m, false);
        v, q := Overflows(declared, Count(declared, e, lhs, m, false).e, rhs, m, true, at + [1]);
        p := Attains(declared, e, lhs, m, false, v, at + [0]);
      } else {
        v, p := Overflows(declared, e, lhs, m, false, at + [0]);
        q := p;
      }
    } else {
      UntypableFails(declared, e, lhs, m, false);
      if Count(declared, e, rhs, m, false).ok {
        StillFit(declared, e, rhs, m, false);
        v, p := Overflows(declared, Count(declared, e, rhs, m, false).e, lhs, m, true, at + [0]);
        q := Attains(declared, e, rhs, m, false, v, at + [1]);
      } else {
        v, q := Overflows(declared, e, rhs, m, false, at + [1]);
        p := q;
      }
    }
    pick := Merged(p, q, at, 0);
    PairSpends(v, lhs, rhs, m, at, p, q);
  }

  lemma {:induction false} OverflowsAll(declared: Declared, e: Exact, ts: seq<Term>, m: Qty, at: seq<nat>)
    returns (v: Var, pick: Choice)
    requires AllFit(declared, e) && TypedAll(ts) && !CountAll(declared, e, ts, m).ok
    ensures Exceeds(declared, v, e(v) + SpendAll(v, ts, m, at, pick))
    decreases ts, 0
  {
    var first := Count(declared, e, ts[0], m, true);
    var p, q;
    if first.ok {
      StillFit(declared, e, ts[0], m, true);
      v, q := OverflowsAll(declared, first.e, ts[1..], m, at);
      p := Attains(declared, e, ts[0], m, true, v, at + [|ts|]);
    } else {
      v, p := Overflows(declared, e, ts[0], m, true, at + [|ts|]);
      q := p;
    }
    pick := Merged(p, q, at, |ts|);
    AllSpends(v, ts, m, at, p, q);
  }

  lemma {:induction false} OverflowsBlock(declared: Declared, e: Exact, ss: seq<Step>, m: Qty, at: seq<nat>)
    returns (v: Var, pick: Choice)
    requires AllFit(declared, e) && TypedBlock(ss) && !CountBlock(declared, e, ss, m).ok
    ensures Exceeds(declared, v, e(v) + SpendBlock(v, ss, m, at, pick).uses)
    decreases ss, 0
  {
    var first := CountStep(declared, e, ss[0], m);
    var p, q;
    if first.ok {
      StillFitStep(declared, e, ss[0], m);
      v, q := OverflowsBlock(declared, first.e, ss[1..], m, at);
      p := AttainsStep(declared, e, ss[0], m, v, at + [|ss|]);
    } else {
      v, p := OverflowsStep(declared, e, ss[0], m, at + [|ss|]);
      q := p;
    }
    pick := Merged(p, q, at, |ss|);
    BlockSpends(v, ss, m, at, p, q);
  }

  lemma {:induction false} OverflowsStep(declared: Declared, e: Exact, s: Step, m: Qty, at: seq<nat>)
    returns (v: Var, pick: Choice)
    requires AllFit(declared, e) && TypedStep(s) && !CountStep(declared, e, s, m).ok
    ensures Exceeds(declared, v, e(v) + SpendStep(v, s, m, at, pick).uses)
    decreases s, 1
  {
    match s
    case Eval(t) => v, pick := Overflows(declared, e, t, m, true, at);
    case Leave(t) => v, pick := Overflows(declared, e, t, m, true, at);
    case If(c, t, k) =>
      var outer := Count(declared, e, c, m, true);
      if outer.ok {
        StillFit(declared, e, c, m, true);
        var way := !CountBlock(declared, outer.e, t.stmts, m).ok;
        var q;
        if way { v, q := OverflowsBlock(declared, outer.e, t.stmts, m, at + [1]); }
        else { v, q := OverflowsBlock(declared, outer.e, k.stmts, m, at + [2]); }
        var p := Attains(declared, e, c, m, true, v, at + [0]);
        pick := Chosen(p, q, at, way);
        IfSpends(v, s, m, at, p, q, way);
      } else {
        var p;
        v, p := Overflows(declared, e, c, m, true, at + [0]);
        pick := Chosen(p, p, at, true);
        IfSpends(v, s, m, at, p, p, true);
      }
  }

  /** Accepted if and only if no variable is used more often than declared, whichever branches are taken. */
  lemma QuantitiesExact(declared: Declared, ss: seq<Step>, m: Qty)
    requires TypedBlock(ss)
    ensures ChargeBlock(declared, [[]], ss, m).ok <==>
            forall v, pick | declared(v).Some? :: Fits(SpendBlock(v, ss, m, [], pick).uses, declared(v).value)
  {
    LossyDecidesAsExact(declared, ss, m);
    if ChargeBlock(declared, [[]], ss, m).ok {
      forall v, pick | declared(v).Some? ensures Fits(SpendBlock(v, ss, m, [], pick).uses, declared(v).value) {
        QuantitiesSound(declared, ss, m, v, pick);
      }
    } else {
      var v, pick := OverflowsBlock(declared, NOTHING, ss, m, []);
      assert !Fits(SpendBlock(v, ss, m, [], pick).uses, declared(v).value);
    }
  }

  // ---- code after a statement that can leave ----

  // The same program if leaving a block did not stop it: the checker cannot tell the two apart.
  function Stay(t: Term): Term
    decreases t, 1
  {
    match t
    case Use(_) => t
    case All(ts) => All(StayAll(ts))
    case Scaled(q, s) => Scaled(q, Stay(s))
    case Pair(lhs, rhs) => Pair(Stay(lhs), Stay(rhs))
    case Head(s) => Head(Stay(s))
    case NeedsType(s) => NeedsType(Stay(s))
    case IllTyped(s) => IllTyped(Stay(s))
    case Lambda(b) => Lambda(Block(StayBlock(b.stmts)))
  }

  function StayAll(ts: seq<Term>): (r: seq<Term>)
    ensures |r| == |ts|
    decreases ts, 0
  {
    if ts == [] then [] else [Stay(ts[0])] + StayAll(ts[1..])
  }

  function StayBlock(ss: seq<Step>): (r: seq<Step>)
    ensures |r| == |ss|
    decreases ss, 0
  {
    if ss == [] then [] else [StayStep(ss[0])] + StayBlock(ss[1..])
  }

  function StayStep(s: Step): Step
    decreases s, 1
  {
    match s
    case Eval(t) => Eval(Stay(t))
    case Leave(t) => Eval(Stay(t))
    case If(c, t, e) => If(Stay(c), Block(StayBlock(t.stmts)), Block(StayBlock(e.stmts)))
  }

  lemma {:induction false} StayCharges(declared: Declared, view: Counts, t: Term, m: Qty, expected: bool)
    requires view != []
    ensures Charge(declared, view, Stay(t), m, expected) == Charge(declared, view, t, m, expected)
    decreases t, 1
  {
    match t
    case Use(_) =>
    case All(ts) => StayChargesAll(declared, view, ts, m);
    case Scaled(q, s) => StayCharges(declared, view, s, Product(m, q), expected);
    case Pair(lhs, rhs) =>
      StayCharges(declared, [[]] + view, lhs, m, false);
      StayCharges(declared, [[]] + view, rhs, m, false);
      var a, b := Charge(declared, [[]] + view, lhs, m, false), Charge(declared, [[]] + view, rhs, m, false);
      StayCharges(declared, Commit(declared, view, a.view[0]).view, rhs, m, true);
      StayCharges(declared, Commit(declared, view, b.view[0]).view, lhs, m, true);
    case Head(s) => StayCharges(declared, view, s, m, false);
    case NeedsType(s) => StayCharges(declared, view, s, m, true);
    case IllTyped(s) => StayCharges(declared, view, s, m, expected);
    case Lambda(b) => StayChargesBlock(declared, view, b.stmts, m);
  }

  lemma {:induction false} StayChargesAll(declared: Declared, view: Counts, ts: seq<Term>, m: Qty)
    requires view != []
    ensures ChargeAll(declared, view, StayAll(ts), m) == ChargeAll(declared, view, ts, m)
    decreases ts, 0
  {
    if ts != [] {
      StayCharges(declared, view, ts[0], m, true);
      StayChargesAll(declared, Charge(declared, view, ts[0], m, true).view, ts[1..], m);
      assert StayAll(ts)[1..] == StayAll(ts[1..]);
    }
  }

  lemma {:induction false} StayChargesBlock(declared: Declared, view: Counts, ss: seq<Step>, m: Qty)
    requires view != []
    ensures ChargeBlock(declared, view, StayBlock(ss), m) == ChargeBlock(declared, view, ss, m)
    decreases ss, 0
  {
    if ss != [] {
      StayChargesStep(declared, view, ss[0], m);
      StayChargesBlock(declared, ChargeStep(declared, view, ss[0], m).view, ss[1..], m);
      assert StayBlock(ss)[1..] == StayBlock(ss[1..]);
    }
  }

  lemma {:induction false} StayChargesStep(declared: Declared, view: Counts, s: Step, m: Qty)
    requires view != []
    ensures ChargeStep(declared, view, StayStep(s), m) == ChargeStep(declared, view, s, m)
    decreases s, 1
  {
    match s
    case Eval(t) => StayCharges(declared, view, t, m, true);
    case Leave(t) => StayCharges(declared, view, t, m, true);
    case If(c, t, e) =>
      StayCharges(declared, view, c, m, true);
      var outer := Charge(declared, view, c, m, true).view;
      StayChargesBlock(declared, [[]] + outer, t.stmts, m);
      StayChargesBlock(declared, [[]] + outer, e.stmts, m);
  }

  /** With code after statements that can leave, acceptance is still exact, for runs that are not stopped by them. */
  lemma QuantitiesExactThrough(declared: Declared, ss: seq<Step>, m: Qty)
    requires TypedBlock(StayBlock(ss))
    ensures ChargeBlock(declared, [[]], ss, m).ok <==>
            forall v, pick | declared(v).Some? ::
              Fits(SpendBlock(v, StayBlock(ss), m, [], pick).uses, declared(v).value)
  {
    StayChargesBlock(declared, [[]], ss, m);
    QuantitiesExact(declared, StayBlock(ss), m);
  }

  const ALWAYS: Choice := _ => true

  /** `if (c) return x; return x;` is rejected for a linear `x`, although no run uses it twice. */
  lemma UsedAfterLeaving(declared: Declared, x: Var, pick: Choice)
    requires declared(x) == Some(One)
    ensures var ss := [If(All([]), Block([Leave(Use(x))]), Block([])), Leave(Use(x))];
            && !TypedBlock(ss) && TypedBlock(StayBlock(ss)) && !ChargeBlock(declared, [[]], ss, One).ok
            && SpendBlock(x, ss, One, [], pick).uses == 1
  {
    var s, z := If(All([]), Block([Leave(Use(x))]), Block([])), Leave(Use(x));
    var ss := [s, z];
    assert ss[1..] == [z];
    StaysUsed(x);
    OneStep(x, z, pick);
    var root: seq<nat> := [];
    assert root + [1] == [1] && root + [2] == [2];
    assert SpendStep(x, z, One, [1], pick) == Spent(1, true);
    assert SpendStep(x, z, One, [2] + [1] + [1], pick) == Spent(1, true);
    assert SpendStep(x, s, One, [2], pick) == Spent(if pick([2]) then 1 else 0, pick([2]));
    QuantitiesExactThrough(declared, ss, One);
    assert !Fits(SpendBlock(x, StayBlock(ss), One, [], ALWAYS).uses, One);
  }

  lemma StaysUsed(x: Var)
    ensures var z := Leave(Use(x));
            var s := If(All([]), Block([z]), Block([]));
            && CanLeave(s) && TypedBlock(StayBlock([s, z]))
            && SpendBlock(x, StayBlock([s, z]), One, [], ALWAYS).uses == 2
  {
    var z, e, root: seq<nat> := Leave(Use(x)), Eval(Use(x)), [];
    assert root + [1] == [1] && root + [2] == [2];
    var s, i := If(All([]), Block([z]), Block([])), If(All([]), Block([e]), Block([]));
    assert StayStep(z) == e;
    OneStep(x, z, ALWAYS);
    OneStep(x, e, ALWAYS);
    assert StayStep(s) == i;
    assert [s, z][1..] == [z] && [i, e][1..] == [e];
    assert StayBlock([s, z]) == [i, e];
    assert SpendStep(x, e, One, [1], ALWAYS) == Spent(1, false);
    assert SpendStep(x, e, One, [2] + [1] + [1], ALWAYS) == Spent(1, false);
    assert SpendStep(x, i, One, [2], ALWAYS) == Spent(1, false);
  }

  lemma OneStep(x: Var, s: Step, pick: Choice)
    ensures forall at :: SpendBlock(x, [s], One, at, pick) == SpendStep(x, s, One, at + [1], pick)
    ensures StayBlock([s]) == [StayStep(s)] && TypedBlock([s]) == TypedStep(s) && AnyLeaves([s]) == CanLeave(s)
    ensures forall at :: SpendBlock(x, [], One, at, pick) == Spent(0, false)
  {
    assert [s][1..] == [] && StayBlock([]) == [];
  }
}
