/** How type-checking charges the uses of variables, against exact counting and against what a run can use.

    Terms are reduced to what matters for quantities: which variables they use, how often the context is used, and
    whether a type can be assigned to them. The checker works with lossy counts on nested usage objects. */
module Quantities {
  import opened Ast
  import opened ScopeMaps
  import opened Usages

  datatype Term =
    | Use(v: Var)
    | All(ts: seq<Term>)             // sub-terms, checked from left to right
    | Scaled(q: Qty, t: Term)        // an argument of quantity `q`; what is subscripted (many); a reason (zero)
    | Pair(lhs: Term, rhs: Term)     // two operands: the first that can be assigned a type gives it to the other
    | Head(t: Term)                  // a position with no expected type, such as the function of an application
    | NeedsType(t: Term)             // rejected unless a type is expected, such as a numeric constant
    | IllTyped(t: Term)              // rejected after its uses, for a reason that has nothing to do with quantities
    | Lambda(body: Block)

  datatype Block = Block(stmts: seq<Step>)
  datatype Step =
    | Eval(t: Term)
    | Leave(t: Term)
    | If(cond: Term, thenB: Block, elseB: Block)  // a missing else-branch is an empty one

  datatype Charged = Charged(ok: bool, view: Counts)

  // ---- the checker ----

  function Commit(declared: Declared, view: Counts, level: Level): (r: Charged)
    requires view != []
    ensures |r.view| == |view| && r.view[1..] == view[1..]
  {
    match TryAddAll(declared, view, level) case None => Charged(false, view) case Some(w) => Charged(true, w)
  }

  function Charge(declared: Declared, view: Counts, t: Term, m: Qty, expected: bool): (r: Charged)
    requires view != []
    ensures |r.view| == |view| && r.view[1..] == view[1..]
    decreases t, 1
  {
    match t
    case Use(v) =>
      if declared(v).None? then Charged(true, view)
      else (match TryAdd(view, v, declared(v).value, m)
            case None => Charged(false, view)
            case Some(w) => Charged(true, w))
    case All(ts) => ChargeAll(declared, view, ts, m)
    case Scaled(q, s) => Charge(declared, view, s, Product(m, q), expected)
    case Pair(lhs, rhs) =>
      var a := Charge(declared, [[]] + view, lhs, m, false);
      if a.ok then
        var committed := Commit(declared, view, a.view[0]);
        if committed.ok then Charge(declared, committed.view, rhs, m, true) else committed
      else
        var b := Charge(declared, [[]] + view, rhs, m, false);
        if !b.ok then Charged(false, view)
        else
          var committed := Commit(declared, view, b.view[0]);
          if committed.ok then Charge(declared, committed.view, lhs, m, true) else committed
    case Head(s) => Charge(declared, view, s, m, false)
    case NeedsType(s) => if expected then Charge(declared, view, s, m, true) else Charged(false, view)
    case IllTyped(s) => Charged(false, Charge(declared, view, s, m, expected).view)
    case Lambda(b) => ChargeBlock(declared, view, b.stmts, m)
  }

  function ChargeAll(declared: Declared, view: Counts, ts: seq<Term>, m: Qty): (r: Charged)
    requires view != []
    ensures |r.view| == |view| && r.view[1..] == view[1..]
    decreases ts, 0
  {
    if ts == [] then Charged(true, view)
    else
      var r := Charge(declared, view, ts[0], m, true);
      if r.ok then ChargeAll(declared, r.view, ts[1..], m) else r
  }

  function ChargeBlock(declared: Declared, view: Counts, ss: seq<Step>, m: Qty): (r: Charged)
    requires view != []
    ensures |r.view| == |view| && r.view[1..] == view[1..]
    decreases ss, 0
  {
    if ss == [] then Charged(true, view)
    else
      var r := ChargeStep(declared, view, ss[0], m);
      if r.ok then ChargeBlock(declared, r.view, ss[1..], m) else r
  }

  // Each branch starts afresh from the outer counts; the larger direct use of the two is then added outside.
  function ChargeStep(declared: Declared, view: Counts, s: Step, m: Qty): (r: Charged)
    requires view != []
    ensures |r.view| == |view| && r.view[1..] == view[1..]
    decreases s, 1
  {
    match s
    case Eval(t) => Charge(declared, view, t, m, true)
    case Leave(t) => Charge(declared, view, t, m, true)
    case If(c, t, e) =>
      var outer := Charge(declared, view, c, m, true);
      if outer.ok then
        Joined(declared, outer.view, ChargeBlock(declared, [[]] + outer.view, t.stmts, m),
          ChargeBlock(declared, [[]] + outer.view, e.stmts, m))
      else outer
  }

  function Joined(declared: Declared, view: Counts, a: Charged, b: Charged): (r: Charged)
    requires view != [] && a.view != [] && b.view != []
    ensures |r.view| == |view| && r.view[1..] == view[1..]
  {
    if a.ok && b.ok then Commit(declared, view, Merge(a.view[0], b.view[0])) else Charged(false, view)
  }

  // ---- the checker on usage objects ----

  method CheckTerm(declared: Declared, usage: Usage, t: Term, m: Qty, expected: bool) returns (ok: bool)
    requires usage.Valid()
    modifies usage, usage.count
    ensures usage.Valid() && (usage.count == old(usage.count) || fresh(usage.count))
    ensures Charge(declared, old(usage.Counts()), t, m, expected) == Charged(ok, usage.Counts())
    decreases t, 1
  {
    match t
    case Use(v) =>
      if declared(v).None? {
        ok := true;
      } else {
        ok := usage.TryAddDecl(v, declared(v).value, m, {});
      }
    case All(ts) => ok := CheckTerms(declared, usage, ts, m);
    case Scaled(q, s) => ok := CheckTerm(declared, usage, s, Product(m, q), expected);
    case Pair(lhs, rhs) => ok := CheckPair(declared, usage, lhs, rhs, m);
    case Head(s) => ok := CheckTerm(declared, usage, s, m, false);
    case NeedsType(s) =>
      if expected {
        ok := CheckTerm(declared, usage, s, m, true);
      } else {
        ok := false;
      }
    case IllTyped(s) =>
      var _ := CheckTerm(declared, usage, s, m, expected);
      ok := false;
    case Lambda(b) => ok := CheckBlock(declared, usage, b.stmts, m);
  }

  // Type-assignment is speculative: its uses are committed only if it succeeds.
  method CheckPair(declared: Declared, usage: Usage, lhs: Term, rhs: Term, m: Qty) returns (ok: bool)
    requires usage.Valid()
    modifies usage, usage.count
    ensures usage.Valid() && (usage.count == old(usage.count) || fresh(usage.count))
    ensures Charge(declared, old(usage.Counts()), Pair(lhs, rhs), m, false) == Charged(ok, usage.Counts())
    decreases Pair(lhs, rhs), 0
  {
    var typed;
    typed, ok := Speculate(declared, usage, lhs, m);
    if typed {
      if ok {
        ok := CheckTerm(declared, usage, rhs, m, true);
      }
    } else {
      typed, ok := Speculate(declared, usage, rhs, m);
      if typed && ok {
        ok := CheckTerm(declared, usage, lhs, m, true);
      }
    }
  }

  method Speculate(declared: Declared, usage: Usage, t: Term, m: Qty) returns (typed: bool, ok: bool)
    requires usage.Valid()
    modifies usage, usage.count
    ensures usage.Valid() && (usage.count == old(usage.count) || fresh(usage.count))
    ensures typed == Charge(declared, [[]] + old(usage.Counts()), t, m, false).ok
    ensures typed ==>
              Charged(ok, usage.Counts()) ==
              Commit(declared, old(usage.Counts()), Charge(declared, [[]] + old(usage.Counts()), t, m, false).view[0])
    ensures !typed ==> !ok && usage.Counts() == old(usage.Counts())
    decreases t, 3
  {
    var tmp;
    typed, tmp := AssignInside(declared, usage, t, m);
    ok := false;
    if typed {
      ok := usage.TryAddUsage(declared, tmp, {});
    }
  }

  method AssignInside(declared: Declared, usage: Usage, t: Term, m: Qty) returns (ok: bool, inner: Usage)
    requires usage.Valid()
    ensures fresh(inner) && fresh(inner.count) && inner.Valid()
    ensures Charge(declared, [[]] + usage.Counts(), t, m, false) == Charged(ok, inner.Counts())
    decreases t, 2
  {
    inner := usage.Extend();
    ok := CheckTerm(declared, inner, t, m, false);
  }

  method CheckTerms(declared: Declared, usage: Usage, ts: seq<Term>, m: Qty) returns (ok: bool)
    requires usage.Valid()
    modifies usage, usage.count
    ensures usage.Valid() && (usage.count == old(usage.count) || fresh(usage.count))
    ensures ChargeAll(declared, old(usage.Counts()), ts, m) == Charged(ok, usage.Counts())
    decreases ts, 0
  {
    ok := true;
    if ts != [] {
      ok := CheckTerm(declared, usage, ts[0], m, true);
      if ok {
        ok := CheckTerms(declared, usage, ts[1..], m);
      }
    }
  }

  method CheckBlock(declared: Declared, usage: Usage, ss: seq<Step>, m: Qty) returns (ok: bool)
    requires usage.Valid()
    modifies usage, usage.count
    ensures usage.Valid() && (usage.count == old(usage.count) || fresh(usage.count))
    ensures ChargeBlock(declared, old(usage.Counts()), ss, m) == Charged(ok, usage.Counts())
    decreases ss, 0
  {
    ok := true;
    if ss != [] {
      ok := CheckStep(declared, usage, ss[0], m);
      if ok {
        ok := CheckBlock(declared, usage, ss[1..], m);
      }
    }
  }

  method CheckStep(declared: Declared, usage: Usage, s: Step, m: Qty) returns (ok: bool)
    requires usage.Valid()
    modifies usage, usage.count
    ensures usage.Valid() && (usage.count == old(usage.count) || fresh(usage.count))
    ensures ChargeStep(declared, old(usage.Counts()), s, m) == Charged(ok, usage.Counts())
    decreases s, 1
  {
    match s
    case Eval(t) => ok := CheckTerm(declared, usage, t, m, true);
    case Leave(t) => ok := CheckTerm(declared, usage, t, m, true);
    case If(c, t, e) =>
      ok := CheckTerm(declared, usage, c, m, true);
      if ok {
        ok := CheckBranches(declared, usage, s, m);
      }
  }

  method CheckBranches(declared: Declared, usage: Usage, s: Step, m: Qty) returns (ok: bool)
    requires s.If? && usage.Valid()
    modifies usage, usage.count
    ensures usage.Valid() && (usage.count == old(usage.count) || fresh(usage.count))
    ensures Charged(ok, usage.Counts()) ==
            Joined(declared, old(usage.Counts()), ChargeBlock(declared, [[]] + old(usage.Counts()), s.thenB.stmts, m),
                   ChargeBlock(declared, [[]] + old(usage.Counts()), s.elseB.stmts, m))
    decreases s, 0, 1
  {
    var inTrue, inFalse;
    ok, inTrue, inFalse := CheckBoth(declared, usage, s, m);
    if ok {
      ok := CombineUsages(declared, usage, inTrue, inFalse);
    }
  }

  method CheckBoth(declared: Declared, usage: Usage, s: Step, m: Qty) returns (ok: bool, inTrue: Usage, inFalse: Usage)
    requires s.If? && usage.Valid()
    ensures inTrue.Valid() && inFalse.Valid()
    ensures var a := ChargeBlock(declared, [[]] + usage.Counts(), s.thenB.stmts, m);
            var b := ChargeBlock(declared, [[]] + usage.Counts(), s.elseB.stmts, m);
            ok == (a.ok && b.ok) && (ok ==> inTrue.count.data == a.view[0] && inFalse.count.data == b.view[0])
    decreases s, 0, 0
  {
    ghost var view := usage.Counts();
    ok, inTrue := CheckInside(declared, usage, s.thenB.stmts, m);
    inFalse := inTrue;
    if ok {
      assert usage.Counts() == view;
      ok, inFalse := CheckInside(declared, usage, s.elseB.stmts, m);
    }
  }

  method CombineUsages(declared: Declared, usage: Usage, a: Usage, b: Usage) returns (ok: bool)
    requires usage.Valid() && a.Valid() && b.Valid()
    modifies usage, usage.count
    ensures usage.Valid() && (usage.count == old(usage.count) || fresh(usage.count))
    ensures Charged(ok, usage.Counts()) == Commit(declared, old(usage.Counts()), old(Merge(a.count.data, b.count.data)))
  {
    var combined := MergeUsages(a, b);
    ok := usage.TryAddUsage(declared, combined, {});
  }

  method CheckInside(declared: Declared, usage: Usage, ss: seq<Step>, m: Qty) returns (ok: bool, inner: Usage)
    requires usage.Valid()
    ensures fresh(inner) && fresh(inner.count) && inner.Valid()
    ensures ChargeBlock(declared, [[]] + usage.Counts(), ss, m) == Charged(ok, inner.Counts())
    decreases ss, 1
  {
    inner := usage.Extend();
    ok := CheckBlock(declared, inner, ss, m);
  }
}
