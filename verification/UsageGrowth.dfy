/** What is counted through a usage object only grows, and what has become too much stays too much. */
module UsageGrowth {
  import opened Ast
  import opened ScopeMaps
  import opened Usages
  import opened UsageTables
  import opened QuantitySoundness

  // No total is larger here than there.
  ghost predicate AtMost(a: Counts, b: Counts) {
    forall v :: AsNat(At(a, v)) <= AsNat(At(b, v))
  }

  // The same variables come first.
  predicate Prolongs(a: Level, b: Level) {
    |a| <= |b| && forall i :: 0 <= i < |a| ==> a[i].key == b[i].key
  }

  // At least one use more than before, and not too much.
  predicate UsedMore(declared: Declared, a: Counts, b: Counts, k: Var) {
    declared(k).Some? && AsNat(Sum(At(a, k), One)) <= AsNat(At(b, k)) <= AsNat(declared(k).value)
  }

  // What is new among the direct counts has been used, and so has everything whose total is another.
  ghost predicate Accounted(declared: Declared, a: Counts, b: Counts, k: Var)
    requires a != [] && b != []
  {
    UsedMore(declared, a, b, k) || (At(a, k) == At(b, k) && (FindIn(b[0], k).Some? ==> FindIn(a[0], k).Some?))
  }

  ghost predicate Grew(declared: Declared, a: Counts, b: Counts) {
    && a != [] && b != [] && a[1..] == b[1..]
    && Prolongs(a[0], b[0]) && (Distinct(a[0]) ==> Distinct(b[0])) && AtMost(a, b)
    && forall k :: Accounted(declared, a, b, k)
  }

  lemma GrewRefl(declared: Declared, a: Counts)
    requires a != []
    ensures Grew(declared, a, a)
  {
  }

  lemma GrewTransitive(declared: Declared, a: Counts, b: Counts, c: Counts)
    requires Grew(declared, a, b) && Grew(declared, b, c)
    ensures Grew(declared, a, c)
  {
    forall i | 0 <= i < |a[0]| ensures a[0][i].key == c[0][i].key {
      assert a[0][i].key == b[0][i].key;
    }
    forall k ensures Accounted(declared, a, c, k) {
      assert AsNat(At(a, k)) <= AsNat(At(b, k)) <= AsNat(At(c, k));
      assert Accounted(declared, a, b, k) && Accounted(declared, b, c, k);
    }
  }

  lemma {:induction false} PutProlongs(level: Level, v: Var, q: Qty)
    ensures Prolongs(level, Put(level, v, q))
  {
    if level != [] && level[0].key != v { PutProlongs(level[1..], v, q); }
  }

  // ---- every use makes totals grow ----

  lemma AddGrows(declared: Declared, view: Counts, v: Var, m: Qty)
    requires view != [] && declared(v).Some? && TryAdd(view, v, declared(v).value, m).Some?
    ensures Grew(declared, view, TryAdd(view, v, declared(v).value, m).value)
  {
    if m != Zero {
      var total := Sum(At(view, v), Product(One, m));
      var r := Set(view, v, total);
      PutProlongs(view[0], v, total);
      if Distinct(view[0]) { PutDistinct(view[0], v, total); }
      assert r[0] == Put(view[0], v, total);
      forall k ensures Accounted(declared, view, r, k) {}
    }
  }

  lemma {:induction false} TermGrows(declared: Declared, view: Counts, e: Expr, m: Qty)
    requires view != [] && TryAddExpr(declared, view, e, m).Some?
    ensures Grew(declared, view, TryAddExpr(declared, view, e, m).value)
    decreases Size(e), 0
  {
    GrewRefl(declared, view);
    if m != Zero {
      match e
      case Atom(_) =>
      case VarE(v) => AddGrows(declared, view, v, m);
      case Node(_, es) => TermsGrow(declared, view, es, m);
      case App(_, f, es) =>
        TermGrows(declared, view, f, m);
        var mid := TryAddExpr(declared, view, f, m).value;
        TermsGrow(declared, mid, es, m);
        GrewTransitive(declared, view, mid, TryAddExprs(declared, mid, es, m).value);
      case Because(v, _) => TermGrows(declared, view, v, m);
      case Bind(_) =>
    }
  }

  lemma {:induction false} TermsGrow(declared: Declared, view: Counts, es: seq<Expr>, m: Qty)
    requires view != [] && TryAddExprs(declared, view, es, m).Some?
    ensures Grew(declared, view, TryAddExprs(declared, view, es, m).value)
    decreases SizeSeq(es), 1
  {
    GrewRefl(declared, view);
    if es != [] {
      TermGrows(declared, view, es[0], m);
      var mid := TryAddExpr(declared, view, es[0], m).value;
      TermsGrow(declared, mid, es[1..], m);
      GrewTransitive(declared, view, mid, TryAddExprs(declared, mid, es[1..], m).value);
    }
  }

  lemma {:induction false} AllGrow(declared: Declared, view: Counts, level: Level)
    requires view != [] && TryAddAll(declared, view, level).Some?
    ensures Grew(declared, view, TryAddAll(declared, view, level).value)
    decreases |level|
  {
    GrewRefl(declared, view);
    if level != [] {
      var k := level[0].key;
      AddGrows(declared, view, k, One);
      var mid := TryAdd(view, k, declared(k).value, One).value;
      AllGrow(declared, mid, level[1..]);
      GrewTransitive(declared, view, mid, TryAddAll(declared, mid, level[1..]).value);
    }
  }

  // ---- what is accepted on larger totals is accepted on smaller ones ----

  // The second is accepted only if the first is.
  ghost predicate NoEasier(r: Option<Counts>, s: Option<Counts>) {
    s.Some? ==> r.Some? && AtMost(r.value, s.value)
  }

  lemma AddNoEasier(a: Counts, b: Counts, v: Var, declared: Qty, m: Qty)
    requires a != [] && b != [] && AtMost(a, b)
    ensures NoEasier(TryAdd(a, v, declared, m), TryAdd(b, v, declared, m))
  {
    if m != Zero && TryAdd(b, v, declared, m).Some? {
      var r, s := TryAdd(a, v, declared, m), TryAdd(b, v, declared, m);
      assert AsNat(At(a, v)) <= AsNat(At(b, v));
      forall u ensures AsNat(At(r.value, u)) <= AsNat(At(s.value, u)) {}
    }
  }

  lemma {:induction false} TermNoEasier(declared: Declared, a: Counts, b: Counts, e: Expr, m: Qty)
    requires a != [] && b != [] && AtMost(a, b)
    ensures NoEasier(TryAddExpr(declared, a, e, m), TryAddExpr(declared, b, e, m))
    decreases Size(e), 0
  {
    if m != Zero {
      match e
      case Atom(_) =>
      case VarE(v) => if declared(v).Some? { AddNoEasier(a, b, v, declared(v).value, m); }
      case Node(_, es) => TermsNoEasier(declared, a, b, es, m);
      case App(_, f, es) =>
        TermNoEasier(declared, a, b, f, m);
        var r, s := TryAddExpr(declared, a, f, m), TryAddExpr(declared, b, f, m);
        if s.Some? { TermsNoEasier(declared, r.value, s.value, es, m); }
      case Because(v, _) => TermNoEasier(declared, a, b, v, m);
      case Bind(_) =>
    }
  }

  lemma {:induction false} TermsNoEasier(declared: Declared, a: Counts, b: Counts, es: seq<Expr>, m: Qty)
    requires a != [] && b != [] && AtMost(a, b)
    ensures NoEasier(TryAddExprs(declared, a, es, m), TryAddExprs(declared, b, es, m))
    decreases SizeSeq(es), 1
  {
    if es != [] {
      TermNoEasier(declared, a, b, es[0], m);
      var r, s := TryAddExpr(declared, a, es[0], m), TryAddExpr(declared, b, es[0], m);
      if s.Some? { TermsNoEasier(declared, r.value, s.value, es[1..], m); }
    }
  }

  lemma {:induction false} AllNoEasier(declared: Declared, a: Counts, b: Counts, level: Level, longer: Level)
    requires a != [] && b != [] && AtMost(a, b) && Prolongs(level, longer)
    ensures NoEasier(TryAddAll(declared, a, level), TryAddAll(declared, b, longer))
    decreases |longer|
  {
    if level == [] {
      if TryAddAll(declared, b, longer).Some? { AllGrow(declared, b, longer); }
    } else {
      var k := level[0].key;
      if declared(k).Some? {
        AddNoEasier(a, b, k, declared(k).value, One);
        var r, s := TryAdd(a, k, declared(k).value, One), TryAdd(b, k, declared(k).value, One);
        assert forall i :: 0 <= i < |level[1..]| ==> level[1..][i].key == longer[1..][i].key;
        if s.Some? { AllNoEasier(declared, r.value, s.value, level[1..], longer[1..]); }
      }
    }
  }

  // ---- collections of objects ----

  ghost predicate AllGrew(declared: Declared, views: seq<Counts>, later: seq<Counts>) {
    |views| <= |later| && forall i :: 0 <= i < |views| ==> Grew(declared, views[i], later[i])
  }

  lemma AllGrewTransitive(declared: Declared, a: seq<Counts>, b: seq<Counts>, c: seq<Counts>)
    requires AllGrew(declared, a, b) && AllGrew(declared, b, c)
    ensures AllGrew(declared, a, c)
  {
    forall i | 0 <= i < |a| ensures Grew(declared, a[i], c[i]) { GrewTransitive(declared, a[i], b[i], c[i]); }
  }

  lemma AddedGrew(declared: Declared, views: seq<Counts>, i: nat, use: Use, m: Qty)
    requires AllSome(views) && Add(declared, views, i, use, m).Some?
    ensures AllGrew(declared, views, Add(declared, views, i, use, m).value)
  {
    var later := Add(declared, views, i, use, m).value;
    forall j | 0 <= j < |views| ensures Grew(declared, views[j], later[j]) {
      GrewRefl(declared, views[j]);
      if j == i {
        match use
        case OfVariable(v) => if m != Zero { AddGrows(declared, views[i], v, m); }
        case OfTerm(e) => TermGrows(declared, views[i], e, m);
        case OfUsage(k) => AllGrow(declared, views[i], views[k][0]);
      }
    }
  }

  /** A use that was too much is too much ever after. */
  lemma StillTooMuch(declared: Declared, views: seq<Counts>, later: seq<Counts>, i: nat, use: Use, m: Qty)
    requires AllGrew(declared, views, later) && i < |views| && (use.OfUsage? ==> use.j < |views|)
    requires Add(declared, views, i, use, m).None?
    ensures Add(declared, later, i, use, m).None?
  {
    assert Grew(declared, views[i], later[i]);
    match use
    case OfVariable(v) =>
      if m != Zero && declared(v).Some? { AddNoEasier(views[i], later[i], v, declared(v).value, m); }
    case OfTerm(e) => TermNoEasier(declared, views[i], later[i], e, m);
    case OfUsage(j) =>
      if j != i {
        assert Grew(declared, views[j], later[j]);
        AllNoEasier(declared, views[i], later[i], views[j][0], later[j][0]);
      }
  }

  // ---- what was counted through an extension can be added to what it extends ----

  lemma {:induction false} EachFits(declared: Declared, view: Counts, level: Level)
    requires view != [] && Distinct(level)
    requires forall i :: 0 <= i < |level| ==>
               var k := level[i].key; declared(k).Some? && AsNat(Sum(At(view, k), One)) <= AsNat(declared(k).value)
    ensures TryAddAll(declared, view, level).Some?
    decreases |level|
  {
    if level != [] {
      var k := level[0].key;
      var next := TryAdd(view, k, declared(k).value, One).value;
      var rest := level[1..];
      forall i | 0 <= i < |rest|
        ensures var u := rest[i].key;
                declared(u).Some? && AsNat(Sum(At(next, u), One)) <= AsNat(declared(u).value)
      {
        assert rest[i] == level[i + 1];
      }
      EachFits(declared, next, rest);
    }
  }

  /** The direct uses of an object that was extended from another never are too much for that. */
  lemma ExtensionFits(declared: Declared, view: Counts, later: Counts)
    requires view != [] && Grew(declared, [[]] + view, later)
    ensures TryAddAll(declared, view, later[0]).Some?
  {
    var before: Counts := [[]] + view;
    assert before[0] == [] && before[1..] == view;
    forall i | 0 <= i < |later[0]|
      ensures var k := later[0][i].key;
              declared(k).Some? && AsNat(Sum(At(view, k), One)) <= AsNat(declared(k).value)
    {
      FoundWhere(later[0], i);
      assert Accounted(declared, before, later, later[0][i].key) && FindIn(before[0], later[0][i].key).None?;
      assert At(before, later[0][i].key) == At(view, later[0][i].key);
    }
    EachFits(declared, view, later[0]);
  }
}
