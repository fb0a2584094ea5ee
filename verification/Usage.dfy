/** Counting how often variables are used: saturating quantities, tried against what the context declares.

    The specification works on what a usage object can see (`Counts`); the class below does the same on scope maps. */
module Usages {
  import opened Ast
  import opened ScopeMaps

  function AsNat(q: Qty): nat {
    match q case Zero => 0 case One => 1 case Many => 2
  }

  function FromNat(n: nat): Qty {
    if n == 0 then Zero else if n == 1 then One else Many
  }

  function Sum(a: Qty, b: Qty): Qty {
    FromNat(if AsNat(a) + AsNat(b) > 2 then 2 else AsNat(a) + AsNat(b))
  }

  function Product(a: Qty, b: Qty): Qty {
    FromNat(if AsNat(a) * AsNat(b) > 2 then 2 else AsNat(a) * AsNat(b))
  }

  type Level = seq<Entry<Var, Qty>>
  type Counts = View<Var, Qty>
  type Declared = Var -> Option<Qty>

  // The current total of a variable.
  function At(view: Counts, v: Var): Qty {
    match Search(view, v) case None => Zero case Some(q) => q
  }

  function Put(level: Level, v: Var, q: Qty): (r: Level)
    ensures FindIn(r, v) == Some(q)
    ensures forall u :: u != v ==> FindIn(r, u) == FindIn(level, u)
  {
    if level == [] then [Entry(v, q)]
    else if level[0].key == v then
      var r := [Entry(v, q)] + level[1..];
      assert r[1..] == level[1..];
      r
    else
      var rest := Put(level[1..], v, q);
      var r := [level[0]] + rest;
      assert r[1..] == rest;
      r
  }

  function Set(view: Counts, v: Var, q: Qty): (r: Counts)
    requires view != []
    ensures |r| == |view| && r[1..] == view[1..]
    ensures At(r, v) == q && forall u :: u != v ==> At(r, u) == At(view, u)
  {
    [Put(view[0], v, q)] + view[1..]
  }

  // One more use of a declared variable, in a context used `m` times.
  function TryAdd(view: Counts, v: Var, declared: Qty, m: Qty): Option<Counts>
    requires view != []
  {
    if m == Zero then Some(view)
    else
      var total := Sum(At(view, v), Product(One, m));
      if AsNat(total) > AsNat(declared) then None else Some(Set(view, v, total))
  }

  // Every use in a term. Types use nothing and reasons use nothing; bodies of abstractions are not supported.
  function TryAddExpr(declared: Declared, view: Counts, e: Expr, m: Qty): (r: Option<Counts>)
    requires view != []
    ensures r.Some? ==> |r.value| == |view| && r.value[1..] == view[1..]
    decreases Size(e), 0
  {
    if m == Zero then Some(view)
    else match e
      case Atom(_) => Some(view)
      case VarE(v) => if declared(v).None? then None else TryAdd(view, v, declared(v).value, m)
      case Node(_, es) => TryAddExprs(declared, view, es, m)
      case App(_, f, es) =>
        var r := TryAddExpr(declared, view, f, m);
        if r.None? then None else TryAddExprs(declared, r.value, es, m)
      case Because(v, _) => TryAddExpr(declared, view, v, m)
      case Bind(t) => if t.end.AbsEnd? then None else Some(view)
  }

  function TryAddExprs(declared: Declared, view: Counts, es: seq<Expr>, m: Qty): (r: Option<Counts>)
    requires view != []
    ensures r.Some? ==> |r.value| == |view| && r.value[1..] == view[1..]
    decreases SizeSeq(es), 1
  {
    if es == [] then Some(view)
    else
      var r := TryAddExpr(declared, view, es[0], m);
      if r.None? then None else TryAddExprs(declared, r.value, es[1..], m)
  }

  // Every variable of another usage object counts once, whatever was counted for it there.
  function TryAddAll(declared: Declared, view: Counts, level: Level): (r: Option<Counts>)
    requires view != []
    ensures r.Some? ==> |r.value| == |view| && r.value[1..] == view[1..]
    decreases |level|
  {
    if level == [] then Some(view)
    else if declared(level[0].key).None? then None
    else
      var r := TryAdd(view, level[0].key, declared(level[0].key).value, One);
      if r.None? then None else TryAddAll(declared, r.value, level[1..])
  }

  // The direct uses of two objects, the larger count where both have one.
  function Merge(a: Level, b: Level): Level
    decreases |b|
  {
    if b == [] then a
    else
      var e := b[0];
      Merge(match FindIn(a, e.key) case None => a + [e] case Some(q) => Put(a, e.key, Larger(q, e.value)), b[1..])
  }

  function Larger(a: Qty, b: Qty): Qty {
    if AsNat(a) < AsNat(b) then b else a
  }

  // ---- what uses counted through one object leave to be seen through another ----

  // Nothing is new, and only totals of variables that may be used any number of times differ.
  ghost predicate Kept(declared: Declared, a: Counts, b: Counts) {
    |a| == |b| && forall i :: 0 <= i < |a| ==> LevelKept(declared, a[i], b[i])
  }

  ghost predicate LevelKept(declared: Declared, a: Level, b: Level) {
    |a| == |b| && forall j :: 0 <= j < |a| ==>
      a[j].key == b[j].key
      && (declared(a[j].key) != Some(Many) ==> a[j] == b[j])
  }

  lemma KeptTransitive(declared: Declared, a: Counts, b: Counts, c: Counts)
    requires Kept(declared, a, b) && Kept(declared, b, c)
    ensures Kept(declared, a, c)
  {
    forall i | 0 <= i < |a| ensures LevelKept(declared, a[i], c[i]) {
      assert LevelKept(declared, a[i], b[i]) && LevelKept(declared, b[i], c[i]);
    }
  }

  lemma KeptIfMany(declared: Declared, a: Counts, b: Counts, k: Var)
    requires SameBut(a, b, k) && (a == b || declared(k) == Some(Many))
    ensures Kept(declared, a, b)
  {
    forall i | 0 <= i < |a| ensures LevelKept(declared, a[i], b[i]) { assert LevelSameBut(a[i], b[i], k); }
  }

  predicate Positive(level: Level) {
    forall i :: 0 <= i < |level| ==> level[i].value != Zero
  }

  // ---- the object ----

  class Usage {
    var count: ScopeMap<Var, Qty>

    ghost predicate Valid()
      reads this, count, count.above
    {
      count.Valid() && Positive(count.data)
    }

    ghost function Counts(): (view: Counts)
      requires Valid()
      reads this, count, count.above
      ensures view != [] && view[0] == count.data && view[1..] == count.Outer()
    {
      count.Split();
      count.View()
    }

    constructor ()
      ensures Valid() && Counts() == [[]] && fresh(count)
    {
      count := new ScopeMap();
    }

    constructor Of(count: ScopeMap<Var, Qty>)
      requires count.Valid() && Positive(count.data)
      ensures Valid() && this.count == count
    {
      this.count := count;
    }

    method Extend() returns (u: Usage)
      requires Valid()
      ensures fresh(u) && fresh(u.count) && u.Valid() && u.Counts() == [[]] + Counts()
              && u.count.above == {u.count} + count.above
    {
      var c := count.Extend();
      u := new Usage.Of(c);
    }

    method Get(v: Var) returns (q: Qty)
      requires Valid()
      ensures q == At(Counts(), v)
    {
      var known := count.Lookup(v);
      q := if known.Some? then known.value else Zero;
    }

    /** Whatever is seen through another handle of the world stays, but for a total that is overwritten. */
    method TryAddDecl(v: Var, declared: Qty, m: Qty, ghost world: set<ScopeMap<Var, Qty>>) returns (ok: bool)
      requires Valid() && forall g :: g in world ==> g.Valid()
      modifies this, count
      ensures Valid() && count == old(count)
      ensures ok == TryAdd(old(Counts()), v, declared, m).Some?
      ensures ok ==> Some(Counts()) == TryAdd(old(Counts()), v, declared, m)
      ensures !ok ==> Counts() == old(Counts())
      ensures forall g :: g in world && g != count ==>
                && g.Valid() && SameBut(g.View(), old(g.View()), v)
                && (declared != Many ==> g.View() == old(g.View()))
    {
      if m == Zero {
        return true;
      }
      var before := Get(v);
      var total := Sum(before, Product(One, m));
      if AsNat(total) > AsNat(declared) {
        return false;
      }
      LinearIsNew(Counts(), v, declared, m);
      Store(v, total, world);
      return true;
    }

    method Store(v: Var, total: Qty, ghost world: set<ScopeMap<Var, Qty>>)
      requires Valid() && total != Zero && forall g :: g in world ==> g.Valid()
      modifies count
      ensures Valid() && Counts() == Set(old(Counts()), v, total)
      ensures forall g :: g in world && g != count ==>
                && g.Valid() && SameBut(g.View(), old(g.View()), v)
                && (FindIn(old(count.data), v).None? ==> g.View() == old(g.View()))
    {
      ghost var level := count.data;
      var at, inserted := count.TryEmplace(v, total, world);
      if inserted {
        PutNew(level, v, total);
      } else {
        PutOver(level, at, total);
        FindAt(level, v, at);
        count.Assign(at, total, world);
      }
    }

    // Undoes everything since the copy was taken, as far as this object can see.
    method Rollback(copy: ScopeMap<Var, Qty>, ghost world: set<ScopeMap<Var, Qty>>)
      requires copy.Valid() && Positive(copy.data) && forall g :: g in world ==> g.Valid()
      modifies this
      ensures Valid() && count == copy && Counts() == old(copy.View())
      ensures forall g :: g in world ==> g.Valid() && g.View() == old(g.View())
    {
      count := copy;
    }

    /** All or nothing: if some use is too much, whatever can be looked up through this object is as before. */
    method TryAddTerm(declared: Declared, e: Expr, m: Qty, ghost world: set<ScopeMap<Var, Qty>>) returns (ok: bool)
      requires Valid() && count !in world && forall g :: g in world ==> g.Valid()
      modifies this, count
      ensures Valid() && (count == old(count) || (!ok && fresh(count)))
      ensures count.above <= old(count.above) + {count}
      ensures ok == TryAddExpr(declared, old(Counts()), e, m).Some?
      ensures ok ==> Some(Counts()) == TryAddExpr(declared, old(Counts()), e, m)
      ensures !ok ==> Counts() == old(Counts())
      ensures forall g :: g in world ==> g.Valid() && Kept(declared, g.View(), old(g.View()))
      decreases Size(e), 1
    {
      if m == Zero {
        return true;
      }
      var copy := count.InnermostCopy();
      ok := AddUses(declared, e, m, world);
      if !ok {
        Rollback(copy, world);
      }
    }

    // On failure some uses may have been added.
    method AddUses(declared: Declared, e: Expr, m: Qty, ghost world: set<ScopeMap<Var, Qty>>) returns (ok: bool)
      requires Valid() && count !in world && forall g :: g in world ==> g.Valid()
      requires m != Zero
      modifies this, count
      ensures Valid() && (count == old(count) || (!ok && fresh(count)))
      ensures ok == TryAddExpr(declared, old(Counts()), e, m).Some?
      ensures ok ==> Some(Counts()) == TryAddExpr(declared, old(Counts()), e, m)
      ensures forall g :: g in world ==> g.Valid() && Kept(declared, g.View(), old(g.View()))
      decreases Size(e), 0
    {
      match e
      case Atom(_) => ok := true;
      case VarE(v) =>
        if declared(v).None? {
          ok := false;
        } else {
          ok := AddVariable(declared, v, m, world);
        }
      case Node(_, es) => ok := TryAddTerms(declared, es, m, world);
      case App(_, f, es) =>
        ok := TryAddTerm(declared, f, m, world);
        if ok {
          ghost var mid := map g | g in world :: g.View();
          ok := TryAddTerms(declared, es, m, world);
          forall g | g in world ensures Kept(declared, g.View(), old(g.View())) {
            KeptTransitive(declared, g.View(), mid[g], old(g.View()));
          }
        }
      case Because(v, _) => ok := TryAddTerm(declared, v, m, world);
      case Bind(t) => ok := !t.end.AbsEnd?;
    }

    method AddVariable(declared: Declared, v: Var, m: Qty, ghost world: set<ScopeMap<Var, Qty>>) returns (ok: bool)
      requires Valid() && count !in world && forall g :: g in world ==> g.Valid()
      requires declared(v).Some?
      modifies this, count
      ensures Valid() && count == old(count)
      ensures ok == TryAdd(old(Counts()), v, declared(v).value, m).Some?
      ensures ok ==> Some(Counts()) == TryAdd(old(Counts()), v, declared(v).value, m)
      ensures !ok ==> Counts() == old(Counts())
      ensures forall g :: g in world ==> g.Valid() && Kept(declared, g.View(), old(g.View()))
    {
      ok := TryAddDecl(v, declared(v).value, m, world);
      forall g | g in world ensures Kept(declared, g.View(), old(g.View())) {
        KeptIfMany(declared, g.View(), old(g.View()), v);
      }
    }

    method TryAddTerms(declared: Declared, es: seq<Expr>, m: Qty, ghost world: set<ScopeMap<Var, Qty>>)
      returns (ok: bool)
      requires Valid() && count !in world && forall g :: g in world ==> g.Valid()
      requires m != Zero
      modifies this, count
      ensures Valid() && (count == old(count) || (!ok && fresh(count)))
      ensures ok == TryAddExprs(declared, old(Counts()), es, m).Some?
      ensures ok ==> Some(Counts()) == TryAddExprs(declared, old(Counts()), es, m)
      ensures forall g :: g in world ==> g.Valid() && Kept(declared, g.View(), old(g.View()))
      decreases SizeSeq(es), 2
    {
      ok := true;
      if es != [] {
        ok := TryAddTerm(declared, es[0], m, world);
        if ok {
          ghost var mid := map g | g in world :: g.View();
          ok := TryAddTerms(declared, es[1..], m, world);
          forall g | g in world ensures Kept(declared, g.View(), old(g.View())) {
            KeptTransitive(declared, g.View(), mid[g], old(g.View()));
          }
        }
      }
    }

    /** Adds the direct uses of another object: all of them, or none as far as this object can see. */
    method TryAddUsage(declared: Declared, that: Usage, ghost world: set<ScopeMap<Var, Qty>>) returns (ok: bool)
      requires Valid() && count !in world && forall g :: g in world ==> g.Valid()
      requires that.Valid() && that.count != count
      modifies this, count
      ensures Valid() && (count == old(count) || (!ok && fresh(count)))
      ensures count.above <= old(count.above) + {count}
      ensures ok == TryAddAll(declared, old(Counts()), old(that.count.data)).Some?
      ensures ok ==> Some(Counts()) == TryAddAll(declared, old(Counts()), old(that.count.data))
      ensures !ok ==> Counts() == old(Counts())
      ensures forall g :: g in world ==> g.Valid() && Kept(declared, g.View(), old(g.View()))
    {
      var copy := count.InnermostCopy();
      ok := AddEach(declared, that.count.data, world);
      if !ok {
        Rollback(copy, world);
      }
    }

    method AddEach(declared: Declared, level: Level, ghost world: set<ScopeMap<Var, Qty>>) returns (ok: bool)
      requires Valid() && count !in world && forall g :: g in world ==> g.Valid()
      modifies this, count
      ensures Valid() && count == old(count)
      ensures ok == TryAddAll(declared, old(Counts()), level).Some?
      ensures ok ==> Some(Counts()) == TryAddAll(declared, old(Counts()), level)
      ensures forall g :: g in world ==> g.Valid() && Kept(declared, g.View(), old(g.View()))
    {
      for i := 0 to |level|
        invariant Valid() && count == old(count)
        invariant TryAddAll(declared, old(Counts()), level) == TryAddAll(declared, Counts(), level[i..])
        invariant forall g :: g in world ==> g.Valid() && Kept(declared, g.View(), old(g.View()))
      {
        assert level[i..][0] == level[i] && level[i..][1..] == level[i + 1..];
        var d := declared(level[i].key);
        if d.None? {
          return false;
        }
        ghost var mid := map g | g in world :: g.View();
        var added := AddVariable(declared, level[i].key, One, world);
        forall g | g in world ensures Kept(declared, g.View(), old(g.View())) {
          KeptTransitive(declared, g.View(), mid[g], old(g.View()));
        }
        if !added {
          return false;
        }
      }
      return true;
    }
  }

  // A total that is there already is only overwritten where any number of uses is allowed.
  lemma LinearIsNew(view: Counts, v: Var, declared: Qty, m: Qty)
    requires view != [] && Positive(view[0]) && m != Zero
    requires AsNat(Sum(At(view, v), Product(One, m))) <= AsNat(declared)
    ensures FindIn(view[0], v).None? || declared == Many
  {
    if FindIn(view[0], v).Some? { PositiveTotal(view[0], v); }
  }

  lemma {:induction false} PositiveTotal(level: Level, v: Var)
    requires Positive(level) && FindIn(level, v).Some?
    ensures FindIn(level, v).value != Zero
  {
    if level[0].key != v { PositiveTotal(level[1..], v); }
  }

  /** A new object with the direct uses of both, the larger count where they conflict. */
  method MergeUsages(a: Usage, b: Usage) returns (r: Usage)
    requires a.Valid() && b.Valid()
    ensures fresh(r) && fresh(r.count) && r.Valid() && r.Counts() == [Merge(a.count.data, b.count.data)]
    ensures r.count.above == {r.count}
  {
    var total := CopyDirect(a.count);
    ghost var first := a.count.data;
    assert b.count.data[0..] == b.count.data;
    for i := 0 to |b.count.data|
      invariant Root(total) && fresh(total)
      invariant Merge(total.data, b.count.data[i..]) == Merge(first, b.count.data)
    {
      assert b.count.data[i..][0] == b.count.data[i] && b.count.data[i..][1..] == b.count.data[i + 1..];
      MergeEntry(total, b.count.data[i]);
    }
    r := new Usage.Of(total);
  }

  ghost predicate Root(m: ScopeMap<Var, Qty>)
    reads m, m.above
  {
    m.Valid() && m.parent == null && m.above == {m} && Positive(m.data)
  }

  method CopyDirect(count: ScopeMap<Var, Qty>) returns (total: ScopeMap<Var, Qty>)
    requires count.Valid() && Positive(count.data)
    ensures fresh(total) && Root(total) && total.data == count.data
  {
    total := new ScopeMap();
    for i := 0 to |count.data|
      invariant fresh(total) && Root(total) && total.data == count.data[..i]
    {
      var _, inserted := total.TryEmplace(count.data[i].key, count.data[i].value, {});
      assert inserted by { KeysDistinct(count, i); }
    }
  }

  method MergeEntry(total: ScopeMap<Var, Qty>, e: Entry<Var, Qty>)
    requires Root(total) && e.value != Zero
    modifies total
    ensures Root(total)
    ensures total.data == match FindIn(old(total.data), e.key)
                          case None => old(total.data) + [e]
                          case Some(q) => Put(old(total.data), e.key, Larger(q, e.value))
  {
    ghost var level := total.data;
    var at, inserted := total.TryEmplace(e.key, e.value, {});
    if inserted {
      FindNowhere(level, e.key);
    } else {
      var q := Larger(total.data[at].value, e.value);
      FindAt(level, e.key, at);
      PutOver(level, at, q);
      total.Assign(at, q, {});
    }
  }

  lemma KeysDistinct<K, V>(m: ScopeMap<K, V>, i: nat)
    requires m.Indexed() && i < |m.data|
    ensures forall j :: 0 <= j < i ==> m.data[j].key != m.data[i].key
  {
  }

  // Inserting, or overwriting where the key is already there, is putting.
  lemma {:induction false} PutNew(level: Level, v: Var, q: Qty)
    requires forall i :: 0 <= i < |level| ==> level[i].key != v
    ensures Put(level, v, q) == level + [Entry(v, q)]
  {
    if level != [] {
      PutNew(level[1..], v, q);
      assert level == [level[0]] + level[1..];
    }
  }

  lemma {:induction false} PutOver(level: Level, at: nat, q: Qty)
    requires at < |level| && forall i :: 0 <= i < at ==> level[i].key != level[at].key
    ensures Put(level, level[at].key, q) == level[at := Entry(level[at].key, q)]
  {
    if at > 0 {
      PutOver(level[1..], at - 1, q);
      assert level == [level[0]] + level[1..];
    }
  }
}
