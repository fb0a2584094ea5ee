/** Contexts: a table from names to variables and a table from variables to declarations, both scope maps.

    Contexts share frames and the counter of unnamed variables; every operation says what it leaves alone. */
module Contexts {
  import opened Ast
  import opened ScopeMaps
  import opened Rewriting

  datatype Decl = Decl(scopeId: Option<nat>, v: Var, qty: Qty, ty: Expr)

  type Names = View<string, Var>
  type Values = View<Var, Decl>

  // The name of variables that have none; a keyword, so no program declares it.
  const UNNAMED := "auto"

  function Resolve(names: Names, values: Values, name: string): Option<Decl> {
    match Search(names, name) case None => None case Some(v) => Search(values, v)
  }

  predicate Visible(values: Values, v: Var) {
    var es := Entries(values);
    exists i :: 0 <= i < |es| && es[i].key == v
  }

  ghost predicate Apart(es: seq<Entry<Var, Decl>>, i: int, j: int) {
    0 <= i < j < |es| ==> es[i].key != es[j].key
  }

  ghost predicate Declares(es: seq<Entry<Var, Decl>>, i: int) {
    0 <= i < |es| ==> es[i].value.v == es[i].key
  }

  ghost predicate Bound(fs: seq<Entry<string, Var>>, values: Values, i: int) {
    0 <= i < |fs| ==> fs[i].key == fs[i].value.name != UNNAMED && Visible(values, fs[i].value)
  }

  // No visible variable of this name has a larger shadow id; unnamed variables were numbered before.
  ghost predicate Covered(names: Names, u: Var, next: nat) {
    if u.name == UNNAMED then u.shadowId < next
    else Search(names, u.name).Some? && u.shadowId <= Search(names, u.name).value.shadowId
  }

  ghost predicate CoveredAt(names: Names, es: seq<Entry<Var, Decl>>, i: int, next: nat) {
    0 <= i < |es| ==> Covered(names, es[i].key, next)
  }

  // Variables are distinct, the two tables agree, and a name stands for its largest visible shadow id.
  ghost predicate Consistent(names: Names, values: Values, next: nat) {
    var fs, es := Entries(names), Entries(values);
    && (forall i, j :: Apart(es, i, j))
    && (forall i :: Declares(es, i))
    && (forall i :: Bound(fs, values, i))
    && (forall i :: CoveredAt(names, es, i, next))
  }

  // ---- entries and search ----

  lemma EntriesInside<K, V>(view: View<K, V>)
    ensures Entries([[]] + view) == Entries(view)
  {
  }

  lemma SearchInside<K, V>(view: View<K, V>, k: K)
    ensures Search([[]] + view, k) == Search(view, k)
  {
  }

  lemma EntriesAdded<K, V>(view: View<K, V>, e: Entry<K, V>)
    requires view != []
    ensures Entries([view[0] + [e]] + view[1..]) == Entries(view) + [e]
  {
  }

  lemma {:induction false} FindAdded<K, V>(level: seq<Entry<K, V>>, e: Entry<K, V>, k: K)
    requires forall i :: 0 <= i < |level| ==> level[i].key != e.key
    ensures FindIn(level + [e], k) == if k == e.key then Some(e.value) else FindIn(level, k)
  {
    if level == [] {
      assert level + [e] == [e] && [e][1..] == [];
    } else {
      assert (level + [e])[0] == level[0] && (level + [e])[1..] == level[1..] + [e];
      FindAdded(level[1..], e, k);
    }
  }

  lemma SearchAdded<K, V>(view: View<K, V>, e: Entry<K, V>, k: K)
    requires view != [] && forall i :: 0 <= i < |view[0]| ==> view[0][i].key != e.key
    ensures Search([view[0] + [e]] + view[1..], k) == if k == e.key then Some(e.value) else Search(view, k)
  {
    FindAdded(view[0], e, k);
    assert ([view[0] + [e]] + view[1..])[1..] == view[1..];
  }

  lemma {:induction false} FoundIn<K, V>(level: seq<Entry<K, V>>, k: K)
    requires FindIn(level, k).Some?
    ensures exists i :: 0 <= i < |level| && level[i] == Entry(k, FindIn(level, k).value)
  {
    if level[0].key == k {
      assert level[0] == Entry(k, FindIn(level, k).value);
    } else {
      FoundIn(level[1..], k);
      var i :| 0 <= i < |level[1..]| && level[1..][i] == Entry(k, FindIn(level[1..], k).value);
      assert level[i + 1] == Entry(k, FindIn(level, k).value);
    }
  }

  lemma {:induction false} Found<K, V>(view: View<K, V>, k: K)
    requires Search(view, k).Some?
    ensures exists i :: 0 <= i < |Entries(view)| && Entries(view)[i] == Entry(k, Search(view, k).value)
  {
    var outer := Entries(view[1..]);
    if FindIn(view[0], k).Some? {
      FoundIn(view[0], k);
      var i :| 0 <= i < |view[0]| && view[0][i] == Entry(k, FindIn(view[0], k).value);
      assert Entries(view)[|outer| + i] == view[0][i];
    } else {
      Found(view[1..], k);
      var i :| 0 <= i < |outer| && outer[i] == Entry(k, Search(view[1..], k).value);
      assert Entries(view)[i] == outer[i];
    }
  }

  lemma {:induction false} Finds<K, V>(view: View<K, V>, i: nat)
    requires i < |Entries(view)|
    ensures Search(view, Entries(view)[i].key).Some?
  {
    var outer := Entries(view[1..]);
    if i < |outer| {
      Finds(view[1..], i);
    } else {
      FindsIn(view[0], i - |outer|);
    }
  }

  lemma {:induction false} FindsIn<K, V>(level: seq<Entry<K, V>>, i: nat)
    requires i < |level|
    ensures FindIn(level, level[i].key).Some?
  {
    if i > 0 { FindsIn(level[1..], i - 1); }
  }

  lemma {:induction false} EntriesMapped<K, V>(f: V -> V, view: View<K, V>)
    ensures |Entries(MapView(f, view))| == |Entries(view)|
    ensures forall i :: 0 <= i < |Entries(view)| ==>
              Entries(MapView(f, view))[i] == Entry(Entries(view)[i].key, f(Entries(view)[i].value))
  {
    if view != [] {
      var mapped := MapView(f, view);
      assert mapped[1..] == MapView(f, view[1..]);
      EntriesMapped(f, view[1..]);
    }
  }

  // ---- what every context satisfies ----

  /** A name that is bound resolves to a declaration of it, the one with the largest shadow id that can be seen. */
  lemma NamesResolve(names: Names, values: Values, next: nat, name: string)
    requires Consistent(names, values, next) && Search(names, name).Some?
    ensures Resolve(names, values, name).Some?
    ensures var d := Resolve(names, values, name).value;
            && d.v == Search(names, name).value && d.v.name == name != UNNAMED
            && forall u :: Visible(values, u) && u.name == name ==> u.shadowId <= d.v.shadowId
  {
    var fs, es := Entries(names), Entries(values);
    Found(names, name);
    var v := Search(names, name).value;
    var k :| 0 <= k < |fs| && fs[k] == Entry(name, v);
    assert Bound(fs, values, k);
    var i :| 0 <= i < |es| && es[i].key == v;
    Finds(values, i);
    Found(values, v);
    var j :| 0 <= j < |es| && es[j] == Entry(v, Search(values, v).value);
    assert Declares(es, j);
    forall u | Visible(values, u) && u.name == name ensures u.shadowId <= v.shadowId {
      var l :| 0 <= l < |es| && es[l].key == u;
      assert CoveredAt(names, es, l, next);
    }
  }

  // The shadow id and the counter are ahead of every variable that can be seen.
  lemma VisibleCovered(names: Names, values: Values, next: nat, v: Var)
    requires Consistent(names, values, next)
    ensures Visible(values, v) ==> Covered(names, v, next)
  {
    var es := Entries(values);
    if Visible(values, v) {
      var i :| 0 <= i < |es| && es[i].key == v;
      assert CoveredAt(names, es, i, next);
    }
  }

  // One more variable at the end, with whatever names are then in use.
  lemma VariableAdded(names: Names, values: Values, next: nat, e: Entry<Var, Decl>, names': Names, next': nat)
    requires Consistent(names, values, next) && values != [] && e.value.v == e.key && !Visible(values, e.key)
    requires forall u :: Covered(names, u, next) || u == e.key ==> Covered(names', u, next')
    requires forall i :: 0 <= i < |Entries(names')| ==>
               Entries(names')[i] in Entries(names)
                 || (Entries(names')[i] == Entry(e.key.name, e.key) && e.key.name != UNNAMED)
    ensures Consistent(names', [values[0] + [e]] + values[1..], next')
  {
    var values' := [values[0] + [e]] + values[1..];
    EntriesAdded(values, e);
    var fs, es, es' := Entries(names'), Entries(values), Entries(values');
    forall i, j ensures Apart(es', i, j) { assert Apart(es, i, j); }
    forall i ensures Declares(es', i) { assert Declares(es, i); }
    forall i ensures CoveredAt(names', es', i, next') { assert CoveredAt(names, es, i, next); }
    forall i ensures Bound(fs, values', i) {
      if 0 <= i < |fs| {
        if fs[i] in Entries(names) {
          var k :| 0 <= k < |Entries(names)| && Entries(names)[k] == fs[i];
          assert Bound(Entries(names), values, k);
          VisibleLater(es, es', fs[i].value);
        } else {
          assert es'[|es|].key == e.key;
        }
      }
    }
  }

  lemma VisibleLater(es: seq<Entry<Var, Decl>>, es': seq<Entry<Var, Decl>>, v: Var)
    requires |es| <= |es'| && forall i :: 0 <= i < |es| ==> es'[i].key == es[i].key
    requires exists i :: 0 <= i < |es| && es[i].key == v
    ensures exists i :: 0 <= i < |es'| && es'[i].key == v
  {
  }

  lemma NamedAdded(names: Names, values: Values, next: nat, v: Var, d: Decl)
    requires Consistent(names, values, next) && v.name != UNNAMED && names != [] && values != [] && d.v == v
    requires v.shadowId == match Search(names, v.name) case None => 0 case Some(w) => w.shadowId + 1
    requires forall i :: 0 <= i < |names[0]| ==> names[0][i].key != v.name
    ensures !Visible(values, v)
    ensures Consistent([names[0] + [Entry(v.name, v)]] + names[1..], [values[0] + [Entry(v, d)]] + values[1..], next)
  {
    var f := Entry(v.name, v);
    var names' := [names[0] + [f]] + names[1..];
    VisibleCovered(names, values, next, v);
    EntriesAdded(names, f);
    forall u | Covered(names, u, next) || u == v ensures Covered(names', u, next) { SearchAdded(names, f, u.name); }
    VariableAdded(names, values, next, Entry(v, d), names', next);
  }

  lemma UnnamedAdded(names: Names, values: Values, next: nat, v: Var, d: Decl)
    requires Consistent(names, values, next) && v == Var(UNNAMED, 0, next) && values != [] && d.v == v
    ensures !Visible(values, v)
    ensures Consistent(names, [values[0] + [Entry(v, d)]] + values[1..], next + 1)
  {
    VisibleCovered(names, values, next, v);
    VariableAdded(names, values, next, Entry(v, d), names, next + 1);
  }

  // The same names and variables, seen through other frames.
  lemma SameEntries(names: Names, values: Values, next: nat, names': Names, values': Values)
    requires Consistent(names, values, next) && Entries(names') == Entries(names)
    requires forall name :: Search(names', name) == Search(names, name)
    requires |Entries(values')| == |Entries(values)|
    requires forall i :: 0 <= i < |Entries(values)| ==>
               Entries(values')[i].key == Entries(values)[i].key
                 && Entries(values')[i].value.v == Entries(values)[i].value.v
    ensures Consistent(names', values', next)
  {
    var fs, es, es' := Entries(names), Entries(values), Entries(values');
    forall i, j ensures Apart(es', i, j) { assert Apart(es, i, j); }
    forall i ensures Declares(es', i) { assert Declares(es, i); }
    forall i ensures CoveredAt(names', es', i, next) { assert CoveredAt(names, es, i, next); }
    forall i ensures Bound(fs, values', i) {
      assert Bound(fs, values, i);
      if 0 <= i < |fs| { VisibleLater(es, es', fs[i].value); }
    }
  }

  lemma ExtendedConsistent(names: Names, values: Values, next: nat)
    requires Consistent(names, values, next)
    ensures Consistent([[]] + names, values, next) && Consistent([[]] + names, [[]] + values, next)
  {
    EntriesInside(names);
    EntriesInside(values);
    forall name: string ensures Search([[]] + names, name) == Search(names, name) { SearchInside(names, name); }
    SameEntries(names, values, next, [[]] + names, values);
    SameEntries(names, values, next, [[]] + names, [[]] + values);
  }

  function RewriteDecl(from: Expr, to: Expr): Decl -> Decl {
    (d: Decl) => d.(ty := Rewriting.Rewrite(from, to, d.ty))
  }

  lemma RewrittenConsistent(names: Names, values: Values, next: nat, f: Decl -> Decl)
    requires Consistent(names, values, next) && forall d: Decl :: f(d).v == d.v
    ensures Consistent(names, MapView(f, values), next)
  {
    EntriesMapped(f, values);
    SameEntries(names, values, next, names, MapView(f, values));
  }

  lemma TypesRewritten(names: Names, values: Values, next: nat, from: Expr, to: Expr)
    requires Consistent(names, values, next)
    ensures Consistent([[]] + names, MapView(RewriteDecl(from, to), values), next)
  {
    ExtendedConsistent(names, values, next);
    RewrittenConsistent([[]] + names, values, next, RewriteDecl(from, to));
  }

  // Other contexts stay consistent when the counter moves on.
  lemma LaterConsistent(names: Names, values: Values, next: nat, later: nat)
    requires Consistent(names, values, next) && next <= later
    ensures Consistent(names, values, later)
  {
    var es := Entries(values);
    forall i ensures CoveredAt(names, es, i, later) { assert CoveredAt(names, es, i, next); }
  }

  // ---- the object ----

  // The counter of unnamed variables, one for all contexts.
  class Counter {
    var next: nat

    constructor ()
      ensures next == 0
    {
      next := 0;
    }
  }

  class Context {
    const scoped: bool
    const scopeId: nat
    const names: ScopeMap<string, Var>
    const values: ScopeMap<Var, Decl>
    const unnamed: Counter

    ghost predicate Valid()
      reads this, names, names.above, values, values.above, unnamed
    {
      names.Valid() && values.Valid() && Consistent(names.View(), values.View(), unnamed.next)
    }

    constructor (scoped: bool, scopeId: nat, names: ScopeMap<string, Var>, values: ScopeMap<Var, Decl>,
          unnamed: Counter)
      requires names.Valid() && values.Valid() && Consistent(names.View(), values.View(), unnamed.next)
      ensures Valid() && this.names == names && this.values == values && this.unnamed == unnamed
      ensures this.scoped == scoped && this.scopeId == scopeId
    {
      this.scoped, this.scopeId, this.names, this.values, this.unnamed := scoped, scopeId, names, values, unnamed;
    }

    function Scope(): Option<nat> {
      if scoped then Some(scopeId) else None
    }

    method Extend(scoped: bool) returns (ctx: Context)
      requires Valid()
      ensures fresh(ctx) && fresh(ctx.names) && fresh(ctx.values) && ctx.Valid() && ctx.unnamed == unnamed
      ensures ctx.scoped == scoped && ctx.scopeId == scopeId + 1
      ensures ctx.names.View() == [[]] + names.View() && ctx.values.View() == [[]] + values.View()
    {
      var n, v := ExtendTables();
      ctx := new Context(scoped, scopeId + 1, n, v, unnamed);
    }

    method ExtendTables() returns (n: ScopeMap<string, Var>, v: ScopeMap<Var, Decl>)
      requires Valid()
      ensures fresh(n) && fresh(v) && n.Valid() && v.Valid()
      ensures n.View() == [[]] + names.View() && v.View() == [[]] + values.View()
      ensures Consistent(n.View(), v.View(), unnamed.next)
    {
      ExtendedConsistent(names.View(), values.View(), unnamed.next);
      n := names.Extend();
      v := values.Extend();
    }

    /** A context in which only types differ. The name table is extended, so every name can be declared again. */
    method Rewrite(from: Expr, to: Expr) returns (ctx: Context)
      requires Valid()
      ensures fresh(ctx) && fresh(ctx.names) && fresh(ctx.values.above) && ctx.Valid() && ctx.unnamed == unnamed
      ensures ctx.scoped == scoped && ctx.scopeId == scopeId
      ensures ctx.names.View() == [[]] + names.View()
      ensures ctx.values.View() == MapView(RewriteDecl(from, to), values.View())
    {
      var n, v := RewriteTables(from, to);
      ctx := new Context(scoped, scopeId, n, v, unnamed);
    }

    method RewriteTables(from: Expr, to: Expr) returns (n: ScopeMap<string, Var>, v: ScopeMap<Var, Decl>)
      requires Valid()
      ensures fresh(n) && fresh(v.above) && n.Valid() && v.Valid()
      ensures n.View() == [[]] + names.View() && v.View() == MapView(RewriteDecl(from, to), values.View())
      ensures Consistent(n.View(), v.View(), unnamed.next)
    {
      TypesRewritten(names.View(), values.View(), unnamed.next, from, to);
      v := CopyValues(RewriteDecl(from, to));
      n := names.Extend();
    }

    method CopyValues(f: Decl -> Decl) returns (v: ScopeMap<Var, Decl>)
      requires values.Valid()
      ensures fresh(v.above) && v.Valid() && v.View() == MapView(f, values.View())
    {
      v := values.DeepCopy();
      v.MapValues(f, {});
    }

    method LookupVar(v: Var) returns (d: Option<Decl>)
      requires Valid()
      ensures d == Search(values.View(), v)
    {
      d := values.Lookup(v);
    }

    method LookupName(name: string) returns (d: Option<Decl>)
      requires Valid()
      ensures d == Resolve(names.View(), values.View(), name)
      ensures d.Some? <==> Search(names.View(), name).Some?
    {
      var v := names.Lookup(name);
      d := None;
      if v.Some? {
        NamesResolve(names.View(), values.View(), unnamed.next, name);
        d := values.Lookup(v.value);
      }
    }

    /** Declares a name once per scope. The inner insertion never fails, and other contexts see what they saw. */
    method TryEmplace(name: string, qty: Qty, ty: Expr, ghost ns: set<ScopeMap<string, Var>>,
          ghost vs: set<ScopeMap<Var, Decl>>) returns (r: Option<Var>)
      requires Valid() && name != UNNAMED
      requires (forall g :: g in ns ==> g.Valid()) && (forall g :: g in vs ==> g.Valid())
      modifies names, values
      ensures Valid() && (r.Some? <==> FindIn(old(names.data), name).None?)
      ensures r.None? ==> names.View() == old(names.View()) && values.View() == old(values.View())
      ensures r.Some? ==>
                && r.value == Var(name, 0, match old(Search(names.View(), name))
                                           case None => 0
                                           case Some(w) => w.shadowId + 1)
                && names.data == old(names.data) + [Entry(name, r.value)]
                && values.data == old(values.data) + [Entry(r.value, Decl(Scope(), r.value, qty, ty))]
      ensures names.View() == [names.data] + old(names.View())[1..]
              && values.View() == [values.data] + old(values.View())[1..]
      ensures forall g :: g in ns && g != names ==> g.Valid() && g.View() == old(g.View())
      ensures forall g :: g in vs && g != values ==> g.Valid() && g.View() == old(g.View())
    {
      names.Split();
      values.Split();
      r := Candidate(name, qty, ty);
      if r.Some? {
        Declare(r.value, qty, ty, ns, vs);
      }
    }

    // The variable the name would get, unless this scope has the name already.
    method Candidate(name: string, qty: Qty, ty: Expr) returns (r: Option<Var>)
      requires Valid() && name != UNNAMED
      ensures r.Some? <==> FindIn(names.data, name).None?
      ensures r.Some? ==>
                && r.value == Var(name, 0, match Search(names.View(), name)
                                           case None => 0
                                           case Some(w) => w.shadowId + 1)
                && (forall i :: 0 <= i < |names.data| ==> names.data[i].key != name)
                && (forall i :: 0 <= i < |values.data| ==> values.data[i].key != r.value)
                && Consistent([names.data + [Entry(name, r.value)]] + names.View()[1..],
                              [values.data + [Entry(r.value, Decl(Scope(), r.value, qty, ty))]] + values.View()[1..],
                                unnamed.next)
    {
      names.Split();
      values.Split();
      var prev := names.Lookup(name);
      var v := Var(name, 0, if prev.Some? then prev.value.shadowId + 1 else 0);
      if name in names.index {
        FindsIn(names.data, names.index[name]);
        r := None;
      } else {
        ReadyToDeclare(names.View(), values.View(), unnamed.next, v, Decl(Scope(), v, qty, ty));
        r := Some(v);
      }
    }

    lemma ReadyToDeclare(n: Names, d: Values, next: nat, v: Var, decl: Decl)
      requires Consistent(n, d, next) && v.name != UNNAMED && n != [] && d != [] && decl.v == v
      requires v.shadowId == match Search(n, v.name) case None => 0 case Some(w) => w.shadowId + 1
      requires forall i :: 0 <= i < |n[0]| ==> n[0][i].key != v.name
      ensures FindIn(n[0], v.name).None?
      ensures forall i :: 0 <= i < |d[0]| ==> d[0][i].key != v
      ensures Consistent([n[0] + [Entry(v.name, v)]] + n[1..], [d[0] + [Entry(v, decl)]] + d[1..], next)
    {
      FindNowhere(n[0], v.name);
      NamedAdded(n, d, next, v, decl);
      NotVisible(d, v);
    }

    lemma NotVisible(d: Values, v: Var)
      requires d != [] && !Visible(d, v)
      ensures forall i :: 0 <= i < |d[0]| ==> d[0][i].key != v
    {
      forall i | 0 <= i < |d[0]| ensures d[0][i].key != v { assert Entries(d)[|Entries(d[1..])| + i] == d[0][i]; }
    }

    // Both insertions of a name that is new to this scope and a variable that is new altogether.
    method Declare(v: Var, qty: Qty, ty: Expr, ghost ns: set<ScopeMap<string, Var>>, ghost vs: set<ScopeMap<Var, Decl>>)
      requires names.Valid() && values.Valid()
      requires (forall g :: g in ns ==> g.Valid()) && (forall g :: g in vs ==> g.Valid())
      requires forall i :: 0 <= i < |names.data| ==> names.data[i].key != v.name
      requires forall i :: 0 <= i < |values.data| ==> values.data[i].key != v
      modifies names, values
      ensures names.Valid() && names.data == old(names.data) + [Entry(v.name, v)]
      ensures values.Valid() && values.data == old(values.data) + [Entry(v, Decl(Scope(), v, qty, ty))]
      ensures names.View() == [names.data] + old(names.View())[1..]
              && values.View() == [values.data] + old(values.View())[1..]
      ensures forall g :: g in ns && g != names ==> g.Valid() && g.View() == old(g.View())
      ensures forall g :: g in vs && g != values ==> g.Valid() && g.View() == old(g.View())
    {
      var _, insertedName := names.TryEmplace(v.name, v, ns);
      var _, inserted := values.TryEmplace(v, Decl(Scope(), v, qty, ty), vs);
      assert insertedName && inserted;  // as the source asserts
    }

    method AddUnnamed(qty: Qty, ty: Expr, ghost vs: set<ScopeMap<Var, Decl>>)
      requires Valid()
      requires forall g :: g in vs ==> g.Valid()
      modifies values, unnamed
      ensures Valid() && unnamed.next == old(unnamed.next) + 1 && names.View() == old(names.View())
      ensures var v := Var(UNNAMED, 0, old(unnamed.next));
              && values.data == old(values.data) + [Entry(v, Decl(Scope(), v, qty, ty))]
              && values.View() == [values.data] + old(values.View())[1..]
      ensures forall g :: g in vs && g != values ==> g.Valid() && g.View() == old(g.View())
    {
      ghost var n, d := names.View(), values.View();
      values.Split();
      var v := Var(UNNAMED, 0, unnamed.next);
      assert d[0] == values.data;
      ReadyToNumber(n, d, v, Decl(Scope(), v, qty, ty));
      Insert(v, Decl(Scope(), v, qty, ty), vs);
      unnamed.next := unnamed.next + 1;
    }

    lemma ReadyToNumber(n: Names, d: Values, v: Var, decl: Decl)
      requires v.name == UNNAMED && v.idx == 0 && Consistent(n, d, v.shadowId) && d != [] && decl.v == v
      ensures forall i :: 0 <= i < |d[0]| ==> d[0][i].key != v
      ensures Consistent(n, [d[0] + [Entry(v, decl)]] + d[1..], v.shadowId + 1)
    {
      UnnamedAdded(n, d, v.shadowId, v, decl);
      NotVisible(d, v);
    }

    method Insert(v: Var, d: Decl, ghost vs: set<ScopeMap<Var, Decl>>)
      requires names.Valid() && values.Valid() && forall g :: g in vs ==> g.Valid()
      requires forall i :: 0 <= i < |values.data| ==> values.data[i].key != v
      modifies values
      ensures names.Valid() && names.View() == old(names.View())
      ensures values.Valid() && values.data == old(values.data) + [Entry(v, d)]
      ensures values.View() == [values.data] + old(values.View())[1..]
      ensures forall g :: g in vs && g != values ==> g.Valid() && g.View() == old(g.View())
    {
      var _, inserted := values.TryEmplace(v, d, vs);
      assert inserted;
    }

    // ---- other contexts, which may share every frame but the innermost ----

    ghost predicate Beside(others: set<Context>)
      reads others
    {
      forall c :: c in others ==> c.names != names && c.values != values && c.unnamed == unnamed
    }

    /** They stay as they are when a name is declared here. */
    method TryEmplaceAmong(name: string, qty: Qty, ty: Expr, ghost others: set<Context>) returns (r: Option<Var>)
      requires Valid() && name != UNNAMED && Beside(others) && forall c :: c in others ==> c.Valid()
      modifies names, values
      ensures Valid() && (r.Some? <==> FindIn(old(names.data), name).None?)
      ensures forall c :: c in others ==> c.Valid()
    {
      ghost var ns, vs := set c | c in others :: c.names, set c | c in others :: c.values;
      r := TryEmplace(name, qty, ty, ns, vs);
    }

    /** And when a variable is numbered here, although that moves their counter on. */
    method AddUnnamedAmong(qty: Qty, ty: Expr, ghost others: set<Context>)
      requires Valid() && Beside(others) && forall c :: c in others ==> c.Valid()
      modifies values, unnamed
      ensures Valid() && unnamed.next == old(unnamed.next) + 1
      ensures forall c :: c in others ==> c.Valid()
    {
      ghost var vs := set c | c in others :: c.values;
      AddUnnamed(qty, ty, vs);
      forall c | c in others ensures c.Valid() {
        LaterConsistent(c.names.View(), c.values.View(), old(unnamed.next), unnamed.next);
      }
    }
  }
}
