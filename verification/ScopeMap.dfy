/** A dictionary that can be extended to a new scope: a tree of shared frames, each holding the entries of one scope and
    a pointer to its parent, of which it sees only the entries that were there when it was created.

    A handle and the frame it owns are one object here. */
module ScopeMaps {
  import opened Ast

  datatype Entry<K, V> = Entry(key: K, value: V)

  // What a handle can see: the entries of each scope in insertion order, innermost scope first.
  type View<K, V> = seq<seq<Entry<K, V>>>

  // ---- views ----

  function FindIn<K(==), V>(level: seq<Entry<K, V>>, k: K): Option<V> {
    if level == [] then None
    else if level[0].key == k then Some(level[0].value)
    else FindIn(level[1..], k)
  }

  function Search<K(==), V>(view: View<K, V>, k: K): Option<V> {
    if view == [] then None
    else if FindIn(view[0], k).Some? then FindIn(view[0], k)
    else Search(view[1..], k)
  }

  // The entries from the outermost scope to the innermost.
  function Entries<K, V>(view: View<K, V>): seq<Entry<K, V>> {
    if view == [] then [] else Entries(view[1..]) + view[0]
  }

  function Reverse<T>(s: seq<T>): (r: seq<T>)
    ensures |r| == |s|
  {
    if s == [] then [] else Reverse(s[1..]) + [s[0]]
  }

  function Flatten<T>(levels: seq<seq<T>>): seq<T> {
    if levels == [] then [] else levels[0] + Flatten(levels[1..])
  }

  // The same keys everywhere, and the same values but for one key.
  ghost predicate SameBut<K, V>(a: View<K, V>, b: View<K, V>, k: K) {
    |a| == |b| && forall i :: 0 <= i < |a| ==> LevelSameBut(a[i], b[i], k)
  }

  ghost predicate LevelSameBut<K, V>(a: seq<Entry<K, V>>, b: seq<Entry<K, V>>, k: K) {
    |a| == |b| && forall j :: 0 <= j < |a| ==> a[j].key == b[j].key && (a[j].key != k ==> a[j] == b[j])
  }

  function MapLevel<K, V>(f: V -> V, level: seq<Entry<K, V>>): (r: seq<Entry<K, V>>)
    ensures |r| == |level|
  {
    seq(|level|, i requires 0 <= i < |level| => Entry(level[i].key, f(level[i].value)))
  }

  function MapView<K, V>(f: V -> V, view: View<K, V>): (r: View<K, V>)
    ensures |r| == |view|
  {
    seq(|view|, i requires 0 <= i < |view| => MapLevel(f, view[i]))
  }

  lemma {:induction false} FindAt<K, V>(level: seq<Entry<K, V>>, k: K, i: nat)
    requires i < |level| && level[i].key == k && forall j :: 0 <= j < i ==> level[j].key != k
    ensures FindIn(level, k) == Some(level[i].value)
  {
    if i > 0 { FindAt(level[1..], k, i - 1); }
  }

  lemma {:induction false} FindNowhere<K, V>(level: seq<Entry<K, V>>, k: K)
    requires forall j :: 0 <= j < |level| ==> level[j].key != k
    ensures FindIn(level, k) == None
  {
    if level != [] { FindNowhere(level[1..], k); }
  }

  lemma {:induction false} ReverseAppend<T>(a: seq<T>, b: seq<T>)
    ensures Reverse(a + b) == Reverse(b) + Reverse(a)
  {
    if a == [] {
      assert a + b == b;
    } else {
      assert (a + b)[0] == a[0] && (a + b)[1..] == a[1..] + b;
      ReverseAppend(a[1..], b);
    }
  }

  lemma {:induction false} FlattenAppend<T>(a: seq<seq<T>>, b: seq<seq<T>>)
    ensures Flatten(a + b) == Flatten(a) + Flatten(b)
  {
    if a == [] {
      assert a + b == b;
    } else {
      assert (a + b)[0] == a[0] && (a + b)[1..] == a[1..] + b;
      FlattenAppend(a[1..], b);
    }
  }

  // ---- frames ----

  class ScopeMap<K(==), V> {
    const parent: ScopeMap?<K, V>
    const maxParentIndex: nat  // of the parent, only the entries before this index are seen
    var data: seq<Entry<K, V>>
    var index: map<K, nat>

    ghost const depth: nat
    ghost const above: set<ScopeMap<K, V>>  // this frame and all its ancestors

    ghost predicate Linked()
      decreases depth
    {
      if parent == null then depth == 0 && above == {this}
      else depth == parent.depth + 1 && above == {this} + parent.above && this !in parent.above && parent.Linked()
    }

    ghost predicate Indexed()
      reads this
    {
      && (forall k :: k in index ==> index[k] < |data| && data[index[k]].key == k)
      && (forall i :: 0 <= i < |data| ==> data[i].key in index && index[data[i].key] == i)
    }

    ghost predicate Valid()
      reads this, above
      decreases depth
    {
      && Linked() && Indexed()
      && (parent != null ==> parent.Valid() && maxParentIndex <= |parent.data|)
    }

    // What can be seen from here of the first `n` entries of this frame.
    ghost function Levels(n: nat): (view: View<K, V>)
      requires Valid() && n <= |data|
      reads this, above
      decreases depth
    {
      [data[..n]] + if parent == null then [] else parent.Levels(maxParentIndex)
    }

    ghost function View(): View<K, V>
      requires Valid()
      reads this, above
    {
      Levels(|data|)
    }

    // What the parent and its ancestors contribute.
    ghost function Outer(): View<K, V>
      requires Valid()
      reads this, above
    {
      if parent == null then [] else parent.Levels(maxParentIndex)
    }

    lemma Split()
      requires Valid()
      ensures View() == [data] + Outer() && View()[1..] == Outer()
    {
      assert data[..|data|] == data;
    }

    constructor ()
      ensures Valid() && View() == [[]] && above == {this} && data == []
    {
      parent, maxParentIndex, data, index := null, 0, [], map[];
      depth, above := 0, {this};
    }

    constructor Extending(p: ScopeMap<K, V>)
      requires p.Valid()
      ensures Valid() && parent == p && View() == [[]] + p.View() && above == {this} + p.above && data == []
    {
      parent, maxParentIndex, data, index := p, |p.data|, [], map[];
      depth, above := p.depth + 1, {this} + p.above;
    }

    // A copy of a frame, below the given parent.
    constructor Below(p: ScopeMap?<K, V>, max: nat, data: seq<Entry<K, V>>, index: map<K, nat>)
      requires p != null ==> p.Valid() && max <= |p.data|
      ensures parent == p && maxParentIndex == max && this.data == data && this.index == index
      ensures Linked() && above == {this} + if p == null then {} else p.above
    {
      parent, maxParentIndex, this.data, this.index := p, max, data, index;
      depth, above := if p == null then 0 else p.depth + 1, {this} + if p == null then {} else p.above;
    }

    method Extend() returns (m: ScopeMap<K, V>)
      requires Valid()
      ensures fresh(m) && m.Valid() && m.View() == [[]] + View() && m.above == {m} + above && m.data == []
    {
      m := new ScopeMap.Extending(this);
    }

    method InnermostCopy() returns (m: ScopeMap<K, V>)
      requires Valid()
      ensures fresh(m) && m.Valid() && m.View() == View() && m.above == {m} + (above - {this}) && m.data == data
    {
      m := new ScopeMap.Below(parent, maxParentIndex, data, index);
    }

    /** A copy all of whose frames are new. */
    method DeepCopy() returns (m: ScopeMap<K, V>)
      requires Valid()
      ensures fresh(m.above) && m.Valid() && m.View() == View() && m.data == data
      ensures forall n :: 0 <= n <= |data| ==> m.Levels(n) == Levels(n)
      decreases depth
    {
      if parent == null {
        m := new ScopeMap.Below(null, maxParentIndex, data, index);
      } else {
        var p := parent.DeepCopy();
        m := new ScopeMap.Below(p, maxParentIndex, data, index);
        assert m.Levels(|data|) == [data[..|data|]] + p.Levels(maxParentIndex);
      }
    }

    /** Inserts an entry unless the innermost scope has one with this key. Whatever any other handle of the world sees
        stays as it is, whether it is an ancestor, a descendant or neither. */
    method TryEmplace(k: K, v: V, ghost world: set<ScopeMap<K, V>>) returns (at: nat, inserted: bool)
      requires Valid() && forall g :: g in world ==> g.Valid()
      modifies this
      ensures inserted <==> forall i :: 0 <= i < |old(data)| ==> old(data)[i].key != k
      ensures data == if inserted then old(data) + [Entry(k, v)] else old(data)
      ensures at < |data| && data[at].key == k && (inserted ==> at == |data| - 1)
      ensures Valid() && View() == [data] + old(View())[1..]
      ensures forall g :: g in world && g != this ==> g.Valid() && g.View() == old(g.View())
    {
      Split();
      if k in index {
        at, inserted := index[k], false;
      } else {
        at, inserted := |data|, true;
        EmplaceBack(Entry(k, v), world);
      }
    }

    method EmplaceBack(e: Entry<K, V>, ghost world: set<ScopeMap<K, V>>)
      requires Valid() && e.key !in index && forall g :: g in world ==> g.Valid()
      modifies this
      ensures data == old(data) + [e]
      ensures Valid() && View() == [data] + old(View())[1..]
      ensures forall g :: g in world && g != this ==> g.Valid() && g.View() == old(g.View())
    {
      Split();
      index := index[e.key := |data|];
      data := data + [e];
      if parent != null { StillSeen(parent, this, maxParentIndex); }
      forall g | g in world && g != this ensures g.Valid() && g.View() == old(g.View()) {
        StillSeen(g, this, |g.data|);
      }
      Split();
    }

    /** Overwrites a value of the innermost scope. This one is seen by descendants: only keys are frozen. */
    method Assign(at: nat, v: V, ghost world: set<ScopeMap<K, V>>)
      requires Valid() && at < |data| && forall g :: g in world ==> g.Valid()
      modifies this
      ensures data == old(data)[at := Entry(old(data)[at].key, v)]
      ensures Valid() && View() == [data] + old(View())[1..]
      ensures forall g :: g in world && this !in g.above ==> g.Valid() && g.View() == old(g.View())
      ensures forall g :: g in world ==> g.Valid() && SameBut(g.View(), old(g.View()), old(data)[at].key)
    {
      Split();
      ghost var k := data[at].key;
      data := data[at := Entry(data[at].key, v)];
      if parent != null { Unseen(parent, this, maxParentIndex); }
      forall g | g in world ensures g.Valid() && SameBut(g.View(), old(g.View()), k) {
        StillKeyed(g, this, |g.data|, k);
      }
      forall g | g in world && this !in g.above ensures g.View() == old(g.View()) { Unseen(g, this, |g.data|); }
      Split();
    }

    /** Lookup, frame by frame up to the root, is innermost-first search of what can be seen. */
    method Lookup(k: K) returns (r: Option<V>)
      requires Valid()
      ensures r == Search(View(), k)
    {
      var s: ScopeMap?<K, V> := this;
      var max: nat := |data|;
      while s != null
        invariant s != null ==> s.Valid() && max <= |s.data|
        invariant Search(View(), k) == if s == null then None else Search(s.Levels(max), k)
        decreases if s == null then 0 else s.depth + 1
      {
        s.SearchHere(k, max);
        if k in s.index && s.index[k] < max {
          return Some(s.data[s.index[k]].value);
        }
        if s.parent == null {
          return None;
        }
        s, max := s.parent, s.maxParentIndex;
      }
      return None;
    }

    // The index answers for the first `max` entries.
    lemma SearchHere(k: K, max: nat)
      requires Valid() && max <= |data|
      ensures FindIn(data[..max], k) == if k in index && index[k] < max then Some(data[index[k]].value) else None
      ensures Search(Levels(max), k) ==
              if k in index && index[k] < max then Some(data[index[k]].value)
              else if parent == null then None else Search(parent.Levels(maxParentIndex), k)
    {
      if k in index && index[k] < max {
        FindAt(data[..max], k, index[k]);
      } else {
        FindNowhere(data[..max], k);
      }
      var view := Levels(max);
      assert view[0] == data[..max];
      assert view[1..] == if parent == null then [] else parent.Levels(maxParentIndex);
    }

    /** Changes every value that can be seen. */
    method MapValues(f: V -> V, ghost world: set<ScopeMap<K, V>>)
      requires Valid() && forall g :: g in world ==> g.Valid() && g.above !! above
      modifies above
      ensures Valid() && View() == MapView(f, old(View())) && |data| == |old(data)|
      ensures forall g :: g in world ==> g.Valid() && g.View() == old(g.View())
    {
      MapFirst(f, |data|);
      forall g | g in world ensures g.Valid() && g.View() == old(g.View()) { Untouched(g, |g.data|); }
    }

    method MapFirst(f: V -> V, n: nat)
      requires Valid() && n <= |data|
      modifies above
      ensures Valid() && |data| == |old(data)| && Levels(n) == MapView(f, old(Levels(n)))
      ensures forall g :: g in above ==> |g.data| == |old(g.data)|
      decreases depth
    {
      if parent != null {
        parent.MapFirst(f, maxParentIndex);
      }
      MapHere(f, n);
    }

    method MapHere(f: V -> V, n: nat)
      requires Indexed() && n <= |data|
      modifies this`data
      ensures Indexed() && |data| == |old(data)| && data[..n] == MapLevel(f, old(data)[..n])
    {
      ghost var before := data;
      for i := 0 to n
        invariant |data| == |before|
        invariant forall j :: 0 <= j < |data| ==> data[j] == if j < i then Entry(before[j].key, f(before[j].value))
                  else before[j]
      {
        data := data[i := Entry(data[i].key, f(data[i].value))];
      }
    }

    // ---- iteration ----

    /** The non-empty scopes that can be seen, outermost first. */
    method CBegin() returns (it: LevelsIterator<Entry<K, V>>)
      requires Valid()
      ensures fresh(it) && it.Valid() && it.Remaining() == Entries(View())
    {
      var levels := Visible();
      levels := Reversed(levels);
      it := new LevelsIterator(levels);
      ForwardOrder(View());
    }

    /** The same in reverse, innermost first and each scope backwards. */
    method RBegin() returns (it: LevelsIterator<Entry<K, V>>)
      requires Valid()
      ensures fresh(it) && it.Valid() && it.Remaining() == Reverse(Entries(View()))
    {
      var levels := Visible();
      for i := 0 to |levels|
        invariant |levels| == |NonEmpty(View())|
        invariant forall j :: 0 <= j < |levels| ==>
                  levels[j] == if j < i then Reverse(NonEmpty(View())[j]) else NonEmpty(View())[j]
      {
        levels := levels[i := Reverse(levels[i])];
      }
      it := new LevelsIterator(levels);
      BackwardOrder(View(), levels);
    }

    method Visible() returns (levels: seq<seq<Entry<K, V>>>)
      requires Valid()
      ensures levels == NonEmpty(View())
    {
      levels := [];
      var s: ScopeMap?<K, V> := this;
      var max: nat := |data|;
      while s != null
        invariant s != null ==> s.Valid() && max <= |s.data|
        invariant levels + NonEmpty(if s == null then [] else s.Levels(max)) == NonEmpty(View())
        decreases if s == null then 0 else s.depth + 1
      {
        var here := if max == 0 then [] else [s.data[..max]];
        s.VisibleHere(max);
        Regroup(levels, here, NonEmpty(s.Outer()));
        levels := levels + here;
        s, max := s.parent, s.maxParentIndex;
      }
    }

    lemma VisibleHere(max: nat)
      requires Valid() && max <= |data|
      ensures NonEmpty(Levels(max)) == (if max == 0 then [] else [data[..max]]) + NonEmpty(Outer())
    {
      assert Levels(max)[1..] == Outer();
    }
  }

  // ---- what a change to one frame leaves alone ----

  // Entries were appended to `f`: every prefix that existed is still the same.
  twostate lemma StillSeen<K, V>(new g: ScopeMap<K, V>, new f: ScopeMap<K, V>, n: nat)
    requires old(allocated(g)) && old(allocated(f))
    requires old(g.Valid()) && n <= old(|g.data|)
    requires forall h :: h in g.above && h != f ==> unchanged(h)
    requires |old(f.data)| <= |f.data| && f.data[..|old(f.data)|] == old(f.data) && f.Indexed()
    ensures g.Valid() && n <= |g.data| && g.Levels(n) == old(g.Levels(n))
    decreases g.depth
  {
    if g.parent != null { StillSeen(g.parent, f, g.maxParentIndex); }
    assert g.data[..n] == old(g.data)[..n];
  }

  // The value of a key of `f` was overwritten: every prefix is the same but for that.
  twostate lemma StillKeyed<K, V>(new g: ScopeMap<K, V>, new f: ScopeMap<K, V>, n: nat, new k: K)
    requires old(allocated(g)) && old(allocated(f))
    requires old(g.Valid()) && n <= old(|g.data|)
    requires forall h :: h in g.above && h != f ==> unchanged(h)
    requires LevelSameBut(f.data, old(f.data), k) && f.Indexed()
    ensures g.Valid() && n <= |g.data| && SameBut(g.Levels(n), old(g.Levels(n)), k)
    decreases g.depth
  {
    if g.parent != null { StillKeyed(g.parent, f, g.maxParentIndex, k); }
  }

  twostate lemma Unseen<K, V>(new g: ScopeMap<K, V>, new f: ScopeMap<K, V>, n: nat)
    requires old(allocated(g)) && old(allocated(f))
    requires old(g.Valid()) && n <= old(|g.data|) && f !in g.above
    requires forall h :: h in g.above ==> unchanged(h)
    ensures g.Valid() && n <= |g.data| && g.Levels(n) == old(g.Levels(n))
    decreases g.depth
  {
    Untouched(g, n);
  }

  twostate lemma Untouched<K, V>(new g: ScopeMap<K, V>, n: nat)
    requires old(allocated(g))
    requires old(g.Valid()) && n <= old(|g.data|)
    requires forall h :: h in g.above ==> unchanged(h)
    ensures g.Valid() && n <= |g.data| && g.Levels(n) == old(g.Levels(n))
    decreases g.depth
  {
    if g.parent != null { Untouched(g.parent, g.maxParentIndex); }
  }

  // ---- iterators ----

  // What is left of a sequence of levels from a position on.
  function From<T>(levels: seq<seq<T>>, level: nat, at: nat): seq<T>
    requires level < |levels| ==> at <= |levels[level]|
  {
    if level >= |levels| then [] else levels[level][at..] + Flatten(levels[level + 1..])
  }

  lemma OneFurther<T>(levels: seq<seq<T>>, level: nat, at: nat)
    requires level < |levels| && at < |levels[level]|
    ensures From(levels, level, at) == [levels[level][at]] + From(levels, level, at + 1)
  {
    Advance(levels[level], at, Flatten(levels[level + 1..]));
  }

  lemma Advance<T>(row: seq<T>, at: nat, rest: seq<T>)
    requires at < |row|
    ensures row[at..] + rest == [row[at]] + (row[at + 1..] + rest)
  {
  }

  lemma NextLevel<T>(levels: seq<seq<T>>, level: nat)
    requires level < |levels|
    ensures From(levels, level, |levels[level]|) == From(levels, level + 1, 0)
  {
    var rest := Flatten(levels[level + 1..]);
    assert From(levels, level, |levels[level]|) == rest;
    if level + 1 < |levels| { FlattenFrom(levels, level + 1); } else { assert levels[level + 1..] == []; }
  }

  lemma FlattenFrom<T>(levels: seq<seq<T>>, i: nat)
    requires i < |levels|
    ensures Flatten(levels[i..]) == From(levels, i, 0)
  {
    var tail := levels[i..];
    assert tail[0] == levels[i] && tail[1..] == levels[i + 1..] && levels[i][0..] == levels[i];
  }

  // A position in a sequence of non-empty levels.
  class LevelsIterator<T> {
    const levels: seq<seq<T>>
    var level: nat
    var at: nat

    ghost predicate Valid()
      reads this
    {
      && (forall i :: 0 <= i < |levels| ==> levels[i] != [])
      && (level < |levels| ==> at < |levels[level]|)
    }

    predicate AtEnd()
      reads this
    {
      level >= |levels|
    }

    ghost function Remaining(): seq<T>
      requires Valid()
      reads this
    {
      From(levels, level, at)
    }

    constructor (levels: seq<seq<T>>)
      requires forall i :: 0 <= i < |levels| ==> levels[i] != []
      ensures Valid() && Remaining() == Flatten(levels)
    {
      this.levels, level, at := levels, 0, 0;
    }

    method Next() returns (x: T)
      requires Valid() && !AtEnd()
      modifies this
      ensures Valid() && old(Remaining()) == [x] + Remaining()
    {
      x := levels[level][at];
      OneFurther(levels, level, at);
      at := at + 1;
      if at == |levels[level]| {
        NextLevel(levels, level);
        level, at := level + 1, 0;
      }
    }
  }

  lemma Regroup<T>(a: seq<T>, b: seq<T>, c: seq<T>)
    ensures a + (b + c) == (a + b) + c
  {
  }

  function NonEmpty<T>(levels: seq<seq<T>>): (r: seq<seq<T>>)
    ensures forall i :: 0 <= i < |r| ==> r[i] != []
  {
    if levels == [] then []
    else if levels[0] == [] then NonEmpty(levels[1..])
    else [levels[0]] + NonEmpty(levels[1..])
  }

  method Reversed<T>(s: seq<T>) returns (r: seq<T>)
    ensures r == Reverse(s)
    ensures forall i :: 0 <= i < |s| ==> r[i] == s[|s| - 1 - i]
  {
    r := [];
    for i := 0 to |s|
      invariant Reverse(s) == Reverse(s[i..]) + r
      invariant |r| == i && forall j :: 0 <= j < i ==> r[j] == s[i - 1 - j]
    {
      assert s[i..][0] == s[i] && s[i..][1..] == s[i + 1..];
      r := [s[i]] + r;
    }
  }

  lemma {:induction false} ForwardOrder<K, V>(view: View<K, V>)
    ensures Flatten(Reverse(NonEmpty(view))) == Entries(view)
  {
    if view != [] {
      ForwardOrder(view[1..]);
      if view[0] != [] {
        var rest := NonEmpty(view[1..]);
        assert ([view[0]] + rest)[1..] == rest;
        FlattenAppend(Reverse(rest), [view[0]]);
        assert Flatten([view[0]]) == view[0] by { assert [view[0]][1..] == []; }
      }
    }
  }

  lemma {:induction false} BackwardOrder<K, V>(view: View<K, V>, levels: seq<seq<Entry<K, V>>>)
    requires |levels| == |NonEmpty(view)| && forall j :: 0 <= j < |levels| ==> levels[j] == Reverse(NonEmpty(view)[j])
    ensures Flatten(levels) == Reverse(Entries(view))
  {
    if view != [] {
      ReverseAppend(Entries(view[1..]), view[0]);
      if view[0] == [] {
        BackwardOrder(view[1..], levels);
      } else {
        assert NonEmpty(view)[1..] == NonEmpty(view[1..]);
        BackwardOrder(view[1..], levels[1..]);
      }
    }
  }
}
