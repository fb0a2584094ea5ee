/** Row-major arrays: the addresses the code generator computes, against nested lists. Sizes do not overflow. */
module Layout {
  import opened Ast

  // The element type of an array may be an array again.
  datatype Type = Scalar | Array(element: Type, size: nat)

  // A value of array type, written as nested initialiser lists.
  datatype Init = Leaf(v: int) | List(values: seq<Init>)

  predicate HasType(x: Init, t: Type) {
    match (x, t)
    case (Leaf(_), Scalar) => true
    case (List(vs), Array(element, size)) => |vs| == size && forall i :: 0 <= i < |vs| ==> HasType(vs[i], element)
    case _ => false
  }

  function Innermost(t: Type): Type {
    match t case Scalar => Scalar case Array(element, _) => Innermost(element)
  }

  function Dimensions(t: Type): seq<nat> {
    match t case Scalar => [] case Array(element, size) => [size] + Dimensions(element)
  }

  function Product(dims: seq<nat>): nat {
    if dims == [] then 1 else dims[0] * Product(dims[1..])
  }

  // How many innermost elements a value of the type takes.
  function Cells(t: Type): nat {
    match t case Scalar => 1 case Array(element, size) => size * Cells(element)
  }

  lemma {:induction false} CellsOfDimensions(t: Type)
    ensures Product(Dimensions(t)) == Cells(t)
  {
    if t.Array? {
      CellsOfDimensions(t.element);
      assert Dimensions(t)[1..] == Dimensions(t.element);
    }
  }

  // ---- what the source computes from an array type ----

  method GetProperties(t: Type) returns (element: Type, dimensions: seq<nat>)
    requires t.Array?
    ensures element == Innermost(t) && dimensions == Dimensions(t) && dimensions != []
  {
    var curr := t;
    dimensions := [t.size];
    while curr.element.Array?
      invariant curr.Array? && Innermost(curr) == Innermost(t)
      invariant dimensions + Dimensions(curr.element) == Dimensions(t) && dimensions != []
      decreases curr
    {
      curr := curr.element;
      dimensions := dimensions + [curr.size];
    }
    element := curr.element;
  }

  // Both sizes are products accumulated from left to right.
  method Accumulate(dims: seq<nat>, first: nat) returns (acc: nat)
    requires first < |dims|
    ensures acc == Product(dims[first..])
  {
    acc := dims[first];
    assert dims[first..][1..] == dims[first + 1..];
    for j := first + 1 to |dims|
      invariant acc * Product(dims[j..]) == Product(dims[first..])
    {
      assert dims[j..][1..] == dims[j + 1..];
      Associate(acc, dims[j], Product(dims[j + 1..]));
      acc := acc * dims[j];
    }
  }

  lemma Associate(a: nat, b: nat, c: nat)
    ensures a * (b * c) == (a * b) * c
  {
  }

  method TotalSize(t: Type) returns (size: nat)
    requires t.Array?
    ensures size == Cells(t)
  {
    var _, dims := GetProperties(t);
    size := Accumulate(dims, 0);
    CellsOfDimensions(t);
    assert dims[0..] == dims;
  }

  // Absent for one dimension, where the offset is the index itself.
  method StrideIfNeeded(t: Type) returns (stride: Option<nat>)
    requires t.Array?
    ensures (if stride.Some? then stride.value else 1) == Cells(t.element)
    ensures stride.None? <==> !t.element.Array?
  {
    var _, dims := GetProperties(t);
    stride := None;
    if |dims| > 1 {
      var s := Accumulate(dims, 1);
      stride := Some(s);
    }
    CellsOfDimensions(t.element);
    assert dims[1..] == Dimensions(t.element);
  }

  // The address of an element, and of the array that starts there after slicing.
  method ElementAddress(t: Type, base: nat, index: nat) returns (address: nat)
    requires t.Array?
    ensures address == base + Cells(t.element) * index
  {
    var stride := StrideIfNeeded(t);
    address := base + if stride.Some? then stride.value * index else index;
  }

  // ---- initialiser lists ----

  function Flat(x: Init): seq<int>
    decreases x, 0
  {
    match x case Leaf(v) => [v] case List(vs) => FlatAll(vs)
  }

  function FlatAll(vs: seq<Init>): seq<int>
    decreases vs
  {
    if vs == [] then [] else Flat(vs[0]) + FlatAll(vs[1..])
  }

  lemma {:induction false} FlatSize(x: Init, t: Type)
    requires HasType(x, t)
    ensures |Flat(x)| == Cells(t)
    decreases x, 0
  {
    if x.List? { FlatAllSize(x.values, t.element); }
  }

  lemma {:induction false} FlatAllSize(vs: seq<Init>, element: Type)
    requires forall i :: 0 <= i < |vs| ==> HasType(vs[i], element)
    ensures |FlatAll(vs)| == |vs| * Cells(element)
    decreases vs
  {
    if vs != [] {
      FlatSize(vs[0], element);
      FlatAllSize(vs[1..], element);
      Rows(|vs|, Cells(element));
    }
  }

  lemma Rows(n: nat, c: nat)
    requires n > 0
    ensures n * c == c + (n - 1) * c
  {
  }

  lemma {:induction false} FlatAppend(vs: seq<Init>, x: Init)
    ensures FlatAll(vs + [x]) == FlatAll(vs) + Flat(x)
  {
    if vs == [] {
      assert vs + [x] == [x] && [x][1..] == [];
    } else {
      assert (vs + [x])[0] == vs[0] && (vs + [x])[1..] == vs[1..] + [x];
      FlatAppend(vs[1..], x);
    }
  }

  // Consecutive addresses.
  function Run(from: nat, n: nat): (r: seq<nat>)
    ensures |r| == n && forall i :: 0 <= i < n ==> r[i] == from + i
  {
    seq(n, i => from + i)
  }

  // Memory with these values from `dest` on.
  function Overwrite(mem: seq<int>, dest: nat, cells: seq<int>): (r: seq<int>)
    requires dest + |cells| <= |mem|
    ensures |r| == |mem|
  {
    mem[..dest] + cells + mem[dest + |cells|..]
  }

  lemma OverwriteNext(mem: seq<int>, dest: nat, a: seq<int>, b: seq<int>)
    requires dest + |a| + |b| <= |mem|
    ensures Overwrite(Overwrite(mem, dest, a), dest + |a|, b) == Overwrite(mem, dest, a + b)
  {
  }

  /** Stores the flattened list from `dest` on: every position is written exactly once, in order, and nothing else. */
  method StoreInit(mem: array<int>, t: Type, x: Init, dest: nat) returns (written: seq<nat>)
    requires HasType(x, t) && dest + Cells(t) <= mem.Length
    modifies mem
    ensures |Flat(x)| == Cells(t) && mem[..] == Overwrite(old(mem[..]), dest, Flat(x))
    ensures written == Run(dest, Cells(t))
    decreases x
  {
    FlatSize(x, t);
    match x
    case Leaf(v) =>
      mem[dest] := v;
      written := [dest];
    case List(vs) => written := StoreRows(mem, t, vs, dest);
  }

  method StoreRows(mem: array<int>, t: Type, vs: seq<Init>, dest: nat) returns (written: seq<nat>)
    requires t.Array? && HasType(List(vs), t) && dest + Cells(t) <= mem.Length
    modifies mem
    ensures |FlatAll(vs)| == Cells(t) && mem[..] == Overwrite(old(mem[..]), dest, FlatAll(vs))
    ensures written == Run(dest, Cells(t))
    decreases vs
  {
    written := [];
    ghost var before, cells, done := mem[..], Cells(t.element), [];
    assert Overwrite(before, dest, []) == before;
    for i := 0 to |vs|
      invariant done == FlatAll(vs[..i]) && |done| == i * cells && dest + |done| <= |before| == mem.Length
      invariant written == Run(dest, |done|) && mem[..] == Overwrite(before, dest, done)
    {
      var at := ElementAddress(t, dest, i);
      NextRow(i, |vs|, cells);
      ghost var mid := mem[..];
      var row := StoreInit(mem, t.element, vs[i], at);
      written := written + row;
      assert vs[..i + 1] == vs[..i] + [vs[i]];
      FlatAppend(vs[..i], vs[i]);
      OverwriteNext(before, dest, done, Flat(vs[i]));
      done := done + Flat(vs[i]);
    }
    assert vs[..|vs|] == vs;
  }

  lemma NextRow(i: nat, n: nat, c: nat)
    requires i < n
    ensures i * c + c == (i + 1) * c <= n * c && c * i == i * c
  {
  }

  // ---- reading back ----

  // A chain of subscripts that stays within bounds.
  predicate InBounds(t: Type, path: seq<nat>) {
    path == [] || (t.Array? && path[0] < t.size && InBounds(t.element, path[1..]))
  }

  function At(t: Type, path: seq<nat>): Type
    requires InBounds(t, path)
  {
    if path == [] then t else At(t.element, path[1..])
  }

  function Pick(x: Init, t: Type, path: seq<nat>): (r: Init)
    requires HasType(x, t) && InBounds(t, path)
    ensures HasType(r, At(t, path))
    decreases path
  {
    if path == [] then x else Pick(x.values[path[0]], t.element, path[1..])
  }

  function Offset(t: Type, path: seq<nat>): nat
    requires InBounds(t, path)
  {
    if path == [] then 0 else Cells(t.element) * path[0] + Offset(t.element, path[1..])
  }

  method Address(t: Type, base: nat, path: seq<nat>) returns (address: nat)
    requires InBounds(t, path)
    ensures address == base + Offset(t, path)
  {
    var curr := t;
    address := base;
    for i := 0 to |path|
      invariant InBounds(curr, path[i..]) && address + Offset(curr, path[i..]) == base + Offset(t, path)
    {
      assert path[i..][1..] == path[i + 1..];
      address := ElementAddress(curr, address, path[i]);
      curr := curr.element;
    }
  }

  /** In-range subscripts stay inside the array and read the element they name. */
  lemma {:induction false} SubscriptsRead(x: Init, t: Type, path: seq<nat>)
    requires HasType(x, t) && InBounds(t, path)
    ensures Offset(t, path) + Cells(At(t, path)) <= Cells(t) == |Flat(x)|
    ensures Flat(x)[Offset(t, path)..][..Cells(At(t, path))] == Flat(Pick(x, t, path))
    decreases path
  {
    FlatSize(x, t);
    OffsetInside(t, path);
    if path == [] {
      assert Flat(x)[0..][..|Flat(x)|] == Flat(x);
    } else {
      var y, c := x.values[path[0]], Cells(t.element);
      var from, o, n := c * path[0], Offset(t.element, path[1..]), Cells(At(t, path));
      SubscriptsRead(y, t.element, path[1..]);
      RowOf(Flat(x), t, x.values, path[0]);
      assert Flat(x)[from..from + c] == Flat(y);
      InRow(Flat(x), from, c, Flat(y), o, n);
    }
  }

  lemma InRow(s: seq<int>, from: nat, c: nat, row: seq<int>, o: nat, n: nat)
    requires from + c <= |s| && s[from..from + c] == row && o + n <= c
    ensures s[from + o..][..n] == row[o..][..n]
  {
  }

  // So what was stored is what is read.
  lemma StoredReads(before: seq<int>, dest: nat, x: Init, t: Type, path: seq<nat>)
    requires HasType(x, t) && InBounds(t, path) && dest + |Flat(x)| <= |before|
    ensures Offset(t, path) + Cells(At(t, path)) <= |Flat(x)|
    ensures Overwrite(before, dest, Flat(x))[dest + Offset(t, path)..][..Cells(At(t, path))] == Flat(Pick(x, t, path))
  {
    SubscriptsRead(x, t, path);
    var mem, o, n := Overwrite(before, dest, Flat(x)), Offset(t, path), Cells(At(t, path));
    assert mem[dest..dest + |Flat(x)|] == Flat(x);
    SubSlice(mem, dest, |Flat(x)|, o, n);
  }

  lemma RowOf(flat: seq<int>, t: Type, vs: seq<Init>, i: nat)
    requires t.Array? && HasType(List(vs), t) && i < t.size && flat == FlatAll(vs)
    ensures Cells(t.element) * i + Cells(t.element) <= |flat|
    ensures flat[Cells(t.element) * i..Cells(t.element) * i + Cells(t.element)] == Flat(vs[i])
  {
    RowAt(vs, t.element, i);
    Commute(i, Cells(t.element));
  }

  lemma SubSlice(s: seq<int>, from: nat, c: nat, o: nat, n: nat)
    requires from + c <= |s| && o + n <= c
    ensures s[from + o..][..n] == s[from..from + c][o..][..n]
  {
  }

  lemma {:induction false} RowAt(vs: seq<Init>, element: Type, i: nat)
    requires i < |vs| && forall j :: 0 <= j < |vs| ==> HasType(vs[j], element)
    ensures i * Cells(element) + Cells(element) <= |FlatAll(vs)|
    ensures FlatAll(vs)[i * Cells(element)..i * Cells(element) + Cells(element)] == Flat(vs[i])
    decreases vs
  {
    var c := Cells(element);
    FlatSize(vs[0], element);
    if i > 0 {
      RowAt(vs[1..], element, i - 1);
      RowAfter(Flat(vs[0]), FlatAll(vs[1..]), i, c, Flat(vs[i]));
      assert vs[1..][i - 1] == vs[i];
    } else {
      assert (Flat(vs[0]) + FlatAll(vs[1..]))[0..c] == Flat(vs[0]);
    }
  }

  lemma RowAfter(first: seq<int>, rest: seq<int>, i: nat, c: nat, row: seq<int>)
    requires i > 0 && |first| == c && (i - 1) * c + c <= |rest| && rest[(i - 1) * c..(i - 1) * c + c] == row
    ensures i * c + c <= |first + rest| && (first + rest)[i * c..i * c + c] == row
  {
  }

  // Different elements do not overlap.
  lemma {:induction false} SubscriptsDistinct(t: Type, path: seq<nat>, other: seq<nat>)
    requires InBounds(t, path) && InBounds(t, other) && |path| == |other| && path != other
    ensures Offset(t, path) + Cells(At(t, path)) <= Offset(t, other)
            || Offset(t, other) + Cells(At(t, other)) <= Offset(t, path)
    decreases path
  {
    if path[0] == other[0] {
      assert path[1..] != other[1..] by { assert path == [path[0]] + path[1..] && other == [other[0]] + other[1..]; }
      SubscriptsDistinct(t.element, path[1..], other[1..]);
    } else {
      OffsetInside(t.element, path[1..]);
      OffsetInside(t.element, other[1..]);
      var lo, hi := if path[0] < other[0] then path[0] else other[0], if path[0] < other[0] then other[0] else path[0];
      NextRow(lo, hi, Cells(t.element));
      NextRow(0, 1, hi * Cells(t.element));
      Commute(hi, Cells(t.element));
      Commute(lo, Cells(t.element));
    }
  }

  lemma Commute(a: nat, b: nat)
    ensures a * b == b * a
  {
  }

  lemma {:induction false} OffsetInside(t: Type, path: seq<nat>)
    requires InBounds(t, path)
    ensures Offset(t, path) + Cells(At(t, path)) <= Cells(t)
    decreases path
  {
    if path != [] {
      OffsetInside(t.element, path[1..]);
      NextRow(path[0], t.size, Cells(t.element));
    }
  }

  // ---- slices ----

  // What `slice(xs, k)` is: a pointer `k` rows further on, or the list without its first `k` values.
  method SliceAddress(t: Type, base: nat, k: nat) returns (address: nat)
    requires t.Array? && k <= t.size
    ensures address == base + Cells(t.element) * k
  {
    address := ElementAddress(t, base, k);
  }

  function Sliced(t: Type, k: nat): Type
    requires t.Array? && k <= t.size
  {
    Array(t.element, t.size - k)
  }

  function EraseFront(x: Init, k: nat): Init
    requires x.List? && k <= |x.values|
  {
    List(x.values[k..])
  }

  /** `slice(xs, k)[i]...` is `xs[k + i]...`, as addresses and as lists. */
  lemma SliceReads(x: Init, t: Type, k: nat, i: nat, path: seq<nat>)
    requires t.Array? && k <= t.size && HasType(x, t) && InBounds(Sliced(t, k), [i] + path)
    ensures HasType(EraseFront(x, k), Sliced(t, k)) && InBounds(t, [k + i] + path)
    ensures Cells(t.element) * k + Offset(Sliced(t, k), [i] + path) == Offset(t, [k + i] + path)
    ensures Pick(EraseFront(x, k), Sliced(t, k), [i] + path) == Pick(x, t, [k + i] + path)
  {
    assert ([i] + path)[1..] == path && ([k + i] + path)[1..] == path;
    RowsAdd(Cells(t.element), k, i);
    assert HasType(x.values[k + i], t.element);
  }

  lemma RowsAdd(cells: nat, k: nat, i: nat)
    ensures cells * (k + i) == cells * k + cells * i
  {
  }
}
