/** Primitive reduction of closed boolean, relational and arithmetic expressions at one integer width.

    One step folds one node whose operands are constants; steps are repeated until nothing changes. */
module Folding {
  import opened Ast

  // The integer type of the operands.
  datatype IntType = IntType(signed: bool, width: nat)

  function Pow2(n: nat): (r: nat)
    ensures r > 0
  {
    if n == 0 then 1 else 2 * Pow2(n - 1)
  }

  predicate InRange(t: IntType, n: int) {
    if t.signed then t.width > 0 && 0 <= n + Pow2(t.width - 1) < Pow2(t.width) else 0 <= n < Pow2(t.width)
  }

  // ---- wrap-around arithmetic, as the source computes it ----

  // The bits of an in-range integer, read as unsigned.
  function Bits(t: IntType, n: int): (u: nat)
    ensures u < Pow2(t.width)
  {
    n % Pow2(t.width)
  }

  // And back.
  function OfBits(t: IntType, u: nat): int {
    if t.signed && t.width > 0 && u >= Pow2(t.width - 1) then u - Pow2(t.width) else u
  }

  function Arith(t: IntType, op: Op, a: int, b: int): int
    requires op in {Plus, Minus, Mult}
  {
    var x, y := Bits(t, a), Bits(t, b);
    var z := match op case Plus => x + y case Minus => x - y case _ => x * y;
    OfBits(t, z % Pow2(t.width))
  }

  // The one in-range integer that differs from `n` by a multiple of two to the width.
  function Wrap(t: IntType, n: int): int {
    OfBits(t, n % Pow2(t.width))
  }

  lemma WrapInRange(t: IntType, n: int)
    requires t.width > 0
    ensures InRange(t, Wrap(t, n)) && (Wrap(t, n) - n) % Pow2(t.width) == 0
    ensures InRange(t, n) ==> Wrap(t, n) == n
  {
    var m, u := Pow2(t.width), n % Pow2(t.width);
    assert m == 2 * Pow2(t.width - 1);
    assert Wrap(t, n) == u || Wrap(t, n) == u - m;
    Residue(u, n, m);
    if InRange(t, n) { InRangeResidue(t, n); }
  }

  lemma InRangeResidue(t: IntType, n: int)
    requires t.width > 0 && InRange(t, n)
    ensures n % Pow2(t.width) == if n < 0 then n + Pow2(t.width) else n
  {
    if n < 0 { NegativeResidue(n, Pow2(t.width)); } else { DivMod(n, Pow2(t.width), 0, n); }
  }

  lemma NegativeResidue(n: int, m: nat)
    requires n < 0 <= n + m && m > 0
    ensures n % m == n + m
  {
  }

  lemma Residue(u: int, n: int, m: nat)
    requires m > 0 && u == n % m
    ensures (u - n) % m == 0 && (u - m - n) % m == 0
  {
    var q := n / m;
    Multiple(m, -q);
    Multiple(m, -q - 1);
    assert u - n == m * -q;
    assert u - m - n == m * (-q - 1);
  }

  lemma Multiple(m: nat, q: int)
    requires m > 0
    ensures (m * q) % m == 0
  {
    DivMod(m * q, m, q, 0);
  }

  // Division with remainder is unique.
  lemma DivMod(n: int, m: nat, q: int, r: int)
    requires m > 0 && n == m * q + r && 0 <= r < m
    ensures n % m == r
  {
    var p, s := n / m, n % m;
    var d := p - q;
    assert m * d == r - s by { Distribute(m, p, q); }
    if d >= 1 { AtLeast(m, d); } else if d <= -1 { AtLeast(m, -d); }
  }

  lemma Distribute(m: int, p: int, q: int)
    ensures m * (p - q) == m * p - m * q
    ensures m * (p + q) == m * p + m * q
  {
  }

  lemma AtLeast(m: nat, d: int)
    requires d >= 1
    ensures m * d >= m && m * -d + m <= 0
  {
  }

  lemma SameResidue(a: int, b: int, m: nat)
    requires m > 0
    ensures (a % m) % m == a % m && (b % m) % m == b % m
  {
  }

  // Residues may be taken before or after adding, subtracting and multiplying.
  lemma Homomorphic(a: int, b: int, m: nat)
    requires m > 0
    ensures (a % m + b % m) % m == (a + b) % m
    ensures (a % m - b % m) % m == (a - b) % m
    ensures (a % m * (b % m)) % m == (a * b) % m
  {
    var p, q, x, y := a / m, b / m, a % m, b % m;
    Distribute(m, p, q);
    Shift(x + y, m, p + q, a + b);
    Shift(x - y, m, p - q, a - b);
    Products(m, p, q, x, y);
    Shift(x * y, m, p * b + x * q, a * b);
  }

  lemma Products(m: int, p: int, q: int, x: int, y: int)
    ensures (m * p + x) * (m * q + y) == m * (p * (m * q + y) + x * q) + x * y
  {
  }

  lemma Shift(r: int, m: nat, q: int, n: int)
    requires m > 0 && n == m * q + r
    ensures r % m == n % m
  {
    DivMod(n, m, q + r / m, r % m);
  }

  /** What the source computes on the bits is the exact result, wrapped. */
  lemma ArithWraps(t: IntType, op: Op, a: int, b: int)
    requires op in {Plus, Minus, Mult}
    ensures Arith(t, op, a, b) == Wrap(t, Exactly(op, a, b))
    ensures Wrap(t, Exactly(op, Wrap(t, a), Wrap(t, b))) == Wrap(t, Exactly(op, a, b))
  {
    var m := Pow2(t.width);
    Homomorphic(a, b, m);
    Homomorphic(Wrap(t, a), Wrap(t, b), m);
    WrapResidue(t, a);
    WrapResidue(t, b);
  }

  lemma WrapResidue(t: IntType, n: int)
    ensures Wrap(t, n) % Pow2(t.width) == n % Pow2(t.width)
  {
    var m := Pow2(t.width);
    SameResidue(n, n, m);
    Shift(n % m, m, -1, n % m - m);
  }

  function Exactly(op: Op, a: int, b: int): int
    requires op in {Plus, Minus, Mult}
  {
    match op case Plus => a + b case Minus => a - b case _ => a * b
  }

  // ---- one step ----

  function Compare(op: Op, a: int, b: int): bool {
    match op
    case Eq => a == b
    case Neq => a != b
    case Gt => a > b
    case Gte => a >= b
    case Lt => a < b
    case _ => a <= b
  }

  function OfBool(b: bool): int {
    if b then 1 else 0
  }

  predicate IsRelation(op: Op) {
    op in {Eq, Neq, Gt, Gte, Lt, Lte}
  }

  function Reduce(t: IntType, op: Op, es: seq<Expr>): Option<Expr> {
    if |es| == 1 && op == Not && es[0].Atom? && es[0].atom.BoolConst? then Some(Atom(BoolConst(!es[0].atom.b)))
    else if |es| != 2 || !es[0].Atom? || !es[1].Atom? then None
    else match (es[0].atom, es[1].atom)
      case (BoolConst(a), BoolConst(b)) =>
        if op == And then Some(Atom(BoolConst(a && b)))
        else if op == Or then Some(Atom(BoolConst(a || b)))
        else if IsRelation(op) then Some(Atom(BoolConst(Compare(op, OfBool(a), OfBool(b)))))
        else None
      case (NumConst(a), NumConst(b)) =>
        if IsRelation(op) then Some(Atom(BoolConst(Compare(op, a, b))))
        else if op in {Plus, Minus, Mult} then Some(Atom(NumConst(Arith(t, op, a, b))))
        else None
      case _ => None
  }

  // Primitive reduction of the node itself, otherwise a step in the first operand that can make one.
  function Step(t: IntType, e: Expr): Option<Expr>
    decreases e, 1
  {
    if !e.Node? then None
    else
      var r := Reduce(t, e.op, e.operands);
      if r.Some? then r
      else match StepOperands(t, e.operands) case None => None case Some(es) => Some(Node(e.op, es))
  }

  function StepOperands(t: IntType, es: seq<Expr>): (r: Option<seq<Expr>>)
    ensures r.Some? ==> |r.value| == |es|
    decreases es, 0
  {
    if es == [] then None
    else match Step(t, es[0])
         case Some(e) => Some([e] + es[1..])
         case None => match StepOperands(t, es[1..]) case None => None case Some(rest) => Some([es[0]] + rest)
  }

  // ---- closed expressions over constants ----

  predicate NumTree(t: IntType, e: Expr)
    decreases e
  {
    match e
    case Atom(NumConst(n)) => InRange(t, n)
    case Node(op, es) => op in {Plus, Minus, Mult} && |es| == 2 && NumTree(t, es[0]) && NumTree(t, es[1])
    case _ => false
  }

  predicate BoolTree(t: IntType, e: Expr)
    decreases e
  {
    match e
    case Atom(BoolConst(_)) => true
    case Node(op, es) =>
      if op == Not then |es| == 1 && BoolTree(t, es[0])
      else if op in {And, Or} then |es| == 2 && BoolTree(t, es[0]) && BoolTree(t, es[1])
      else IsRelation(op) && |es| == 2
           && ((NumTree(t, es[0]) && NumTree(t, es[1])) || (BoolTree(t, es[0]) && BoolTree(t, es[1])))
    case _ => false
  }

  // The value over the unbounded integers.
  function ExactValue(t: IntType, e: Expr): int
    requires NumTree(t, e)
    decreases e
  {
    match e
    case Atom(NumConst(n)) => n
    case Node(op, es) => Exactly(op, ExactValue(t, es[0]), ExactValue(t, es[1]))
  }

  function Truth(t: IntType, e: Expr): bool
    requires BoolTree(t, e)
    decreases e
  {
    match e
    case Atom(BoolConst(b)) => b
    case Node(op, es) =>
      if op == Not then !Truth(t, es[0])
      else if op == And then Truth(t, es[0]) && Truth(t, es[1])
      else if op == Or then Truth(t, es[0]) || Truth(t, es[1])
      else if NumTree(t, es[0]) && NumTree(t, es[1])
        then Compare(op, Wrap(t, ExactValue(t, es[0])), Wrap(t, ExactValue(t, es[1])))
      else Compare(op, OfBool(Truth(t, es[0])), OfBool(Truth(t, es[1])))
  }

  predicate Primitive(t: IntType, e: Expr) {
    NumTree(t, e) || BoolTree(t, e)
  }

  // The constant that a primitive expression stands for.
  function ConstantOf(t: IntType, e: Expr): Expr
    requires Primitive(t, e)
  {
    if NumTree(t, e) then Atom(NumConst(Wrap(t, ExactValue(t, e)))) else Atom(BoolConst(Truth(t, e)))
  }

  lemma {:induction false} OneSort(t: IntType, e: Expr)
    ensures !(NumTree(t, e) && BoolTree(t, e))
  {
  }

  // ---- steps keep the value and go on until there is only a constant ----

  lemma {:induction false} StepNum(t: IntType, e: Expr)
    requires t.width > 0 && NumTree(t, e)
    ensures Step(t, e).None? <==> e.Atom?
    ensures Step(t, e).Some? ==> NumTree(t, Step(t, e).value) && Size(Step(t, e).value) < Size(e)
    ensures Step(t, e).Some? ==> Wrap(t, ExactValue(t, Step(t, e).value)) == Wrap(t, ExactValue(t, e))
    decreases e
  {
    if e.Node? {
      var a, b := e.operands[0], e.operands[1];
      assert e.operands == [a, b] && [a, b][1..] == [b] && [b][1..] == [];
      Pair(a, b);
      if a.Atom? && b.Atom? {
        ArithWraps(t, e.op, a.atom.n, b.atom.n);
        WrapInRange(t, Exactly(e.op, a.atom.n, b.atom.n));
        WrapInRange(t, Wrap(t, Exactly(e.op, a.atom.n, b.atom.n)));
      } else {
        StepOperand(t, e.op, a, b);
        StepNum(t, a);
        StepNum(t, b);
        var c, d := if a.Atom? then a else Step(t, a).value, if a.Atom? then Step(t, b).value else b;
        Congruent(t, e.op, ExactValue(t, a), ExactValue(t, c), ExactValue(t, b), ExactValue(t, d));
      }
    }
  }

  lemma Pair(a: Expr, b: Expr)
    ensures SizeSeq([a, b]) == Size(a) + Size(b)
    ensures SizeSeq([a]) == Size(a)
  {
    assert [a, b][1..] == [b] && [b][1..] == [] && [a][1..] == [];
    assert SizeSeq([b]) == Size(b);
  }

  lemma Congruent(t: IntType, op: Op, a: int, a': int, b: int, b': int)
    requires op in {Plus, Minus, Mult} && Wrap(t, a) == Wrap(t, a') && Wrap(t, b) == Wrap(t, b')
    ensures Wrap(t, Exactly(op, a, b)) == Wrap(t, Exactly(op, a', b'))
  {
    ArithWraps(t, op, a, b);
    ArithWraps(t, op, a', b');
  }

  lemma {:induction false} StepBool(t: IntType, e: Expr)
    requires t.width > 0 && BoolTree(t, e)
    ensures Step(t, e).None? <==> e.Atom?
    ensures Step(t, e).Some? ==> BoolTree(t, Step(t, e).value) && Size(Step(t, e).value) < Size(e)
    ensures Step(t, e).Some? ==> Truth(t, Step(t, e).value) == Truth(t, e)
    decreases e, 1
  {
    if e.Node? {
      if e.op == Not { StepNot(t, e); } else { StepBinary(t, e); }
    }
  }

  lemma {:induction false} StepNot(t: IntType, e: Expr)
    requires t.width > 0 && BoolTree(t, e) && e.Node? && e.op == Not
    ensures Step(t, e).Some? && BoolTree(t, Step(t, e).value) && Size(Step(t, e).value) < Size(e)
    ensures Truth(t, Step(t, e).value) == Truth(t, e)
    decreases e, 0
  {
    var a := e.operands[0];
    assert e.operands == [a] && [a][1..] == [];
    Pair(a, a);
    if !a.Atom? {
      StepBool(t, a);
      var c := Step(t, a).value;
      Pair(c, c);
      assert [c] + [] == [c];
      assert Step(t, e) == Some(Node(Not, [c]));
    }
  }

  // One operand at least is not a constant yet, or the node folds.
  lemma {:induction false} StepBinary(t: IntType, e: Expr)
    requires t.width > 0 && BoolTree(t, e) && e.Node? && e.op != Not
    ensures Step(t, e).Some? && BoolTree(t, Step(t, e).value) && Size(Step(t, e).value) < Size(e)
    ensures Truth(t, Step(t, e).value) == Truth(t, e)
    decreases e, 0
  {
    var a, b := e.operands[0], e.operands[1];
    assert e.operands == [a, b];
    Pair(a, b);
    StepsWell(t, a);
    StepsWell(t, b);
    if a.Atom? && b.Atom? { FoldConstants(t, e.op, a, b); } else { UnfoldOperand(t, e.op, a, b); }
  }

  lemma {:induction false} StepsWell(t: IntType, e: Expr)
    requires t.width > 0 && Primitive(t, e)
    ensures Step(t, e).None? <==> e.Atom?
    ensures Step(t, e).Some? ==> StepsTo(t, e, Step(t, e).value)
    decreases e, 2
  {
    OneSort(t, e);
    if NumTree(t, e) { StepNum(t, e); } else { StepBool(t, e); }
    if Step(t, e).Some? { OneSort(t, Step(t, e).value); }
  }

  lemma FoldConstants(t: IntType, op: Op, a: Expr, b: Expr)
    requires t.width > 0 && op != Not && BoolTree(t, Node(op, [a, b])) && a.Atom? && b.Atom?
    ensures var e := Node(op, [a, b]);
            Step(t, e).Some? && Step(t, e).value == Atom(BoolConst(Truth(t, e)))
  {
    if NumTree(t, a) { WrapInRange(t, a.atom.n); WrapInRange(t, b.atom.n); }
  }

  // A step in an operand, which keeps its sort and its constant.
  lemma UnfoldOperand(t: IntType, op: Op, a: Expr, b: Expr)
    requires op != Not && BoolTree(t, Node(op, [a, b])) && (!a.Atom? || !b.Atom?)
    requires forall c | c in {a, b} ::
             (Step(t, c).None? <==> c.Atom?)
             && (Step(t, c).Some? ==> StepsTo(t, c, Step(t, c).value))
    ensures var e := Node(op, [a, b]);
            && Step(t, e).Some? && BoolTree(t, Step(t, e).value) && Size(Step(t, e).value) < Size(e)
            && Truth(t, Step(t, e).value) == Truth(t, e)
  {
    StepOperand(t, op, a, b);
    assert a in {a, b} && b in {a, b};
    if !a.Atom? {
      SameTruth(t, op, a, b, Step(t, a).value, b);
    } else {
      SameTruth(t, op, a, b, a, Step(t, b).value);
    }
  }

  predicate StepsTo(t: IntType, e: Expr, r: Expr) {
    && Size(r) < Size(e) && (NumTree(t, e) ==> NumTree(t, r)) && (BoolTree(t, e) ==> BoolTree(t, r))
    && (Primitive(t, e) && Primitive(t, r) ==> ConstantOf(t, r) == ConstantOf(t, e))
  }

  // Without a reduction at the node, the first operand that can makes the step.
  lemma StepOperand(t: IntType, op: Op, a: Expr, b: Expr)
    requires !a.Atom? || !b.Atom?
    ensures var e := Node(op, [a, b]);
            Step(t, e) == if Step(t, a).Some? then Some(Node(op, [Step(t, a).value, b]))
                          else if Step(t, b).Some? then Some(Node(op, [a, Step(t, b).value]))
                          else None
    ensures forall c ::
            Size(Node(op, [a, c])) == 1 + Size(a) + Size(c)
            && Size(Node(op, [c, b])) == 1 + Size(c) + Size(b)
  {
    assert [a, b][1..] == [b] && [b][1..] == [];
    assert Reduce(t, op, [a, b]).None?;
    if Step(t, a).Some? {
      assert [Step(t, a).value] + [b] == [Step(t, a).value, b];
    } else {
      assert StepOperands(t, [b]) == if Step(t, b).Some? then Some([Step(t, b).value] + []) else None;
      if Step(t, b).Some? {
        assert [Step(t, b).value] + [] == [Step(t, b).value];
        assert [a] + [Step(t, b).value] == [a, Step(t, b).value];
      }
    }
    var steps := StepOperands(t, [a, b]);
    assert Step(t, Node(op, [a, b])) == if steps.Some? then Some(Node(op, steps.value)) else None;
    forall c ensures Size(Node(op, [a, c])) == 1 + Size(a) + Size(c)
      && Size(Node(op, [c, b])) == 1 + Size(c) + Size(b) {
      Pair(a, c);
      Pair(c, b);
    }
  }

  // Operands with the same constants.
  lemma SameTruth(t: IntType, op: Op, a: Expr, b: Expr, c: Expr, d: Expr)
    requires op != Not && BoolTree(t, Node(op, [a, b]))
    requires NumTree(t, a) && NumTree(t, b) ==> NumTree(t, c) && NumTree(t, d)
    requires BoolTree(t, a) && BoolTree(t, b) ==> BoolTree(t, c) && BoolTree(t, d)
    requires Primitive(t, a) && Primitive(t, c) ==> ConstantOf(t, c) == ConstantOf(t, a)
    requires Primitive(t, b) && Primitive(t, d) ==> ConstantOf(t, d) == ConstantOf(t, b)
    ensures BoolTree(t, Node(op, [c, d])) && Truth(t, Node(op, [c, d])) == Truth(t, Node(op, [a, b]))
  {
    OneSort(t, a);
    OneSort(t, b);
    OneSort(t, c);
    OneSort(t, d);
  }

  /** Folding until nothing changes ends in one constant: the exact value wrapped once, or the truth value. */
  method FoldUntilStuck(t: IntType, e: Expr) returns (r: Expr)
    requires t.width > 0 && Primitive(t, e)
    ensures r == ConstantOf(t, e) && Step(t, r).None? && (r.atom.NumConst? ==> InRange(t, r.atom.n))
  {
    r := e;
    var next := Step(t, r);
    while next.Some?
      invariant Primitive(t, r) && next == Step(t, r)
      invariant ConstantOf(t, r) == ConstantOf(t, e)
      decreases Size(r)
    {
      StepPrimitive(t, r);
      r := next.value;
      next := Step(t, r);
    }
    StepPrimitive(t, r);
    if NumTree(t, r) { WrapInRange(t, r.atom.n); }
  }

  lemma StepPrimitive(t: IntType, e: Expr)
    requires t.width > 0 && Primitive(t, e)
    ensures Step(t, e).None? <==> e.Atom?
    ensures Step(t, e).Some? ==>
              Primitive(t, Step(t, e).value) && Size(Step(t, e).value) < Size(e)
                && ConstantOf(t, Step(t, e).value) == ConstantOf(t, e)
  {
    StepsWell(t, e);
    OneSort(t, e);
  }
}
