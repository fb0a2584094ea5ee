/** Beta-normalisation of expressions and bodies.

    `fuel` bounds the number of beta steps nested inside one another; everything else terminates by itself.
    The specification functions come first, the loops of the source over the statement vector after them. */
module Normaliser {
  import opened Ast
  import opened Binders
  import opened Substitution
  import opened Semantics
  import opened Guarding
  import opened UnreachableCode

  function Normalise(e: Expr, fuel: nat): Expr
    decreases fuel, Size(e), 1
  {
    match e
    case Atom(_) => e
    case VarE(_) => e
    case Node(op, es) => Node(op, NormaliseSeq(es, fuel))
    case App(m, f, es) => Extract(m, NormaliseApp(f, es, fuel))
    case Because(v, r) => Because(Normalise(v, fuel), Normalise(r, fuel))
    case Bind(t) => Bind(NormaliseTele(t, fuel))
  }

  function NormaliseSeq(es: seq<Expr>, fuel: nat): (r: seq<Expr>)
    ensures |r| == |es|
    decreases fuel, SizeSeq(es), 2
  {
    if es == [] then [] else [Normalise(es[0], fuel)] + NormaliseSeq(es[1..], fuel)
  }

  // Function and arguments; the beta step is taken only if no argument is mutable.
  function NormaliseApp(f: Expr, es: seq<Expr>, fuel: nat): (Expr, seq<Expr>)
    decreases fuel, 1 + Size(f) + SizeSeq(es), 0
  {
    var g, vs := Normalise(f, fuel), NormaliseSeq(es, fuel);
    if AnyMutable(vs) || !IsRedex(g, vs) || fuel == 0 then (g, vs)
    else
      var end := BetaTele(g.tele, vs).end;
      BetaEnd(g.tele, vs);
      (Bind(Tele([], AbsEnd(end.isMutable, end.ret, Body(NormaliseBody(end.body.stmts, fuel - 1))))), [])
  }

  // Legal applications have as many arguments as the abstraction.
  predicate IsRedex(f: Expr, es: seq<Expr>) {
    IsAbs(f) && |f.tele.args| > 0 && |f.tele.args| == |es|
  }

  lemma {:induction false} BetaEnd(t: Tele, values: seq<Expr>)
    requires |values| == |t.args|
    ensures BetaTele(t, values).end.AbsEnd? == t.end.AbsEnd?
    decreases |t.args|
  {
    if t.args != [] {
      var name, rest := t.args[0].name, Rest(t);
      if name.Some? { SubstTeleEnd(name.value, values[0], rest); }
      BetaEnd(if name.Some? then SubstTele(name.value, values[0], rest) else rest, values[1..]);
    }
  }

  lemma {:induction false} SubstTeleEnd(x: Var, y: Expr, t: Tele)
    ensures SubstTele(x, y, t).end.AbsEnd? == t.end.AbsEnd?
    decreases |t.args|
  {
    if t.args != [] {
      var name, rest := t.args[0].name, Rest(t);
      if name == Some(x) {
      } else if name.Some? && OccursIn(name.value, y, true) {
        var z := FreshVar(name.value, rest);
        ReplaceTeleEnd(rest, name.value, z);
        SubstTeleEnd(x, y, ReplaceTele(name.value, z, rest));
      } else {
        SubstTeleEnd(x, y, rest);
      }
    }
  }

  lemma {:induction false} ReplaceTeleEnd(t: Tele, from: Var, to: Var)
    ensures ReplaceTele(from, to, t).end.AbsEnd? == t.end.AbsEnd?
    decreases |t.args|
  {
    if t.args != [] { ReplaceTeleEnd(Rest(t), from, to); }
  }

  // A parameterless abstraction that only returns an expression is that expression.
  function Extract(m: bool, app: (Expr, seq<Expr>)): Expr {
    var (f, es) := app;
    if es == [] && IsAbs(f) && |f.tele.end.body.stmts| == 1
       && f.tele.end.body.stmts[0].Return? && f.tele.end.body.stmts[0].value.Some?
    then f.tele.end.body.stmts[0].value.value
    else App(m, f, es)
  }

  function NormaliseTele(t: Tele, fuel: nat): (r: Tele)
    ensures |r.args| == |t.args|
    decreases fuel, SizeTele(t), 4
  {
    if t.args == [] then
      match t.end
      case SigmaEnd => t
      case PiEnd(m, r) => Tele([], PiEnd(m, Normalise(r, fuel)))
      case AbsEnd(m, r, b) => Tele([], AbsEnd(m, Normalise(r, fuel), Body(NormaliseBody(b.stmts, fuel))))
    else
      var a, rest := t.args[0], Rest(t);
      Cons(Arg(a.qty, Normalise(a.ty, fuel), a.name), NormaliseTele(rest, fuel))
  }

  // First pass: drop unreachable statements and normalise the others. Second pass: drop what has no effect.
  function NormaliseBody(ss: seq<Stmt>, fuel: nat): seq<Stmt>
    decreases fuel, SizeStmts(ss), 4
  {
    SecondPass(NormaliseStmts(Drop(ss), fuel))
  }

  function NormaliseStmts(ss: seq<Stmt>, fuel: nat): (r: seq<Stmt>)
    ensures |r| == |ss|
    decreases fuel, SizeStmts(ss), 3
  {
    if ss == [] then [] else [NormaliseStmt(ss[0], fuel)] + NormaliseStmts(ss[1..], fuel)
  }

  function NormaliseStmt(s: Stmt, fuel: nat): Stmt
    decreases fuel, SizeStmt(s), 2
  {
    match s
    case Call(m, f, es) => var (g, vs) := NormaliseApp(f, es, fuel); Call(m, g, vs)
    case IfElse(c, t, e) =>
      IfElse(Normalise(c, fuel), Body(NormaliseBody(t.stmts, fuel)),
             match e case None => None case Some(b) => Some(Body(NormaliseBody(b.stmts, fuel))))
    case Return(e) => Return(match e case None => None case Some(r) => Some(Normalise(r, fuel)))
    case Impossible(e) => Impossible(match e case None => None case Some(r) => Some(Normalise(r, fuel)))
  }

  // What the second pass makes of its first statement: it is kept, or the statements from it on are replaced.
  datatype Step = Keep | Restart(stmts: seq<Stmt>)

  function Look(s: Stmt, rest: seq<Stmt>): (r: Step)
    ensures r.Restart? ==> SizeStmts(r.stmts) < SizeStmt(s) + SizeStmts(rest)
  {
    match s
    case Call(m, f, es) => if IsMutable(App(m, f, es)) then Keep else Restart(rest)
    case IfElse(c, t, e) =>
      SizeOfAppend(t.stmts, rest);
      if e.Some? then SizeOfAppend(e.value.stmts, rest);
        if c == Atom(BoolConst(true)) then Restart(Drop(t.stmts + rest))
        else if c == Atom(BoolConst(false)) then Restart(Drop(e.value.stmts + rest))
        else if IsMutable(c) then Keep
        else if ImpossibleRange(t.stmts) then Restart(Drop(e.value.stmts + rest))
        else if ImpossibleRange(e.value.stmts) then Restart(Drop(t.stmts + rest))
        else Keep
      else
        if c == Atom(BoolConst(true)) then Restart(Drop(t.stmts + rest))
        else if c == Atom(BoolConst(false)) then Restart(rest)
        else if IsMutable(c) then Keep
        else if ImpossibleRange(t.stmts) then Restart(rest)
        else if ImpossibleRange(rest) then Restart(Drop(t.stmts))
        else Keep
    case Return(_) => Keep
    case Impossible(_) => Keep
  }

  lemma {:induction false} SizeOfAppend(ss: seq<Stmt>, zs: seq<Stmt>)
    ensures SizeStmts(ss + zs) == SizeStmts(ss) + SizeStmts(zs)
  {
    if ss == [] {
      assert ss + zs == zs;
    } else {
      assert (ss + zs)[0] == ss[0] && (ss + zs)[1..] == ss[1..] + zs;
      SizeOfAppend(ss[1..], zs);
    }
  }

  function SecondPass(ss: seq<Stmt>): seq<Stmt>
    decreases SizeStmts(ss)
  {
    if ss == [] then []
    else match Look(ss[0], ss[1..])
         case Keep => [ss[0]] + SecondPass(ss[1..])
         case Restart(next) => SecondPass(next)
  }

  // ---- the vector operations of the source ----

  method VectorSplice<T>(v: seq<T>, pos: nat, elements: seq<T>) returns (r: seq<T>, at: nat)
    requires pos <= |v|
    ensures r == v[..pos] + elements + (if pos < |v| then v[pos + 1..] else [])
    ensures at == pos && at <= |r|
  {
    if elements == [] {
      r := if pos == |v| then v else v[..pos] + v[pos + 1..];
    } else if pos == |v| {
      r := v + elements;
    } else {
      r := v[pos := elements[0]];
      r := r[..pos + 1] + elements[1..] + r[pos + 1..];
      assert r == v[..pos] + elements + v[pos + 1..];
    }
    at := pos;
  }

  // Replaces the statement at `it` and drops whatever has become unreachable from there on.
  method ReplaceWith(body: seq<Stmt>, it: nat, stmts: seq<Stmt>) returns (r: seq<Stmt>)
    requires it < |body|
    ensures r == body[..it] + Drop(stmts + body[it + 1..])
  {
    var spliced, at := VectorSplice(body, it, stmts);
    assert spliced[at..] == stmts + body[it + 1..] && spliced[..at] == body[..it];
    var _, tail := DropUnreachable(spliced[at..]);
    r := spliced[..at] + tail;
  }

  method BetaNormalizeBody(ss: seq<Stmt>, fuel: nat) returns (body: seq<Stmt>)
    ensures body == NormaliseBody(ss, fuel)
  {
    body := FirstPass(ss, fuel);
    ghost var first := body;
    var it := 0;
    while it < |body|
      invariant it <= |body|
      invariant body[..it] + SecondPass(body[it..]) == SecondPass(first)
      decreases SizeStmts(body[it..])
    {
      assert body[it..][0] == body[it] && body[it..][1..] == body[it + 1..];
      var keep, next := Visit(body, it);
      if keep {
        assert body[..it + 1] == body[..it] + [body[it]];
        it := it + 1;
      } else {
        assert next[..it] == body[..it];
        body := next;
      }
    }
    assert body[..it] == body && body[it..] == [];
  }

  method FirstPass(ss: seq<Stmt>, fuel: nat) returns (body: seq<Stmt>)
    ensures body == NormaliseStmts(Drop(ss), fuel)
  {
    var _, reachable := DropUnreachable(ss);
    body := reachable;
    for i := 0 to |body|
      invariant |body| == |reachable|
      invariant forall j :: 0 <= j < |body| ==> body[j] == if j < i then NormaliseStmt(reachable[j], fuel)
                else reachable[j]
    {
      body := body[i := NormaliseStmt(body[i], fuel)];
    }
    NormalisePointwise(reachable, body, fuel);
  }

  lemma {:induction false} NormalisePointwise(ss: seq<Stmt>, r: seq<Stmt>, fuel: nat)
    requires |ss| == |r| && forall i :: 0 <= i < |ss| ==> r[i] == NormaliseStmt(ss[i], fuel)
    ensures r == NormaliseStmts(ss, fuel)
  {
    if ss != [] { NormalisePointwise(ss[1..], r[1..], fuel); }
  }

  // One iteration of the second pass: keep the statement at `it`, or the body that replaces this one.
  method Visit(body: seq<Stmt>, it: nat) returns (keep: bool, next: seq<Stmt>)
    requires it < |body|
    ensures var step := Look(body[it], body[it + 1..]);
            if keep then step.Keep? else
              step.Restart? && |next| >= it && next[..it] == body[..it]
              && next[it..] == step.stmts
  {
    keep, next := false, body[..it] + body[it + 1..];
    match body[it]
    case Call(m, f, es) => keep := IsMutable(App(m, f, es));
    case IfElse(c, t, e) =>
      if c.Atom? && c.atom.BoolConst? {
        if c.atom.b {
          next := ReplaceWith(body, it, t.stmts);
        } else if e.Some? {
          next := ReplaceWith(body, it, e.value.stmts);
        }
      } else if IsMutable(c) {
        keep := true;
      } else if ImpossibleRange(t.stmts) {
        if e.Some? { next := ReplaceWith(body, it, e.value.stmts); }
      } else if e.Some? && ImpossibleRange(e.value.stmts) {
        next := ReplaceWith(body, it, t.stmts);
      } else if e.None? && ImpossibleRange(body[it + 1..]) {
        next := ReplaceWith(body[..it + 1], it, t.stmts);
        assert t.stmts + body[..it + 1][it + 1..] == t.stmts;
      } else {
        keep := true;
      }
    case Return(_) => keep := true;
    case Impossible(_) => keep := true;
  }
}
