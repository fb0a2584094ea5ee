/** Binders of the syntax tree: occurrences, rename indices, renaming and capture-avoiding substitution. */
module Binders {
  import opened Ast

  // ---- occurrences ----

  // `anywhere` also counts binding occurrences and occurrences below a binder of the same name.
  predicate OccursIn(v: Var, e: Expr, anywhere: bool)
    decreases Size(e), 0
  {
    match e
    case Atom(_) => false
    case VarE(u) => u == v
    case Node(_, es) => OccursInSeq(v, es, anywhere)
    case App(_, f, es) => OccursInSeq(v, es, anywhere) || OccursIn(v, f, anywhere)
    case Because(x, r) => OccursIn(v, x, anywhere) || OccursIn(v, r, anywhere)
    case Bind(t) => OccursInTele(v, t, anywhere)
  }

  predicate OccursInSeq(v: Var, es: seq<Expr>, anywhere: bool)
    decreases SizeSeq(es), 1
  {
    es != [] && (OccursIn(v, es[0], anywhere) || OccursInSeq(v, es[1..], anywhere))
  }

  predicate OccursInTele(v: Var, t: Tele, anywhere: bool)
    decreases SizeTele(t), 1
  {
    if t.args == [] then
      match t.end
      case SigmaEnd => false
      case PiEnd(_, r) => OccursIn(v, r, anywhere)
      case AbsEnd(_, r, b) => OccursIn(v, r, anywhere) || OccursInStmts(v, b.stmts, anywhere)
    else
      var a, rest := t.args[0], Rest(t);
      || OccursIn(v, a.ty, anywhere)
      || (if a.name == Some(v) then anywhere else OccursInTele(v, rest, anywhere))
  }

  predicate OccursInStmts(v: Var, ss: seq<Stmt>, anywhere: bool)
    decreases SizeStmts(ss), 1
  {
    ss != [] && (OccursInStmt(v, ss[0], anywhere) || OccursInStmts(v, ss[1..], anywhere))
  }

  predicate OccursInStmt(v: Var, s: Stmt, anywhere: bool)
    decreases SizeStmt(s), 0
  {
    match s
    case Call(_, f, es) => OccursInSeq(v, es, anywhere) || OccursIn(v, f, anywhere)
    case IfElse(c, t, e) =>
      || OccursIn(v, c, anywhere)
      || OccursInStmts(v, t.stmts, anywhere)
      || (e.Some? && OccursInStmts(v, e.value.stmts, anywhere))
    case Return(e) => e.Some? && OccursIn(v, e.value, anywhere)
    case Impossible(e) => e.Some? && OccursIn(v, e.value, anywhere)
  }

  // ---- the largest rename index ----

  function MaxIndex(e: Expr): nat
    decreases Size(e), 0
  {
    match e
    case Atom(_) => 0
    case VarE(v) => v.idx
    case Node(_, es) => MaxIndexSeq(es)
    case App(_, f, es) => Max(MaxIndex(f), MaxIndexSeq(es))
    case Because(x, r) => Max(MaxIndex(x), MaxIndex(r))
    case Bind(t) => MaxIndexTele(t)
  }

  function MaxIndexSeq(es: seq<Expr>): nat
    decreases SizeSeq(es), 1
  {
    if es == [] then 0 else Max(MaxIndex(es[0]), MaxIndexSeq(es[1..]))
  }

  function MaxIndexTele(t: Tele): nat
    decreases SizeTele(t), 1
  {
    if t.args == [] then
      match t.end
      case SigmaEnd => 0
      case PiEnd(_, r) => MaxIndex(r)
      case AbsEnd(_, r, b) => Max(MaxIndex(r), MaxIndexStmts(b.stmts))
    else
      var a, rest := t.args[0], Rest(t);
      Max(Max(MaxIndex(a.ty), if a.name.Some? then a.name.value.idx else 0), MaxIndexTele(rest))
  }

  function MaxIndexStmts(ss: seq<Stmt>): nat
    decreases SizeStmts(ss), 1
  {
    if ss == [] then 0 else Max(MaxIndexStmt(ss[0]), MaxIndexStmts(ss[1..]))
  }

  function MaxIndexStmt(s: Stmt): nat
    decreases SizeStmt(s), 0
  {
    match s
    case Call(_, f, es) => Max(MaxIndex(f), MaxIndexSeq(es))
    case IfElse(c, t, e) =>
      Max(MaxIndex(c), Max(MaxIndexStmts(t.stmts), if e.Some? then MaxIndexStmts(e.value.stmts) else 0))
    case Return(e) => if e.Some? then MaxIndex(e.value) else 0
    case Impossible(e) => if e.Some? then MaxIndex(e.value) else 0
  }

  // ---- replacement of every occurrence, binders included ----

  function ReplaceVar(from: Var, to: Var, v: Var): Var {
    if v == from then to else v
  }

  function ReplaceName(from: Var, to: Var, name: Option<Var>): Option<Var> {
    if name == Some(from) then Some(to) else name
  }

  function Replace(from: Var, to: Var, e: Expr): (r: Expr)
    ensures Size(r) == Size(e)
    decreases Size(e), 0
  {
    match e
    case Atom(_) => e
    case VarE(v) => VarE(ReplaceVar(from, to, v))
    case Node(op, es) => Node(op, ReplaceSeq(from, to, es))
    case App(m, f, es) => App(m, Replace(from, to, f), ReplaceSeq(from, to, es))
    case Because(v, r) => Because(Replace(from, to, v), Replace(from, to, r))
    case Bind(t) => Bind(ReplaceTele(from, to, t))
  }

  function ReplaceSeq(from: Var, to: Var, es: seq<Expr>): (r: seq<Expr>)
    ensures |r| == |es| && SizeSeq(r) == SizeSeq(es)
    decreases SizeSeq(es), 1
  {
    if es == [] then [] else [Replace(from, to, es[0])] + ReplaceSeq(from, to, es[1..])
  }

  function ReplaceTele(from: Var, to: Var, t: Tele): (r: Tele)
    ensures |r.args| == |t.args| && SizeTele(r) == SizeTele(t)
    decreases SizeTele(t), 1
  {
    if t.args == [] then
      match t.end
      case SigmaEnd => t
      case PiEnd(m, r) => Tele([], PiEnd(m, Replace(from, to, r)))
      case AbsEnd(m, r, b) => Tele([], AbsEnd(m, Replace(from, to, r), Body(ReplaceStmts(from, to, b.stmts))))
    else
      var a, rest := t.args[0], Rest(t);
      Cons(Arg(a.qty, Replace(from, to, a.ty), ReplaceName(from, to, a.name)), ReplaceTele(from, to, rest))
  }

  function ReplaceStmts(from: Var, to: Var, ss: seq<Stmt>): (r: seq<Stmt>)
    ensures |r| == |ss| && SizeStmts(r) == SizeStmts(ss)
    decreases SizeStmts(ss), 1
  {
    if ss == [] then [] else [ReplaceStmt(from, to, ss[0])] + ReplaceStmts(from, to, ss[1..])
  }

  function ReplaceStmt(from: Var, to: Var, s: Stmt): (r: Stmt)
    ensures SizeStmt(r) == SizeStmt(s)
    decreases SizeStmt(s), 0
  {
    match s
    case Call(m, f, es) => Call(m, Replace(from, to, f), ReplaceSeq(from, to, es))
    case IfElse(c, t, e) =>
      IfElse(Replace(from, to, c), Body(ReplaceStmts(from, to, t.stmts)),
             match e case None => None case Some(b) => Some(Body(ReplaceStmts(from, to, b.stmts))))
    case Return(e) => Return(match e case None => None case Some(x) => Some(Replace(from, to, x)))
    case Impossible(e) => Impossible(match e case None => None case Some(x) => Some(Replace(from, to, x)))
  }

  // The name `rename` gives to a binder of `rest`: its index is above every index in `rest`, and only there.
  function FreshVar(v: Var, rest: Tele): Var {
    Var(v.name, 1 + Max(v.idx, MaxIndexTele(rest)), v.shadowId)
  }

  // ---- substitution ----

  function Subst(x: Var, y: Expr, e: Expr): Expr
    decreases Size(e), 0
  {
    match e
    case Atom(_) => e
    case VarE(v) => if v == x then y else e
    case Node(op, es) => Node(op, SubstSeq(x, y, es))
    case App(m, f, es) => App(m, Subst(x, y, f), SubstSeq(x, y, es))
    case Because(v, r) => Because(Subst(x, y, v), Subst(x, y, r))
    case Bind(t) => Bind(SubstTele(x, y, t))
  }

  function SubstSeq(x: Var, y: Expr, es: seq<Expr>): (r: seq<Expr>)
    ensures |r| == |es|
    decreases SizeSeq(es), 1
  {
    if es == [] then [] else [Subst(x, y, es[0])] + SubstSeq(x, y, es[1..])
  }

  // Stops below a binder of the same name; any other binder that occurs in `y`, even bound, is renamed first.
  function SubstTele(x: Var, y: Expr, t: Tele): (r: Tele)
    ensures |r.args| == |t.args|
    decreases SizeTele(t), 1
  {
    if t.args == [] then
      match t.end
      case SigmaEnd => t
      case PiEnd(m, r) => Tele([], PiEnd(m, Subst(x, y, r)))
      case AbsEnd(m, r, b) => Tele([], AbsEnd(m, Subst(x, y, r), Body(SubstStmts(x, y, b.stmts))))
    else
      var a, rest := t.args[0], Rest(t);
      var ty := Subst(x, y, a.ty);
      if a.name == Some(x) then
        Cons(Arg(a.qty, ty, a.name), rest)
      else if a.name.Some? && OccursIn(a.name.value, y, true) then
        var v := FreshVar(a.name.value, rest);
        Cons(Arg(a.qty, ty, Some(v)), SubstTele(x, y, ReplaceTele(a.name.value, v, rest)))
      else
        Cons(Arg(a.qty, ty, a.name), SubstTele(x, y, rest))
  }

  function SubstStmts(x: Var, y: Expr, ss: seq<Stmt>): (r: seq<Stmt>)
    ensures |r| == |ss|
    decreases SizeStmts(ss), 1
  {
    if ss == [] then [] else [SubstStmt(x, y, ss[0])] + SubstStmts(x, y, ss[1..])
  }

  function SubstStmt(x: Var, y: Expr, s: Stmt): Stmt
    decreases SizeStmt(s), 0
  {
    match s
    case Call(m, f, es) => Call(m, Subst(x, y, f), SubstSeq(x, y, es))
    case IfElse(c, t, e) =>
      IfElse(Subst(x, y, c), Body(SubstStmts(x, y, t.stmts)),
             match e case None => None case Some(b) => Some(Body(SubstStmts(x, y, b.stmts))))
    case Return(e) => Return(match e case None => None case Some(r) => Some(Subst(x, y, r)))
    case Impossible(e) => Impossible(match e case None => None case Some(r) => Some(Subst(x, y, r)))
  }

  // ---- the same telescope operations as the loops of the source, which edit the argument vector in place ----

  function Prepend(done: seq<Arg>, t: Tele): Tele {
    Tele(done + t.args, t.end)
  }

  lemma PrependCons(done: seq<Arg>, a: Arg, t: Tele)
    ensures Prepend(done, Cons(a, t)) == Prepend(done + [a], t)
  {
  }

  method ReplaceInTelescope(from: Var, to: Var, t: Tele) returns (r: Tele)
    ensures r == ReplaceTele(from, to, t)
  {
    var args := t.args;
    var i := 0;
    while i < |args|
      invariant 0 <= i <= |args|
      invariant Prepend(args[..i], ReplaceTele(from, to, Tele(args[i..], t.end))) == ReplaceTele(from, to, t)
    {
      var arg := args[i];
      ghost var rest := Rest(Tele(args[i..], t.end));
      arg := arg.(ty := Replace(from, to, arg.ty));
      if arg.name == Some(from) {
        arg := arg.(name := Some(to));
      }
      PrependCons(args[..i], arg, ReplaceTele(from, to, rest));
      ghost var before := args;
      args := args[i := arg];
      assert args[..i + 1] == before[..i] + [arg] && args[i + 1..] == before[i..][1..];
      i := i + 1;
    }
    assert args[i..] == [];
    r := ReplaceTele(from, to, Tele([], t.end));
    r := Tele(args, r.end);
  }

  method Rename(v: Var, rest: Tele) returns (chosen: Var, renamed: Tele)
    ensures chosen == FreshVar(v, rest) && renamed == ReplaceTele(v, chosen, rest)
  {
    chosen := Var(v.name, 1 + Max(v.idx, MaxIndexTele(rest)), v.shadowId);
    renamed := ReplaceInTelescope(v, chosen, rest);
  }

  method SubstituteInTelescope(x: Var, y: Expr, t: Tele) returns (r: Tele)
    ensures r == SubstTele(x, y, t)
  {
    var args, end := t.args, t.end;
    var i := 0;
    while i < |args|
      invariant 0 <= i <= |args|
      invariant Prepend(args[..i], SubstTele(x, y, Tele(args[i..], end))) == SubstTele(x, y, t)
      decreases |args| - i
    {
      var arg, rest := args[i], Tele(args[i + 1..], end);
      assert rest == Rest(Tele(args[i..], end));
      arg := arg.(ty := Subst(x, y, arg.ty));
      if arg.name == Some(x) {
        // a binder of the same name: whatever follows refers to it
        PrependCons(args[..i], arg, rest);
        return Prepend(args[..i] + [arg], rest);
      }
      if arg.name.Some? && OccursIn(arg.name.value, y, true) {
        var v;
        v, rest := Rename(arg.name.value, rest);
        arg := arg.(name := Some(v));
      }
      PrependCons(args[..i], arg, SubstTele(x, y, rest));
      var done := args[..i] + [arg];
      args, end := done + rest.args, rest.end;
      assert args[..i + 1] == done && args[i + 1..] == rest.args;
      i := i + 1;
    }
    assert args[i..] == [];
    r := SubstTele(x, y, Tele([], end));
    r := Tele(args, r.end);
  }
}
