/** A big-step semantics of expressions and statements, over any interpretation of the primitives.

    Values of free variables never change during a run; what can be observed is the value returned and the sequence of
    calls to mutable functions. Reasons are erased, an abstraction runs only as the function of an application. A type
    with binders means whatever an interpretation makes of the family of its parts. */
module Semantics {
  import opened Ast

  datatype Value = VBool(b: bool) | VUnit | VOther(id: int)

  datatype Event = Event(callee: Value, args: seq<Value>)
  type Trace = seq<Event>

  type Env = map<Var, Value>

  // What a term binds: how many arguments, and what for.
  datatype Shape = SigmaOf(arity: nat) | PiOf(arity: nat, isMutable: bool) | AbsOf(arity: nat, isMutable: bool)

  // The values of the types in a telescope, for each choice of values for its arguments.
  type Family = imap<seq<Value>, seq<Value>>

  datatype Interp = Interp(
    atom: AtomKind -> Value,
    free: Var -> Value,
    binder: (Shape, Family) -> Value,
    prim: (Op, seq<Value>) -> Value,
    call: (Value, seq<Value>) -> Value,
    effect: (Trace, Value, seq<Value>) -> Value)

  datatype Res = Res(v: Value, tr: Trace)
  datatype ResSeq = ResSeq(vs: seq<Value>, tr: Trace)

  datatype Outcome = Fell | Returned(v: Value) | Absurd
  datatype Run = Run(out: Outcome, tr: Trace)

  predicate IsAbs(e: Expr) {
    e.Bind? && e.tele.end.AbsEnd?
  }

  function Extend(name: Option<Var>, v: Value, env: Env): Env {
    if name.Some? then env[name.value := v] else env
  }

  function Lookup(I: Interp, v: Var, env: Env): Value {
    if v in env then env[v] else I.free(v)
  }

  function ValueOf(o: Outcome): Value {
    if o.Returned? then o.v else VUnit
  }

  ghost function Eval(I: Interp, e: Expr, env: Env, tr: Trace): Res
    decreases Size(e), 0
  {
    match e
    case Atom(BoolConst(b)) => Res(VBool(b), tr)
    case Atom(a) => Res(I.atom(a), tr)
    case VarE(v) => Res(Lookup(I, v, env), tr)
    case Node(op, es) =>
      if op.ScopeOf? then Res(I.prim(op, []), tr)  // taking a scope does not evaluate anything
      else var r := EvalSeq(I, es, env, tr); Res(I.prim(op, r.vs), r.tr)
    case App(m, f, es) =>
      if IsAbs(f) then
        assert Size(f) == 1 + SizeTele(f.tele);
        var r := EvalSeq(I, es, env, tr);
        var run := RunTele(I, f.tele, r.vs, env, r.tr);
        Res(ValueOf(run.out), run.tr)
      else
        var g := Eval(I, f, env, tr);
        var r := EvalSeq(I, es, env, g.tr);
        if m then Res(I.effect(r.tr, g.v, r.vs), r.tr + [Event(g.v, r.vs)])
        else Res(I.call(g.v, r.vs), r.tr)
    case Because(v, _) => Eval(I, v, env, tr)
    case Bind(t) => Res(I.binder(ShapeOf(t), FamilyOf(I, t, env)), tr)
  }

  function ShapeOf(t: Tele): Shape {
    match t.end
    case SigmaEnd => SigmaOf(|t.args|)
    case PiEnd(m, _) => PiOf(|t.args|, m)
    case AbsEnd(m, _, _) => AbsOf(|t.args|, m)
  }

  ghost function FamilyOf(I: Interp, t: Tele, env: Env): Family
    decreases SizeTele(t), 3
  {
    imap vs: seq<Value> :: TypesOf(I, t, vs, env)
  }

  // The types of the arguments and of the result; of an abstraction, not the body.
  ghost function TypesOf(I: Interp, t: Tele, vs: seq<Value>, env: Env): seq<Value>
    decreases SizeTele(t), 2
  {
    if t.args == [] then
      match t.end
      case SigmaEnd => []
      case PiEnd(_, r) => [Eval(I, r, env, []).v]
      case AbsEnd(_, r, _) => [Eval(I, r, env, []).v]
    else
      var a, rest := t.args[0], Rest(t);
      [Eval(I, a.ty, env, []).v] + TypesOf(I, rest, Others(vs), Extend(a.name, First(vs), env))
  }

  lemma SameFamily(I: Interp, t: Tele, env: Env, u: Tele, fnv: Env)
    requires forall vs :: TypesOf(I, t, vs, env) == TypesOf(I, u, vs, fnv)
    ensures FamilyOf(I, t, env) == FamilyOf(I, u, fnv)
  {
  }

  ghost function EvalSeq(I: Interp, es: seq<Expr>, env: Env, tr: Trace): (r: ResSeq)
    ensures |r.vs| == |es|
    decreases SizeSeq(es), 1
  {
    if es == [] then ResSeq([], tr)
    else
      var h := Eval(I, es[0], env, tr);
      var t := EvalSeq(I, es[1..], env, h.tr);
      ResSeq([h.v] + t.vs, t.tr)
  }

  function First(vs: seq<Value>): Value {
    if vs == [] then VUnit else vs[0]
  }

  function Others(vs: seq<Value>): seq<Value> {
    if vs == [] then [] else vs[1..]
  }

  // Binds the arguments one by one, later names hiding earlier ones, then runs the body.
  ghost function RunTele(I: Interp, t: Tele, vs: seq<Value>, env: Env, tr: Trace): Run
    decreases SizeTele(t), 2
  {
    if t.args == [] then
      match t.end
      case AbsEnd(_, _, b) =>
        assert SizeTele(t) > SizeStmts(b.stmts);
        Exec(I, b.stmts, env, tr)
      case _ => Run(Fell, tr)
    else
      var rest := Rest(t);
      RunTele(I, rest, Others(vs), Extend(t.args[0].name, First(vs), env), tr)
  }

  ghost function Exec(I: Interp, ss: seq<Stmt>, env: Env, tr: Trace): Run
    decreases SizeStmts(ss), 2
  {
    if ss == [] then Run(Fell, tr)
    else
      var r := ExecStmt(I, ss[0], env, tr);
      if r.out.Fell? then Exec(I, ss[1..], env, r.tr) else r
  }

  ghost function ExecStmt(I: Interp, s: Stmt, env: Env, tr: Trace): Run
    decreases SizeStmt(s), 1
  {
    match s
    case Call(m, f, es) => Run(Fell, Eval(I, App(m, f, es), env, tr).tr)
    case IfElse(c, t, e) =>
      var r := Eval(I, c, env, tr);
      if r.v == VBool(true) then Exec(I, t.stmts, env, r.tr)
      else if e.Some? then Exec(I, e.value.stmts, env, r.tr)
      else Run(Fell, r.tr)
    case Return(e) =>
      if e.Some? then var r := Eval(I, e.value, env, tr); Run(Returned(r.v), r.tr) else Run(Returned(VUnit), tr)
    case Impossible(_) => Run(Absurd, tr)
  }

  // ---- mutability ----

  predicate IsMutable(e: Expr)
    decreases Size(e), 0
  {
    match e
    case Atom(_) => false
    case VarE(_) => false
    case Node(op, es) => !op.ScopeOf? && AnyMutable(es)
    case App(m, _, es) => m || AnyMutable(es)
    case Because(v, _) => IsMutable(v)
    case Bind(_) => false
  }

  predicate AnyMutable(es: seq<Expr>)
    decreases SizeSeq(es), 1
  {
    es != [] && (IsMutable(es[0]) || AnyMutable(es[1..]))
  }

  // Nothing that runs in the statements is a call to a mutable function.
  predicate Quiet(ss: seq<Stmt>)
    decreases SizeStmts(ss), 1
  {
    ss != [] ==> QuietStmt(ss[0]) && Quiet(ss[1..])
  }

  predicate QuietStmt(s: Stmt)
    decreases SizeStmt(s), 0
  {
    match s
    case Call(m, f, es) => !IsMutable(App(m, f, es))
    case IfElse(c, t, e) => !IsMutable(c) && Quiet(t.stmts) && (e.Some? ==> Quiet(e.value.stmts))
    case Return(e) => e.Some? ==> !IsMutable(e.value)
    case Impossible(_) => true
  }

  // What type-checking guarantees, of reasons too: types are immutable, an abstraction is applied to as many arguments
  // as it has, and an immutable one has a quiet body. On top of that, the terms are first-order (abstractions are
  // applied on the spot, never passed around) and what stands in function position is immutable.
  predicate Legal(e: Expr)
    decreases Size(e), 0
  {
    match e
    case Atom(_) => true
    case VarE(_) => true
    case Node(_, es) => LegalSeq(es)
    case App(m, f, es) =>
      && LegalSeq(es) && Legal(f) && !IsMutable(f)
      && (IsAbs(f) ==> |f.tele.args| == |es|)
      && (IsAbs(f) && !m ==> Quiet(f.tele.end.body.stmts))
    case Because(v, r) => Legal(v) && !IsAbs(v) && Legal(r)
    case Bind(t) => LegalTele(t)
  }

  predicate LegalSeq(es: seq<Expr>)
    decreases SizeSeq(es), 1
  {
    es != [] ==> Legal(es[0]) && !IsAbs(es[0]) && LegalSeq(es[1..])
  }

  predicate LegalTele(t: Tele)
    decreases SizeTele(t), 1
  {
    if t.args == [] then
      match t.end
      case SigmaEnd => true
      case PiEnd(_, r) => Legal(r) && !IsAbs(r) && !IsMutable(r)
      case AbsEnd(_, r, b) => Legal(r) && !IsAbs(r) && !IsMutable(r) && LegalStmts(b.stmts)
    else
      var a, rest := t.args[0], Rest(t);
      Legal(a.ty) && !IsAbs(a.ty) && !IsMutable(a.ty) && LegalTele(rest)
  }

  predicate LegalStmts(ss: seq<Stmt>)
    decreases SizeStmts(ss), 2
  {
    ss != [] ==> LegalStmt(ss[0]) && LegalStmts(ss[1..])
  }

  predicate LegalStmt(s: Stmt)
    decreases SizeStmt(s), 1
  {
    match s
    case Call(m, f, es) => Legal(App(m, f, es))
    case IfElse(c, t, e) =>
      && Legal(c) && !IsAbs(c)
      && LegalStmts(t.stmts)
      && (e.Some? ==> LegalStmts(e.value.stmts))
    case Return(e) => e.Some? ==> Legal(e.value) && !IsAbs(e.value)
    case Impossible(e) => e.Some? ==> Legal(e.value)
  }

  // The value of an immutable expression.
  ghost function Pure(I: Interp, e: Expr, env: Env): Value {
    Eval(I, e, env, []).v
  }

  ghost function PureSeq(I: Interp, es: seq<Expr>, env: Env): (vs: seq<Value>)
    ensures |vs| == |es|
  {
    EvalSeq(I, es, env, []).vs
  }

  ghost predicate Holds(I: Interp, c: Expr, env: Env) {
    Pure(I, c, env) == VBool(true)
  }

  // An immutable expression makes no calls and its value does not depend on the calls made before.
  lemma {:induction false} ImmutableIsPure(I: Interp, e: Expr, env: Env, tr: Trace)
    requires Legal(e) && !IsMutable(e)
    ensures Eval(I, e, env, tr) == Res(Pure(I, e, env), tr)
    decreases Size(e), 0
  {
    match e
    case Atom(_) =>
    case VarE(_) =>
    case Node(op, es) =>
      if !op.ScopeOf? {
        ImmutableIsPureSeq(I, es, env, tr);
        ImmutableIsPureSeq(I, es, env, []);
      }
    case App(_, f, es) =>
      ImmutableIsPureSeq(I, es, env, tr);
      ImmutableIsPureSeq(I, es, env, []);
      if IsAbs(f) {
        assert Size(f) == 1 + SizeTele(f.tele);
        QuietRunTele(I, f.tele, PureSeq(I, es, env), env, tr);
        QuietRunTele(I, f.tele, PureSeq(I, es, env), env, []);
      } else {
        ImmutableIsPure(I, f, env, tr);
        ImmutableIsPure(I, f, env, []);
      }
    case Because(v, _) => ImmutableIsPure(I, v, env, tr);
    case Bind(_) =>
  }

  lemma {:induction false} ImmutableIsPureSeq(I: Interp, es: seq<Expr>, env: Env, tr: Trace)
    requires LegalSeq(es) && !AnyMutable(es)
    ensures EvalSeq(I, es, env, tr) == ResSeq(PureSeq(I, es, env), tr)
    decreases SizeSeq(es), 1
  {
    if es != [] {
      ImmutableIsPure(I, es[0], env, tr);
      ImmutableIsPure(I, es[0], env, []);
      ImmutableIsPureSeq(I, es[1..], env, tr);
      ImmutableIsPureSeq(I, es[1..], env, []);
    }
  }

  lemma {:induction false} QuietRunTele(I: Interp, t: Tele, vs: seq<Value>, env: Env, tr: Trace)
    requires LegalTele(t) && (t.end.AbsEnd? ==> Quiet(t.end.body.stmts))
    ensures RunTele(I, t, vs, env, tr) == Run(RunTele(I, t, vs, env, []).out, tr)
    decreases SizeTele(t), 2
  {
    if t.args != [] {
      QuietRunTele(I, Rest(t), Others(vs), Extend(t.args[0].name, First(vs), env), tr);
    } else if t.end.AbsEnd? {
      LegalEnd(t);
      assert SizeTele(t) > SizeStmts(t.end.body.stmts);
      QuietExec(I, t.end.body.stmts, env, tr);
    }
  }

  lemma {:induction false} LegalEnd(t: Tele)
    requires LegalTele(t)
    ensures t.end.AbsEnd? ==> LegalStmts(t.end.body.stmts)
    decreases |t.args|
  {
    if t.args != [] { LegalEnd(Rest(t)); }
  }

  lemma {:induction false} QuietExec(I: Interp, ss: seq<Stmt>, env: Env, tr: Trace)
    requires LegalStmts(ss) && Quiet(ss)
    ensures Exec(I, ss, env, tr) == Run(Exec(I, ss, env, []).out, tr)
    decreases SizeStmts(ss), 2
  {
    if ss != [] {
      QuietExecStmt(I, ss[0], env, tr);
      QuietExecStmt(I, ss[0], env, []);
      QuietExec(I, ss[1..], env, tr);
    }
  }

  lemma {:induction false} QuietExecStmt(I: Interp, s: Stmt, env: Env, tr: Trace)
    requires LegalStmt(s) && QuietStmt(s)
    ensures ExecStmt(I, s, env, tr) == Run(ExecStmt(I, s, env, []).out, tr)
    decreases SizeStmt(s), 1
  {
    match s
    case Call(m, f, es) => ImmutableIsPure(I, App(m, f, es), env, tr);
    case IfElse(c, t, e) =>
      ImmutableIsPure(I, c, env, tr);
      ImmutableIsPure(I, c, env, []);
      QuietExec(I, t.stmts, env, tr);
      if e.Some? { QuietExec(I, e.value.stmts, env, tr); }
    case Return(e) => if e.Some? { ImmutableIsPure(I, e.value, env, tr); }
    case Impossible(_) =>
  }
}
