/** Locally nameless terms: the reference meaning of binding. A variable that is bound counts the binders between
    its use and its binder, a variable that is free keeps its name; argument names are gone. */
module Nameless {
  import opened Ast
  import opened Binders

  datatype NExpr =
    | NAtom(atom: AtomKind)
    | NFree(v: Var)
    | NBound(i: nat)
    | NNode(op: Op, operands: seq<NExpr>)
    | NApp(isMutable: bool, func: NExpr, args: seq<NExpr>)
    | NBecause(value: NExpr, reason: NExpr)
    | NBind(tele: NTele)

  datatype NTele =
    | NArg(qty: Qty, ty: NExpr, rest: NTele)
    | NSigmaEnd
    | NPiEnd(isMutable: bool, ret: NExpr)
    | NAbsEnd(isMutable: bool, ret: NExpr, body: NBody)

  datatype NBody = NBody(stmts: seq<NStmt>)
  datatype NStmt =
    | NCall(isMutable: bool, func: NExpr, args: seq<NExpr>)
    | NIfElse(cond: NExpr, thenB: NBody, elseB: Option<NBody>)
    | NReturn(value: Option<NExpr>)
    | NImpossible(reason: Option<NExpr>)

  // The binders in scope, innermost first; an anonymous argument binds nothing but still counts.
  type Scope = seq<Option<Var>>

  function Find(sc: Scope, v: Var): Option<nat> {
    if sc == [] then None
    else if sc[0] == Some(v) then Some(0)
    else match Find(sc[1..], v) case None => None case Some(i) => Some(i + 1)
  }

  function Push(name: Option<Var>, sc: Scope): (r: Scope)
    ensures forall u :: Find(r, u) ==
                        if name == Some(u) then Some(0)
                        else match Find(sc, u) case None => None case Some(i) => Some(i + 1)
  {
    [name] + sc
  }

  function ToNameless(e: Expr, sc: Scope): NExpr
    decreases Size(e), 0
  {
    match e
    case Atom(a) => NAtom(a)
    case VarE(v) => (match Find(sc, v) case None => NFree(v) case Some(i) => NBound(i))
    case Node(op, es) => NNode(op, ToNamelessSeq(es, sc))
    case App(m, f, es) => NApp(m, ToNameless(f, sc), ToNamelessSeq(es, sc))
    case Because(v, r) => NBecause(ToNameless(v, sc), ToNameless(r, sc))
    case Bind(t) => NBind(ToNamelessTele(t, sc))
  }

  function ToNamelessSeq(es: seq<Expr>, sc: Scope): (r: seq<NExpr>)
    ensures |r| == |es|
    decreases SizeSeq(es), 1
  {
    if es == [] then [] else [ToNameless(es[0], sc)] + ToNamelessSeq(es[1..], sc)
  }

  function ToNamelessTele(t: Tele, sc: Scope): NTele
    decreases SizeTele(t), 1
  {
    if t.args == [] then
      match t.end
      case SigmaEnd => NSigmaEnd
      case PiEnd(m, r) => NPiEnd(m, ToNameless(r, sc))
      case AbsEnd(m, r, b) => NAbsEnd(m, ToNameless(r, sc), NBody(ToNamelessStmts(b.stmts, sc)))
    else
      var a, rest := t.args[0], Rest(t);
      NArg(a.qty, ToNameless(a.ty, sc), ToNamelessTele(rest, Push(a.name, sc)))
  }

  function ToNamelessStmts(ss: seq<Stmt>, sc: Scope): (r: seq<NStmt>)
    ensures |r| == |ss|
    decreases SizeStmts(ss), 1
  {
    if ss == [] then [] else [ToNamelessStmt(ss[0], sc)] + ToNamelessStmts(ss[1..], sc)
  }

  function ToNamelessStmt(s: Stmt, sc: Scope): NStmt
    decreases SizeStmt(s), 0
  {
    match s
    case Call(m, f, es) => NCall(m, ToNameless(f, sc), ToNamelessSeq(es, sc))
    case IfElse(c, t, e) =>
      NIfElse(ToNameless(c, sc), NBody(ToNamelessStmts(t.stmts, sc)),
              match e case None => None case Some(b) => Some(NBody(ToNamelessStmts(b.stmts, sc))))
    case Return(e) => NReturn(match e case None => None case Some(r) => Some(ToNameless(r, sc)))
    case Impossible(e) => NImpossible(match e case None => None case Some(r) => Some(ToNameless(r, sc)))
  }

  // ---- free variables of nameless terms, and substitution without capture ----

  predicate NOccurs(v: Var, e: NExpr)
    decreases e, 1
  {
    match e
    case NAtom(_) => false
    case NFree(u) => u == v
    case NBound(_) => false
    case NNode(_, es) => NOccursSeq(v, es)
    case NApp(_, f, es) => NOccurs(v, f) || NOccursSeq(v, es)
    case NBecause(x, r) => NOccurs(v, x) || NOccurs(v, r)
    case NBind(t) => NOccursTele(v, t)
  }

  predicate NOccursSeq(v: Var, es: seq<NExpr>)
    decreases es, 0
  {
    es != [] && (NOccurs(v, es[0]) || NOccursSeq(v, es[1..]))
  }

  predicate NOccursTele(v: Var, t: NTele)
    decreases t, 1
  {
    match t
    case NArg(_, ty, rest) => NOccurs(v, ty) || NOccursTele(v, rest)
    case NSigmaEnd => false
    case NPiEnd(_, r) => NOccurs(v, r)
    case NAbsEnd(_, r, b) => NOccurs(v, r) || NOccursStmts(v, b.stmts)
  }

  predicate NOccursStmts(v: Var, ss: seq<NStmt>)
    decreases ss, 0
  {
    ss != [] && (NOccursStmt(v, ss[0]) || NOccursStmts(v, ss[1..]))
  }

  predicate NOccursStmt(v: Var, s: NStmt)
    decreases s, 1
  {
    match s
    case NCall(_, f, es) => NOccurs(v, f) || NOccursSeq(v, es)
    case NIfElse(c, t, e) =>
      || NOccurs(v, c)
      || NOccursStmts(v, t.stmts)
      || (e.Some? && NOccursStmts(v, e.value.stmts))
    case NReturn(e) => e.Some? && NOccurs(v, e.value)
    case NImpossible(e) => e.Some? && NOccurs(v, e.value)
  }

  // `u` has no dangling bound variable, so it is put in place unchanged at any depth.
  function NSubst(x: Var, u: NExpr, e: NExpr): NExpr
    decreases e, 1
  {
    match e
    case NAtom(_) => e
    case NFree(v) => if v == x then u else e
    case NBound(_) => e
    case NNode(op, es) => NNode(op, NSubstSeq(x, u, es))
    case NApp(m, f, es) => NApp(m, NSubst(x, u, f), NSubstSeq(x, u, es))
    case NBecause(v, r) => NBecause(NSubst(x, u, v), NSubst(x, u, r))
    case NBind(t) => NBind(NSubstTele(x, u, t))
  }

  function NSubstSeq(x: Var, u: NExpr, es: seq<NExpr>): (r: seq<NExpr>)
    ensures |r| == |es|
    decreases es, 0
  {
    if es == [] then [] else [NSubst(x, u, es[0])] + NSubstSeq(x, u, es[1..])
  }

  function NSubstTele(x: Var, u: NExpr, t: NTele): NTele
    decreases t, 1
  {
    match t
    case NArg(q, ty, rest) => NArg(q, NSubst(x, u, ty), NSubstTele(x, u, rest))
    case NSigmaEnd => t
    case NPiEnd(m, r) => NPiEnd(m, NSubst(x, u, r))
    case NAbsEnd(m, r, b) => NAbsEnd(m, NSubst(x, u, r), NBody(NSubstStmts(x, u, b.stmts)))
  }

  function NSubstStmts(x: Var, u: NExpr, ss: seq<NStmt>): (r: seq<NStmt>)
    ensures |r| == |ss|
    decreases ss, 0
  {
    if ss == [] then [] else [NSubstStmt(x, u, ss[0])] + NSubstStmts(x, u, ss[1..])
  }

  function NSubstStmt(x: Var, u: NExpr, s: NStmt): NStmt
    decreases s, 1
  {
    match s
    case NCall(m, f, es) => NCall(m, NSubst(x, u, f), NSubstSeq(x, u, es))
    case NIfElse(c, t, e) =>
      NIfElse(NSubst(x, u, c), NBody(NSubstStmts(x, u, t.stmts)),
              match e case None => None case Some(b) => Some(NBody(NSubstStmts(x, u, b.stmts))))
    case NReturn(e) => NReturn(match e case None => None case Some(r) => Some(NSubst(x, u, r)))
    case NImpossible(e) => NImpossible(match e case None => None case Some(r) => Some(NSubst(x, u, r)))
  }

  // Only the binders of free variables matter.
  lemma {:induction false} Coincidence(e: Expr, sc: Scope, sd: Scope)
    requires forall u :: OccursIn(u, e, false) ==> Find(sc, u) == Find(sd, u)
    ensures ToNameless(e, sc) == ToNameless(e, sd)
    decreases Size(e), 0
  {
    match e
    case Atom(_) =>
    case VarE(v) => assert OccursIn(v, e, false);
    case Node(_, es) => CoincidenceSeq(es, sc, sd);
    case App(_, f, es) => Coincidence(f, sc, sd); CoincidenceSeq(es, sc, sd);
    case Because(v, r) => Coincidence(v, sc, sd); Coincidence(r, sc, sd);
    case Bind(t) => CoincidenceTele(t, sc, sd);
  }

  lemma {:induction false} CoincidenceSeq(es: seq<Expr>, sc: Scope, sd: Scope)
    requires forall u :: OccursInSeq(u, es, false) ==> Find(sc, u) == Find(sd, u)
    ensures ToNamelessSeq(es, sc) == ToNamelessSeq(es, sd)
    decreases SizeSeq(es), 1
  {
    if es != [] {
      Coincidence(es[0], sc, sd);
      CoincidenceSeq(es[1..], sc, sd);
    }
  }

  lemma {:induction false} CoincidenceTele(t: Tele, sc: Scope, sd: Scope)
    requires forall u :: OccursInTele(u, t, false) ==> Find(sc, u) == Find(sd, u)
    ensures ToNamelessTele(t, sc) == ToNamelessTele(t, sd)
    decreases SizeTele(t), 1
  {
    if t.args == [] {
      match t.end
      case SigmaEnd =>
      case PiEnd(_, r) => Coincidence(r, sc, sd);
      case AbsEnd(_, r, b) => Coincidence(r, sc, sd); CoincidenceStmts(b.stmts, sc, sd);
    } else {
      var a, rest := t.args[0], Rest(t);
      Coincidence(a.ty, sc, sd);
      CoincidenceTele(rest, Push(a.name, sc), Push(a.name, sd));
    }
  }

  lemma {:induction false} CoincidenceStmts(ss: seq<Stmt>, sc: Scope, sd: Scope)
    requires forall u :: OccursInStmts(u, ss, false) ==> Find(sc, u) == Find(sd, u)
    ensures ToNamelessStmts(ss, sc) == ToNamelessStmts(ss, sd)
    decreases SizeStmts(ss), 1
  {
    if ss != [] {
      CoincidenceStmt(ss[0], sc, sd);
      CoincidenceStmts(ss[1..], sc, sd);
    }
  }

  lemma {:induction false} CoincidenceStmt(s: Stmt, sc: Scope, sd: Scope)
    requires forall u :: OccursInStmt(u, s, false) ==> Find(sc, u) == Find(sd, u)
    ensures ToNamelessStmt(s, sc) == ToNamelessStmt(s, sd)
    decreases SizeStmt(s), 0
  {
    match s
    case Call(_, f, es) => Coincidence(f, sc, sd); CoincidenceSeq(es, sc, sd);
    case IfElse(c, t, e) =>
      Coincidence(c, sc, sd);
      CoincidenceStmts(t.stmts, sc, sd);
      if e.Some? { CoincidenceStmts(e.value.stmts, sc, sd); }
    case Return(e) => if e.Some? { Coincidence(e.value, sc, sd); }
    case Impossible(e) => if e.Some? { Coincidence(e.value, sc, sd); }
  }

  // A variable whose index is above the maximum occurs nowhere.
  lemma {:induction false} IndexAboveMax(e: Expr, v: Var)
    requires v.idx > MaxIndex(e)
    ensures !OccursIn(v, e, true)
    decreases Size(e), 0
  {
    match e
    case Atom(_) =>
    case VarE(_) =>
    case Node(_, es) => IndexAboveMaxSeq(es, v);
    case App(_, f, es) => IndexAboveMax(f, v); IndexAboveMaxSeq(es, v);
    case Because(x, r) => IndexAboveMax(x, v); IndexAboveMax(r, v);
    case Bind(t) => IndexAboveMaxTele(t, v);
  }

  lemma {:induction false} IndexAboveMaxSeq(es: seq<Expr>, v: Var)
    requires v.idx > MaxIndexSeq(es)
    ensures !OccursInSeq(v, es, true)
    decreases SizeSeq(es), 1
  {
    if es != [] {
      IndexAboveMax(es[0], v);
      IndexAboveMaxSeq(es[1..], v);
    }
  }

  lemma {:induction false} IndexAboveMaxTele(t: Tele, v: Var)
    requires v.idx > MaxIndexTele(t)
    ensures !OccursInTele(v, t, true)
    decreases SizeTele(t), 1
  {
    if t.args == [] {
      match t.end
      case SigmaEnd =>
      case PiEnd(_, r) => IndexAboveMax(r, v);
      case AbsEnd(_, r, b) => IndexAboveMax(r, v); IndexAboveMaxStmts(b.stmts, v);
    } else {
      var a, rest := t.args[0], Rest(t);
      IndexAboveMax(a.ty, v);
      IndexAboveMaxTele(rest, v);
    }
  }

  lemma {:induction false} IndexAboveMaxStmts(ss: seq<Stmt>, v: Var)
    requires v.idx > MaxIndexStmts(ss)
    ensures !OccursInStmts(v, ss, true)
    decreases SizeStmts(ss), 1
  {
    if ss != [] {
      IndexAboveMaxStmt(ss[0], v);
      IndexAboveMaxStmts(ss[1..], v);
    }
  }

  lemma {:induction false} IndexAboveMaxStmt(s: Stmt, v: Var)
    requires v.idx > MaxIndexStmt(s)
    ensures !OccursInStmt(v, s, true)
    decreases SizeStmt(s), 0
  {
    match s
    case Call(_, f, es) => IndexAboveMax(f, v); IndexAboveMaxSeq(es, v);
    case IfElse(c, t, e) =>
      IndexAboveMax(c, v);
      IndexAboveMaxStmts(t.stmts, v);
      if e.Some? { IndexAboveMaxStmts(e.value.stmts, v); }
    case Return(e) => if e.Some? { IndexAboveMax(e.value, v); }
    case Impossible(e) => if e.Some? { IndexAboveMax(e.value, v); }
  }

  lemma {:induction false} FreeIsAnywhere(e: Expr, v: Var)
    ensures OccursIn(v, e, false) ==> OccursIn(v, e, true)
    decreases Size(e), 0
  {
    match e
    case Atom(_) =>
    case VarE(_) =>
    case Node(_, es) => FreeIsAnywhereSeq(es, v);
    case App(_, f, es) => FreeIsAnywhere(f, v); FreeIsAnywhereSeq(es, v);
    case Because(x, r) => FreeIsAnywhere(x, v); FreeIsAnywhere(r, v);
    case Bind(t) => FreeIsAnywhereTele(t, v);
  }

  lemma {:induction false} FreeIsAnywhereSeq(es: seq<Expr>, v: Var)
    ensures OccursInSeq(v, es, false) ==> OccursInSeq(v, es, true)
    decreases SizeSeq(es), 1
  {
    if es != [] {
      FreeIsAnywhere(es[0], v);
      FreeIsAnywhereSeq(es[1..], v);
    }
  }

  lemma {:induction false} FreeIsAnywhereTele(t: Tele, v: Var)
    ensures OccursInTele(v, t, false) ==> OccursInTele(v, t, true)
    decreases SizeTele(t), 1
  {
    if t.args == [] {
      match t.end
      case SigmaEnd =>
      case PiEnd(_, r) => FreeIsAnywhere(r, v);
      case AbsEnd(_, r, b) => FreeIsAnywhere(r, v); FreeIsAnywhereStmts(b.stmts, v);
    } else {
      var a, rest := t.args[0], Rest(t);
      FreeIsAnywhere(a.ty, v);
      FreeIsAnywhereTele(rest, v);
    }
  }

  lemma {:induction false} FreeIsAnywhereStmts(ss: seq<Stmt>, v: Var)
    ensures OccursInStmts(v, ss, false) ==> OccursInStmts(v, ss, true)
    decreases SizeStmts(ss), 1
  {
    if ss != [] {
      FreeIsAnywhereStmt(ss[0], v);
      FreeIsAnywhereStmts(ss[1..], v);
    }
  }

  lemma {:induction false} FreeIsAnywhereStmt(s: Stmt, v: Var)
    ensures OccursInStmt(v, s, false) ==> OccursInStmt(v, s, true)
    decreases SizeStmt(s), 0
  {
    match s
    case Call(_, f, es) => FreeIsAnywhere(f, v); FreeIsAnywhereSeq(es, v);
    case IfElse(c, t, e) =>
      FreeIsAnywhere(c, v);
      FreeIsAnywhereStmts(t.stmts, v);
      if e.Some? { FreeIsAnywhereStmts(e.value.stmts, v); }
    case Return(e) => if e.Some? { FreeIsAnywhere(e.value, v); }
    case Impossible(e) => if e.Some? { FreeIsAnywhere(e.value, v); }
  }

  // Free occurrences are exactly the free names of the nameless term.
  lemma {:induction false} FreeNameless(e: Expr, v: Var, sc: Scope)
    ensures NOccurs(v, ToNameless(e, sc)) <==> Find(sc, v).None? && OccursIn(v, e, false)
    decreases Size(e), 0
  {
    match e
    case Atom(_) =>
    case VarE(_) =>
    case Node(_, es) => FreeNamelessSeq(es, v, sc);
    case App(_, f, es) => FreeNameless(f, v, sc); FreeNamelessSeq(es, v, sc);
    case Because(x, r) => FreeNameless(x, v, sc); FreeNameless(r, v, sc);
    case Bind(t) => FreeNamelessTele(t, v, sc);
  }

  lemma {:induction false} FreeNamelessSeq(es: seq<Expr>, v: Var, sc: Scope)
    ensures NOccursSeq(v, ToNamelessSeq(es, sc)) <==> Find(sc, v).None? && OccursInSeq(v, es, false)
    decreases SizeSeq(es), 1
  {
    if es != [] {
      FreeNameless(es[0], v, sc);
      FreeNamelessSeq(es[1..], v, sc);
    }
  }

  lemma {:induction false} FreeNamelessTele(t: Tele, v: Var, sc: Scope)
    ensures NOccursTele(v, ToNamelessTele(t, sc)) <==> Find(sc, v).None? && OccursInTele(v, t, false)
    decreases SizeTele(t), 1
  {
    if t.args == [] {
      match t.end
      case SigmaEnd =>
      case PiEnd(_, r) => FreeNameless(r, v, sc);
      case AbsEnd(_, r, b) => FreeNameless(r, v, sc); FreeNamelessStmts(b.stmts, v, sc);
    } else {
      var a, rest := t.args[0], Rest(t);
      FreeNameless(a.ty, v, sc);
      FreeNamelessTele(rest, v, Push(a.name, sc));
    }
  }

  lemma {:induction false} FreeNamelessStmts(ss: seq<Stmt>, v: Var, sc: Scope)
    ensures NOccursStmts(v, ToNamelessStmts(ss, sc)) <==> Find(sc, v).None? && OccursInStmts(v, ss, false)
    decreases SizeStmts(ss), 1
  {
    if ss != [] {
      FreeNamelessStmt(ss[0], v, sc);
      FreeNamelessStmts(ss[1..], v, sc);
    }
  }

  lemma {:induction false} FreeNamelessStmt(s: Stmt, v: Var, sc: Scope)
    ensures NOccursStmt(v, ToNamelessStmt(s, sc)) <==> Find(sc, v).None? && OccursInStmt(v, s, false)
    decreases SizeStmt(s), 0
  {
    match s
    case Call(_, f, es) => FreeNameless(f, v, sc); FreeNamelessSeq(es, v, sc);
    case IfElse(c, t, e) =>
      FreeNameless(c, v, sc);
      FreeNamelessStmts(t.stmts, v, sc);
      if e.Some? { FreeNamelessStmts(e.value.stmts, v, sc); }
    case Return(e) => if e.Some? { FreeNameless(e.value, v, sc); }
    case Impossible(e) => if e.Some? { FreeNameless(e.value, v, sc); }
  }

  // `sd` is `sc` with the visible binder `from` renamed to `to`.
  ghost predicate Renames(from: Var, to: Var, sc: Scope, sd: Scope) {
    && Find(sc, from).Some?
    && forall u :: u != to ==> Find(sd, ReplaceVar(from, to, u)) == Find(sc, u)
  }

  lemma {:induction false} ReplaceNameless(e: Expr, from: Var, to: Var, sc: Scope, sd: Scope)
    requires !OccursIn(to, e, true) && Renames(from, to, sc, sd)
    ensures ToNameless(Replace(from, to, e), sd) == ToNameless(e, sc)
    decreases Size(e), 0
  {
    match e
    case Atom(_) =>
    case VarE(v) => assert v != to; assert Find(sd, ReplaceVar(from, to, v)) == Find(sc, v);
    case Node(_, es) => ReplaceNamelessSeq(es, from, to, sc, sd);
    case App(_, f, es) => ReplaceNameless(f, from, to, sc, sd); ReplaceNamelessSeq(es, from, to, sc, sd);
    case Because(v, r) => ReplaceNameless(v, from, to, sc, sd); ReplaceNameless(r, from, to, sc, sd);
    case Bind(t) => ReplaceNamelessTele(t, from, to, sc, sd);
  }

  lemma {:induction false} ReplaceNamelessSeq(es: seq<Expr>, from: Var, to: Var, sc: Scope, sd: Scope)
    requires !OccursInSeq(to, es, true) && Renames(from, to, sc, sd)
    ensures ToNamelessSeq(ReplaceSeq(from, to, es), sd) == ToNamelessSeq(es, sc)
    decreases SizeSeq(es), 1
  {
    if es != [] {
      ReplaceNameless(es[0], from, to, sc, sd);
      ReplaceNamelessSeq(es[1..], from, to, sc, sd);
    }
  }

  lemma {:induction false} ReplaceNamelessTele(t: Tele, from: Var, to: Var, sc: Scope, sd: Scope)
    requires !OccursInTele(to, t, true) && Renames(from, to, sc, sd)
    ensures ToNamelessTele(ReplaceTele(from, to, t), sd) == ToNamelessTele(t, sc)
    decreases SizeTele(t), 1
  {
    if t.args == [] {
      match t.end
      case SigmaEnd =>
      case PiEnd(_, r) => ReplaceNameless(r, from, to, sc, sd);
      case AbsEnd(_, r, b) => ReplaceNameless(r, from, to, sc, sd); ReplaceNamelessStmts(b.stmts, from, to, sc, sd);
    } else {
      var a, rest := t.args[0], Rest(t);
      ReplaceNameless(a.ty, from, to, sc, sd);
      ReplaceNamelessTele(rest, from, to, Push(a.name, sc), Push(ReplaceName(from, to, a.name), sd));
    }
  }

  lemma {:induction false} ReplaceNamelessStmts(ss: seq<Stmt>, from: Var, to: Var, sc: Scope, sd: Scope)
    requires !OccursInStmts(to, ss, true) && Renames(from, to, sc, sd)
    ensures ToNamelessStmts(ReplaceStmts(from, to, ss), sd) == ToNamelessStmts(ss, sc)
    decreases SizeStmts(ss), 1
  {
    if ss != [] {
      ReplaceNamelessStmt(ss[0], from, to, sc, sd);
      ReplaceNamelessStmts(ss[1..], from, to, sc, sd);
    }
  }

  lemma {:induction false} ReplaceNamelessStmt(s: Stmt, from: Var, to: Var, sc: Scope, sd: Scope)
    requires !OccursInStmt(to, s, true) && Renames(from, to, sc, sd)
    ensures ToNamelessStmt(ReplaceStmt(from, to, s), sd) == ToNamelessStmt(s, sc)
    decreases SizeStmt(s), 0
  {
    match s
    case Call(_, f, es) => ReplaceNameless(f, from, to, sc, sd); ReplaceNamelessSeq(es, from, to, sc, sd);
    case IfElse(c, t, e) =>
      ReplaceNameless(c, from, to, sc, sd);
      ReplaceNamelessStmts(t.stmts, from, to, sc, sd);
      if e.Some? { ReplaceNamelessStmts(e.value.stmts, from, to, sc, sd); }
    case Return(e) => if e.Some? { ReplaceNameless(e.value, from, to, sc, sd); }
    case Impossible(e) => if e.Some? { ReplaceNameless(e.value, from, to, sc, sd); }
  }

  lemma {:induction false} ReplaceFree(e: Expr, from: Var, to: Var, u: Var)
    requires !OccursIn(to, e, true) && from != to
    ensures OccursIn(u, Replace(from, to, e), false) <==>
            if u == to then OccursIn(from, e, false) else u != from && OccursIn(u, e, false)
    decreases Size(e), 0
  {
    match e
    case Atom(_) =>
    case VarE(_) =>
    case Node(_, es) => ReplaceFreeSeq(es, from, to, u);
    case App(_, f, es) => ReplaceFree(f, from, to, u); ReplaceFreeSeq(es, from, to, u);
    case Because(v, r) => ReplaceFree(v, from, to, u); ReplaceFree(r, from, to, u);
    case Bind(t) => ReplaceFreeTele(t, from, to, u);
  }

  lemma {:induction false} ReplaceFreeSeq(es: seq<Expr>, from: Var, to: Var, u: Var)
    requires !OccursInSeq(to, es, true) && from != to
    ensures OccursInSeq(u, ReplaceSeq(from, to, es), false) <==>
            if u == to then OccursInSeq(from, es, false) else u != from && OccursInSeq(u, es, false)
    decreases SizeSeq(es), 1
  {
    if es != [] {
      ReplaceFree(es[0], from, to, u);
      ReplaceFreeSeq(es[1..], from, to, u);
    }
  }

  lemma {:induction false} ReplaceFreeTele(t: Tele, from: Var, to: Var, u: Var)
    requires !OccursInTele(to, t, true) && from != to
    ensures OccursInTele(u, ReplaceTele(from, to, t), false) <==>
            if u == to then OccursInTele(from, t, false) else u != from && OccursInTele(u, t, false)
    decreases SizeTele(t), 1
  {
    if t.args == [] {
      match t.end
      case SigmaEnd =>
      case PiEnd(_, r) => ReplaceFree(r, from, to, u);
      case AbsEnd(_, r, b) => ReplaceFree(r, from, to, u); ReplaceFreeStmts(b.stmts, from, to, u);
    } else {
      var a, rest := t.args[0], Rest(t);
      ReplaceFree(a.ty, from, to, u);
      ReplaceFreeTele(rest, from, to, u);
    }
  }

  lemma {:induction false} ReplaceFreeStmts(ss: seq<Stmt>, from: Var, to: Var, u: Var)
    requires !OccursInStmts(to, ss, true) && from != to
    ensures OccursInStmts(u, ReplaceStmts(from, to, ss), false) <==>
            if u == to then OccursInStmts(from, ss, false) else u != from && OccursInStmts(u, ss, false)
    decreases SizeStmts(ss), 1
  {
    if ss != [] {
      ReplaceFreeStmt(ss[0], from, to, u);
      ReplaceFreeStmts(ss[1..], from, to, u);
    }
  }

  lemma {:induction false} ReplaceFreeStmt(s: Stmt, from: Var, to: Var, u: Var)
    requires !OccursInStmt(to, s, true) && from != to
    ensures OccursInStmt(u, ReplaceStmt(from, to, s), false) <==>
            if u == to then OccursInStmt(from, s, false) else u != from && OccursInStmt(u, s, false)
    decreases SizeStmt(s), 0
  {
    match s
    case Call(_, f, es) => ReplaceFree(f, from, to, u); ReplaceFreeSeq(es, from, to, u);
    case IfElse(c, t, e) =>
      ReplaceFree(c, from, to, u);
      ReplaceFreeStmts(t.stmts, from, to, u);
      if e.Some? { ReplaceFreeStmts(e.value.stmts, from, to, u); }
    case Return(e) => if e.Some? { ReplaceFree(e.value, from, to, u); }
    case Impossible(e) => if e.Some? { ReplaceFree(e.value, from, to, u); }
  }

  lemma {:induction false} ReplaceGone(e: Expr, from: Var, to: Var)
    requires from != to
    ensures !OccursIn(from, Replace(from, to, e), true)
    decreases Size(e), 0
  {
    match e
    case Atom(_) =>
    case VarE(_) =>
    case Node(_, es) => ReplaceGoneSeq(es, from, to);
    case App(_, f, es) => ReplaceGone(f, from, to); ReplaceGoneSeq(es, from, to);
    case Because(v, r) => ReplaceGone(v, from, to); ReplaceGone(r, from, to);
    case Bind(t) => ReplaceGoneTele(t, from, to);
  }

  lemma {:induction false} ReplaceGoneSeq(es: seq<Expr>, from: Var, to: Var)
    requires from != to
    ensures !OccursInSeq(from, ReplaceSeq(from, to, es), true)
    decreases SizeSeq(es), 1
  {
    if es != [] {
      ReplaceGone(es[0], from, to);
      ReplaceGoneSeq(es[1..], from, to);
    }
  }

  lemma {:induction false} ReplaceGoneTele(t: Tele, from: Var, to: Var)
    requires from != to
    ensures !OccursInTele(from, ReplaceTele(from, to, t), true)
    decreases SizeTele(t), 1
  {
    if t.args == [] {
      match t.end
      case SigmaEnd =>
      case PiEnd(_, r) => ReplaceGone(r, from, to);
      case AbsEnd(_, r, b) => ReplaceGone(r, from, to); ReplaceGoneStmts(b.stmts, from, to);
    } else {
      var a, rest := t.args[0], Rest(t);
      ReplaceGone(a.ty, from, to);
      ReplaceGoneTele(rest, from, to);
    }
  }

  lemma {:induction false} ReplaceGoneStmts(ss: seq<Stmt>, from: Var, to: Var)
    requires from != to
    ensures !OccursInStmts(from, ReplaceStmts(from, to, ss), true)
    decreases SizeStmts(ss), 1
  {
    if ss != [] {
      ReplaceGoneStmt(ss[0], from, to);
      ReplaceGoneStmts(ss[1..], from, to);
    }
  }

  lemma {:induction false} ReplaceGoneStmt(s: Stmt, from: Var, to: Var)
    requires from != to
    ensures !OccursInStmt(from, ReplaceStmt(from, to, s), true)
    decreases SizeStmt(s), 0
  {
    match s
    case Call(_, f, es) => ReplaceGone(f, from, to); ReplaceGoneSeq(es, from, to);
    case IfElse(c, t, e) =>
      ReplaceGone(c, from, to);
      ReplaceGoneStmts(t.stmts, from, to);
      if e.Some? { ReplaceGoneStmts(e.value.stmts, from, to); }
    case Return(e) => if e.Some? { ReplaceGone(e.value, from, to); }
    case Impossible(e) => if e.Some? { ReplaceGone(e.value, from, to); }
  }

  // Renaming a binder does not change the term.
  lemma RenameKeepsMeaning(v: Var, rest: Tele, sc: Scope)
    ensures var w := FreshVar(v, rest);
            && w != v && !OccursInTele(w, rest, true) && !OccursInTele(w, rest, false)
            && ToNamelessTele(ReplaceTele(v, w, rest), Push(Some(w), sc)) == ToNamelessTele(rest, Push(Some(v), sc))
  {
    var w := FreshVar(v, rest);
    IndexAboveMaxTele(rest, w);
    FreeIsAnywhereTele(rest, w);
    ReplaceNamelessTele(rest, v, w, Push(Some(v), sc), Push(Some(w), sc));
  }

  lemma {:induction false} NSubstAbsent(e: NExpr, x: Var, u: NExpr)
    requires !NOccurs(x, e)
    ensures NSubst(x, u, e) == e
    decreases e, 1
  {
    match e
    case NAtom(_) =>
    case NFree(_) =>
    case NBound(_) =>
    case NNode(_, es) => NSubstAbsentSeq(es, x, u);
    case NApp(_, f, es) => NSubstAbsent(f, x, u); NSubstAbsentSeq(es, x, u);
    case NBecause(v, r) => NSubstAbsent(v, x, u); NSubstAbsent(r, x, u);
    case NBind(t) => NSubstAbsentTele(t, x, u);
  }

  lemma {:induction false} NSubstAbsentSeq(es: seq<NExpr>, x: Var, u: NExpr)
    requires !NOccursSeq(x, es)
    ensures NSubstSeq(x, u, es) == es
    decreases es, 0
  {
    if es != [] {
      NSubstAbsent(es[0], x, u);
      NSubstAbsentSeq(es[1..], x, u);
    }
  }

  lemma {:induction false} NSubstAbsentTele(t: NTele, x: Var, u: NExpr)
    requires !NOccursTele(x, t)
    ensures NSubstTele(x, u, t) == t
    decreases t, 1
  {
    match t
    case NArg(_, ty, rest) => NSubstAbsent(ty, x, u); NSubstAbsentTele(rest, x, u);
    case NSigmaEnd =>
    case NPiEnd(_, r) => NSubstAbsent(r, x, u);
    case NAbsEnd(_, r, b) => NSubstAbsent(r, x, u); NSubstAbsentStmts(b.stmts, x, u);
  }

  lemma {:induction false} NSubstAbsentStmts(ss: seq<NStmt>, x: Var, u: NExpr)
    requires !NOccursStmts(x, ss)
    ensures NSubstStmts(x, u, ss) == ss
    decreases ss, 0
  {
    if ss != [] {
      NSubstAbsentStmt(ss[0], x, u);
      NSubstAbsentStmts(ss[1..], x, u);
    }
  }

  lemma {:induction false} NSubstAbsentStmt(s: NStmt, x: Var, u: NExpr)
    requires !NOccursStmt(x, s)
    ensures NSubstStmt(x, u, s) == s
    decreases s, 1
  {
    match s
    case NCall(_, f, es) => NSubstAbsent(f, x, u); NSubstAbsentSeq(es, x, u);
    case NIfElse(c, t, e) =>
      NSubstAbsent(c, x, u);
      NSubstAbsentStmts(t.stmts, x, u);
      if e.Some? { NSubstAbsentStmts(e.value.stmts, x, u); }
    case NReturn(e) => if e.Some? { NSubstAbsent(e.value, x, u); }
    case NImpossible(e) => if e.Some? { NSubstAbsent(e.value, x, u); }
  }

  lemma {:induction false} NSubstOccurs(e: NExpr, w: Var, x: Var, u: NExpr)
    requires NOccurs(w, u)
    ensures NOccurs(x, e) ==> NOccurs(w, NSubst(x, u, e))
    decreases e, 1
  {
    match e
    case NAtom(_) =>
    case NFree(_) =>
    case NBound(_) =>
    case NNode(_, es) => NSubstOccursSeq(es, w, x, u);
    case NApp(_, f, es) => NSubstOccurs(f, w, x, u); NSubstOccursSeq(es, w, x, u);
    case NBecause(v, r) => NSubstOccurs(v, w, x, u); NSubstOccurs(r, w, x, u);
    case NBind(t) => NSubstOccursTele(t, w, x, u);
  }

  lemma {:induction false} NSubstOccursSeq(es: seq<NExpr>, w: Var, x: Var, u: NExpr)
    requires NOccurs(w, u)
    ensures NOccursSeq(x, es) ==> NOccursSeq(w, NSubstSeq(x, u, es))
    decreases es, 0
  {
    if es != [] {
      NSubstOccurs(es[0], w, x, u);
      NSubstOccursSeq(es[1..], w, x, u);
    }
  }

  lemma {:induction false} NSubstOccursTele(t: NTele, w: Var, x: Var, u: NExpr)
    requires NOccurs(w, u)
    ensures NOccursTele(x, t) ==> NOccursTele(w, NSubstTele(x, u, t))
    decreases t, 1
  {
    match t
    case NArg(_, ty, rest) => NSubstOccurs(ty, w, x, u); NSubstOccursTele(rest, w, x, u);
    case NSigmaEnd =>
    case NPiEnd(_, r) => NSubstOccurs(r, w, x, u);
    case NAbsEnd(_, r, b) => NSubstOccurs(r, w, x, u); NSubstOccursStmts(b.stmts, w, x, u);
  }

  lemma {:induction false} NSubstOccursStmts(ss: seq<NStmt>, w: Var, x: Var, u: NExpr)
    requires NOccurs(w, u)
    ensures NOccursStmts(x, ss) ==> NOccursStmts(w, NSubstStmts(x, u, ss))
    decreases ss, 0
  {
    if ss != [] {
      NSubstOccursStmt(ss[0], w, x, u);
      NSubstOccursStmts(ss[1..], w, x, u);
    }
  }

  lemma {:induction false} NSubstOccursStmt(s: NStmt, w: Var, x: Var, u: NExpr)
    requires NOccurs(w, u)
    ensures NOccursStmt(x, s) ==> NOccursStmt(w, NSubstStmt(x, u, s))
    decreases s, 1
  {
    match s
    case NCall(_, f, es) => NSubstOccurs(f, w, x, u); NSubstOccursSeq(es, w, x, u);
    case NIfElse(c, t, e) =>
      NSubstOccurs(c, w, x, u);
      NSubstOccursStmts(t.stmts, w, x, u);
      if e.Some? { NSubstOccursStmts(e.value.stmts, w, x, u); }
    case NReturn(e) => if e.Some? { NSubstOccurs(e.value, w, x, u); }
    case NImpossible(e) => if e.Some? { NSubstOccurs(e.value, w, x, u); }
  }

  // What is free after a substitution was free before, or in the argument.
  lemma {:induction false} NSubstFree(e: NExpr, w: Var, x: Var, u: NExpr)
    ensures NOccurs(w, NSubst(x, u, e)) ==> NOccurs(w, u) || (w != x && NOccurs(w, e))
    decreases e, 1
  {
    match e
    case NAtom(_) =>
    case NFree(_) =>
    case NBound(_) =>
    case NNode(_, es) => NSubstFreeSeq(es, w, x, u);
    case NApp(_, f, es) => NSubstFree(f, w, x, u); NSubstFreeSeq(es, w, x, u);
    case NBecause(v, r) => NSubstFree(v, w, x, u); NSubstFree(r, w, x, u);
    case NBind(t) => NSubstFreeTele(t, w, x, u);
  }

  lemma {:induction false} NSubstFreeSeq(es: seq<NExpr>, w: Var, x: Var, u: NExpr)
    ensures NOccursSeq(w, NSubstSeq(x, u, es)) ==> NOccurs(w, u) || (w != x && NOccursSeq(w, es))
    decreases es, 0
  {
    if es != [] {
      NSubstFree(es[0], w, x, u);
      NSubstFreeSeq(es[1..], w, x, u);
    }
  }

  lemma {:induction false} NSubstFreeTele(t: NTele, w: Var, x: Var, u: NExpr)
    ensures NOccursTele(w, NSubstTele(x, u, t)) ==> NOccurs(w, u) || (w != x && NOccursTele(w, t))
    decreases t, 1
  {
    match t
    case NArg(_, ty, rest) => NSubstFree(ty, w, x, u); NSubstFreeTele(rest, w, x, u);
    case NSigmaEnd =>
    case NPiEnd(_, r) => NSubstFree(r, w, x, u);
    case NAbsEnd(_, r, b) => NSubstFree(r, w, x, u); NSubstFreeStmts(b.stmts, w, x, u);
  }

  lemma {:induction false} NSubstFreeStmts(ss: seq<NStmt>, w: Var, x: Var, u: NExpr)
    ensures NOccursStmts(w, NSubstStmts(x, u, ss)) ==> NOccurs(w, u) || (w != x && NOccursStmts(w, ss))
    decreases ss, 0
  {
    if ss != [] {
      NSubstFreeStmt(ss[0], w, x, u);
      NSubstFreeStmts(ss[1..], w, x, u);
    }
  }

  lemma {:induction false} NSubstFreeStmt(s: NStmt, w: Var, x: Var, u: NExpr)
    ensures NOccursStmt(w, NSubstStmt(x, u, s)) ==> NOccurs(w, u) || (w != x && NOccursStmt(w, s))
    decreases s, 1
  {
    match s
    case NCall(_, f, es) => NSubstFree(f, w, x, u); NSubstFreeSeq(es, w, x, u);
    case NIfElse(c, t, e) =>
      NSubstFree(c, w, x, u);
      NSubstFreeStmts(t.stmts, w, x, u);
      if e.Some? { NSubstFreeStmts(e.value.stmts, w, x, u); }
    case NReturn(e) => if e.Some? { NSubstFree(e.value, w, x, u); }
    case NImpossible(e) => if e.Some? { NSubstFree(e.value, w, x, u); }
  }
}
