/** The names that a term binds, and what renaming and substitution do to them. */
module BoundNames {
  import opened Ast
  import opened Binders

  // ---- names that are bound somewhere in a term ----

  function BindersOf(e: Expr): set<Var>
    decreases Size(e), 0
  {
    match e
    case Atom(_) => {}
    case VarE(_) => {}
    case Node(_, es) => BindersOfSeq(es)
    case App(_, f, es) => BindersOf(f) + BindersOfSeq(es)
    case Because(v, r) => BindersOf(v) + BindersOf(r)
    case Bind(t) => BindersOfTele(t)
  }

  function BindersOfSeq(es: seq<Expr>): set<Var>
    decreases SizeSeq(es), 1
  {
    if es == [] then {} else BindersOf(es[0]) + BindersOfSeq(es[1..])
  }

  function BindersOfTele(t: Tele): set<Var>
    decreases SizeTele(t), 1
  {
    if t.args == [] then
      match t.end
      case SigmaEnd => {}
      case PiEnd(_, r) => BindersOf(r)
      case AbsEnd(_, r, b) => BindersOf(r) + BindersOfStmts(b.stmts)
    else
      var a, rest := t.args[0], Rest(t);
      BindersOf(a.ty) + (if a.name.Some? then {a.name.value} else {}) + BindersOfTele(rest)
  }

  function BindersOfStmts(ss: seq<Stmt>): set<Var>
    decreases SizeStmts(ss), 1
  {
    if ss == [] then {} else BindersOfStmt(ss[0]) + BindersOfStmts(ss[1..])
  }

  function BindersOfStmt(s: Stmt): set<Var>
    decreases SizeStmt(s), 0
  {
    match s
    case Call(_, f, es) => BindersOf(f) + BindersOfSeq(es)
    case IfElse(c, t, e) =>
      BindersOf(c) + BindersOfStmts(t.stmts) + (if e.Some? then BindersOfStmts(e.value.stmts) else {})
    case Return(e) => if e.Some? then BindersOf(e.value) else {}
    case Impossible(e) => if e.Some? then BindersOf(e.value) else {}
  }

  // ---- and all names that occur, free or bound ----

  function NamesOf(e: Expr): set<Var>
    decreases Size(e), 0
  {
    match e
    case Atom(_) => {}
    case VarE(v) => {v}
    case Node(_, es) => NamesOfSeq(es)
    case App(_, f, es) => NamesOf(f) + NamesOfSeq(es)
    case Because(v, r) => NamesOf(v) + NamesOf(r)
    case Bind(t) => NamesOfTele(t)
  }

  function NamesOfSeq(es: seq<Expr>): set<Var>
    decreases SizeSeq(es), 1
  {
    if es == [] then {} else NamesOf(es[0]) + NamesOfSeq(es[1..])
  }

  function NamesOfTele(t: Tele): set<Var>
    decreases SizeTele(t), 1
  {
    if t.args == [] then
      match t.end
      case SigmaEnd => {}
      case PiEnd(_, r) => NamesOf(r)
      case AbsEnd(_, r, b) => NamesOf(r) + NamesOfStmts(b.stmts)
    else
      var a, rest := t.args[0], Rest(t);
      NamesOf(a.ty) + (if a.name.Some? then {a.name.value} else {}) + NamesOfTele(rest)
  }

  function NamesOfStmts(ss: seq<Stmt>): set<Var>
    decreases SizeStmts(ss), 1
  {
    if ss == [] then {} else NamesOfStmt(ss[0]) + NamesOfStmts(ss[1..])
  }

  function NamesOfStmt(s: Stmt): set<Var>
    decreases SizeStmt(s), 0
  {
    match s
    case Call(_, f, es) => NamesOf(f) + NamesOfSeq(es)
    case IfElse(c, t, e) => NamesOf(c) + NamesOfStmts(t.stmts) + (if e.Some? then NamesOfStmts(e.value.stmts) else {})
    case Return(e) => if e.Some? then NamesOf(e.value) else {}
    case Impossible(e) => if e.Some? then NamesOf(e.value) else {}
  }

  lemma {:induction false} OccursNamed(e: Expr, v: Var)
    ensures OccursIn(v, e, true) ==> v in NamesOf(e)
    decreases Size(e), 0
  {
    match e
    case Atom(_) =>
    case VarE(_) =>
    case Node(_, es) => OccursNamedSeq(es, v);
    case App(_, f, es) => OccursNamed(f, v); OccursNamedSeq(es, v);
    case Because(x, r) => OccursNamed(x, v); OccursNamed(r, v);
    case Bind(t) => OccursNamedTele(t, v);
  }

  lemma {:induction false} OccursNamedSeq(es: seq<Expr>, v: Var)
    ensures OccursInSeq(v, es, true) ==> v in NamesOfSeq(es)
    decreases SizeSeq(es), 1
  {
    if es != [] { OccursNamed(es[0], v); OccursNamedSeq(es[1..], v); }
  }

  lemma {:induction false} OccursNamedTele(t: Tele, v: Var)
    ensures OccursInTele(v, t, true) ==> v in NamesOfTele(t)
    decreases SizeTele(t), 1
  {
    if t.args == [] {
      match t.end
      case SigmaEnd =>
      case PiEnd(_, r) => OccursNamed(r, v);
      case AbsEnd(_, r, b) => OccursNamed(r, v); OccursNamedStmts(b.stmts, v);
    } else {
      var a, rest := t.args[0], Rest(t);
      OccursNamed(a.ty, v);
      OccursNamedTele(rest, v);
    }
  }

  lemma {:induction false} OccursNamedStmts(ss: seq<Stmt>, v: Var)
    ensures OccursInStmts(v, ss, true) ==> v in NamesOfStmts(ss)
    decreases SizeStmts(ss), 1
  {
    if ss != [] { OccursNamedStmt(ss[0], v); OccursNamedStmts(ss[1..], v); }
  }

  lemma {:induction false} OccursNamedStmt(s: Stmt, v: Var)
    ensures OccursInStmt(v, s, true) ==> v in NamesOfStmt(s)
    decreases SizeStmt(s), 0
  {
    match s
    case Call(_, f, es) => OccursNamed(f, v); OccursNamedSeq(es, v);
    case IfElse(c, t, e) =>
      OccursNamed(c, v);
      OccursNamedStmts(t.stmts, v);
      if e.Some? { OccursNamedStmts(e.value.stmts, v); }
    case Return(e) => if e.Some? { OccursNamed(e.value, v); }
    case Impossible(e) => if e.Some? { OccursNamed(e.value, v); }
  }

  // Replacing a name brings in no other, and only where it was bound.
  lemma {:induction false} ReplaceBinders(e: Expr, from: Var, to: Var, b: Var)
    ensures b in BindersOf(Replace(from, to, e)) ==> b in BindersOf(e) || (b == to && from in BindersOf(e))
    decreases Size(e), 0
  {
    match e
    case Atom(_) =>
    case VarE(_) =>
    case Node(_, es) => ReplaceBindersSeq(es, from, to, b);
    case App(_, f, es) => ReplaceBinders(f, from, to, b); ReplaceBindersSeq(es, from, to, b);
    case Because(v, r) => ReplaceBinders(v, from, to, b); ReplaceBinders(r, from, to, b);
    case Bind(t) => ReplaceBindersTele(t, from, to, b);
  }

  lemma {:induction false} ReplaceBindersSeq(es: seq<Expr>, from: Var, to: Var, b: Var)
    ensures b in BindersOfSeq(ReplaceSeq(from, to, es)) ==>
            b in BindersOfSeq(es) || (b == to && from in BindersOfSeq(es))
    decreases SizeSeq(es), 1
  {
    if es != [] { ReplaceBinders(es[0], from, to, b); ReplaceBindersSeq(es[1..], from, to, b); }
  }

  lemma {:induction false} ReplaceBindersTele(t: Tele, from: Var, to: Var, b: Var)
    ensures b in BindersOfTele(ReplaceTele(from, to, t)) ==>
            b in BindersOfTele(t) || (b == to && from in BindersOfTele(t))
    decreases SizeTele(t), 1
  {
    if t.args == [] {
      match t.end
      case SigmaEnd =>
      case PiEnd(_, r) => ReplaceBinders(r, from, to, b);
      case AbsEnd(_, r, body) => ReplaceBinders(r, from, to, b); ReplaceBindersStmts(body.stmts, from, to, b);
    } else {
      var a, rest := t.args[0], Rest(t);
      ReplaceBinders(a.ty, from, to, b);
      ReplaceBindersTele(rest, from, to, b);
    }
  }

  lemma {:induction false} ReplaceBindersStmts(ss: seq<Stmt>, from: Var, to: Var, b: Var)
    ensures b in BindersOfStmts(ReplaceStmts(from, to, ss)) ==>
            b in BindersOfStmts(ss) || (b == to && from in BindersOfStmts(ss))
    decreases SizeStmts(ss), 1
  {
    if ss != [] { ReplaceBindersStmt(ss[0], from, to, b); ReplaceBindersStmts(ss[1..], from, to, b); }
  }

  lemma {:induction false} ReplaceBindersStmt(s: Stmt, from: Var, to: Var, b: Var)
    ensures b in BindersOfStmt(ReplaceStmt(from, to, s)) ==>
            b in BindersOfStmt(s) || (b == to && from in BindersOfStmt(s))
    decreases SizeStmt(s), 0
  {
    match s
    case Call(_, f, es) => ReplaceBinders(f, from, to, b); ReplaceBindersSeq(es, from, to, b);
    case IfElse(c, t, e) =>
      ReplaceBinders(c, from, to, b);
      ReplaceBindersStmts(t.stmts, from, to, b);
      if e.Some? { ReplaceBindersStmts(e.value.stmts, from, to, b); }
    case Return(e) => if e.Some? { ReplaceBinders(e.value, from, to, b); }
    case Impossible(e) => if e.Some? { ReplaceBinders(e.value, from, to, b); }
  }

  // Two names that renaming can make equal: it changes the index only.
  predicate SameStem(v: Var, w: Var) {
    v.name == w.name && v.shadowId == w.shadowId
  }

  ghost predicate Stems(b: Var, names: set<Var>) {
    exists c :: c in names && SameStem(b, c)
  }

  // Substitution brings in the names bound in the argument, and renames some.
  lemma {:induction false} SubstBinders(e: Expr, x: Var, y: Expr, b: Var)
    ensures b in BindersOf(Subst(x, y, e)) ==> Stems(b, BindersOf(e)) || Stems(b, BindersOf(y))
    decreases Size(e), 0
  {
    match e
    case Atom(_) =>
    case VarE(_) =>
    case Node(_, es) => SubstBindersSeq(es, x, y, b);
    case App(_, f, es) => SubstBinders(f, x, y, b); SubstBindersSeq(es, x, y, b);
    case Because(v, r) => SubstBinders(v, x, y, b); SubstBinders(r, x, y, b);
    case Bind(t) => SubstBindersTele(t, x, y, b);
  }

  lemma {:induction false} SubstBindersSeq(es: seq<Expr>, x: Var, y: Expr, b: Var)
    ensures b in BindersOfSeq(SubstSeq(x, y, es)) ==> Stems(b, BindersOfSeq(es)) || Stems(b, BindersOf(y))
    decreases SizeSeq(es), 1
  {
    if es != [] { SubstBinders(es[0], x, y, b); SubstBindersSeq(es[1..], x, y, b); }
  }

  lemma {:induction false} SubstBindersTele(t: Tele, x: Var, y: Expr, b: Var)
    ensures b in BindersOfTele(SubstTele(x, y, t)) ==> Stems(b, BindersOfTele(t)) || Stems(b, BindersOf(y))
    decreases SizeTele(t), 1
  {
    if t.args == [] {
      match t.end
      case SigmaEnd =>
      case PiEnd(_, r) => SubstBinders(r, x, y, b);
      case AbsEnd(_, r, body) => SubstBinders(r, x, y, b); SubstBindersStmts(body.stmts, x, y, b);
    } else {
      var a, rest := t.args[0], Rest(t);
      SubstBinders(a.ty, x, y, b);
      if a.name.Some? && a.name != Some(x) && OccursIn(a.name.value, y, true) {
        var v := FreshVar(a.name.value, rest);
        var renamed := ReplaceTele(a.name.value, v, rest);
        SubstBindersTele(renamed, x, y, b);
        if Stems(b, BindersOfTele(renamed)) {
          var c :| c in BindersOfTele(renamed) && SameStem(b, c);
          ReplaceBindersTele(rest, a.name.value, v, c);
        }
      } else {
        SubstBindersTele(rest, x, y, b);
      }
    }
  }

  lemma {:induction false} SubstBindersStmts(ss: seq<Stmt>, x: Var, y: Expr, b: Var)
    ensures b in BindersOfStmts(SubstStmts(x, y, ss)) ==> Stems(b, BindersOfStmts(ss)) || Stems(b, BindersOf(y))
    decreases SizeStmts(ss), 1
  {
    if ss != [] { SubstBindersStmt(ss[0], x, y, b); SubstBindersStmts(ss[1..], x, y, b); }
  }

  lemma {:induction false} SubstBindersStmt(s: Stmt, x: Var, y: Expr, b: Var)
    ensures b in BindersOfStmt(SubstStmt(x, y, s)) ==> Stems(b, BindersOfStmt(s)) || Stems(b, BindersOf(y))
    decreases SizeStmt(s), 0
  {
    match s
    case Call(_, f, es) => SubstBinders(f, x, y, b); SubstBindersSeq(es, x, y, b);
    case IfElse(c, t, e) =>
      SubstBinders(c, x, y, b);
      SubstBindersStmts(t.stmts, x, y, b);
      if e.Some? { SubstBindersStmts(e.value.stmts, x, y, b); }
    case Return(e) => if e.Some? { SubstBinders(e.value, x, y, b); }
    case Impossible(e) => if e.Some? { SubstBinders(e.value, x, y, b); }
  }
}
