/** The abstract syntax tree of the type-checker, cut down to what the algorithms look at.

    Every production without sub-terms is an `AtomKind`, every production that only groups sub-terms is an `Op`;
    applications, `because` and the three binding productions keep their own constructors.
    Source locations, sorts and derivations are not represented. */
module Ast {
  datatype Option<+T> = None | Some(value: T)

  // A local variable: source name, rename index and shadow id, compared component-wise.
  datatype Var = Var(name: string, idx: nat, shadowId: nat)

  datatype Qty = Zero | One | Many

  datatype AtomKind =
    | TypenameT | TrueT | AutoT | BoolT | CstrT | UnitT | RefT | ScopeT | ArrayT
    | IntT(signed: bool, width: nat)
    | BoolConst(b: bool) | NumConst(n: int) | StrLit(s: string)
    | Global(qualifier: Option<string>, name: string)

  datatype Op =
    | Not | And | Or
    | Eq | Neq | Gt | Gte | Lt | Lte
    | Plus | Minus | Mult | Div
    | AddressOf | Deref | ScopeOf(scopeId: nat)
    | InitList | Member(field: string) | Subscript

  // `App.isMutable` is the mutability of the Pi-type assigned to `func`.
  datatype Expr =
    | Atom(atom: AtomKind)
    | VarE(v: Var)
    | Node(op: Op, operands: seq<Expr>)
    | App(isMutable: bool, func: Expr, args: seq<Expr>)
    | Because(value: Expr, reason: Expr)
    | Bind(tele: Tele)

  datatype Arg = Arg(qty: Qty, ty: Expr, name: Option<Var>)

  // A telescope is the rest of a signature: the arguments still to be bound and what they scope over.
  datatype Tele = Tele(args: seq<Arg>, end: End)
  datatype End =
    | SigmaEnd
    | PiEnd(isMutable: bool, ret: Expr)
    | AbsEnd(isMutable: bool, ret: Expr, body: Body)

  datatype Body = Body(stmts: seq<Stmt>)
  datatype Stmt =
    | Call(isMutable: bool, func: Expr, args: seq<Expr>)
    | IfElse(cond: Expr, thenB: Body, elseB: Option<Body>)
    | Return(value: Option<Expr>)
    | Impossible(reason: Option<Expr>)

  function Max(a: nat, b: nat): nat {
    if a < b then b else a
  }

  // The number of nodes, the measure of every recursion that renames on its way down.
  function Size(e: Expr): (n: nat)
    ensures n > 0
    decreases e, 1
  {
    match e
    case Atom(_) => 1
    case VarE(_) => 1
    case Node(_, es) => 1 + SizeSeq(es)
    case App(_, f, es) => 1 + Size(f) + SizeSeq(es)
    case Because(v, r) => 1 + Size(v) + Size(r)
    case Bind(t) => 1 + SizeTele(t)
  }

  function SizeSeq(es: seq<Expr>): nat
    decreases es, 0
  {
    if es == [] then 0 else Size(es[0]) + SizeSeq(es[1..])
  }

  function SizeTele(t: Tele): (n: nat)
    ensures n > 0
    decreases t, 1
  {
    1 + SizeArgs(t.args) +
    match t.end
    case SigmaEnd => 0
    case PiEnd(_, r) => Size(r)
    case AbsEnd(_, r, b) => Size(r) + SizeStmts(b.stmts)
  }

  function SizeArgs(args: seq<Arg>): nat
    decreases args, 0
  {
    if args == [] then 0 else SizeArg(args[0]) + SizeArgs(args[1..])
  }

  function SizeArg(a: Arg): nat
    decreases a, 1
  {
    1 + Size(a.ty)
  }

  function SizeStmts(ss: seq<Stmt>): nat
    decreases ss, 0
  {
    if ss == [] then 0 else SizeStmt(ss[0]) + SizeStmts(ss[1..])
  }

  function SizeStmt(s: Stmt): (n: nat)
    ensures n > 0
    decreases s, 1
  {
    match s
    case Call(_, f, es) => 1 + Size(f) + SizeSeq(es)
    case IfElse(c, t, e) =>
      2 + Size(c) + SizeStmts(t.stmts) + (match e case None => 0 case Some(b) => 1 + SizeStmts(b.stmts))
    case Return(e) => 1 + (match e case None => 0 case Some(x) => Size(x))
    case Impossible(e) => 1 + (match e case None => 0 case Some(x) => Size(x))
  }

  function Rest(t: Tele): (r: Tele)
    requires t.args != []
    ensures SizeTele(t) == 1 + Size(t.args[0].ty) + SizeTele(r)
  {
    assert SizeArgs(t.args) == SizeArg(t.args[0]) + SizeArgs(t.args[1..]);
    Tele(t.args[1..], t.end)
  }

  function Cons(a: Arg, t: Tele): (r: Tele)
    ensures r.args != [] && r.args[0] == a && Rest(r) == t
    ensures SizeTele(r) == 1 + Size(a.ty) + SizeTele(t)
  {
    Tele([a] + t.args, t.end)
  }
}
