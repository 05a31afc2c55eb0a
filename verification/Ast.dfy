/** The statement and expression fragment the compiler proof is about: identifiers in local slots, every operator
    on values, and all structured control flow except finally. */
module Ast {
  import opened Wrappers

  /** Literal::Number splits into integers and floats when it is compiled. */
  datatype Lit = LitNull | LitBoolean(b: bool) | LitString(name: nat) | LitLong(i: int) | LitFloat(f: real)

  datatype BinaryOp =
    | OpAdd | OpBitAnd | OpBitOr | OpBitXOr | OpDivide | OpEquals | OpGreaterThan | OpGreaterThanEquals
    | OpIdentityEquals | OpIdentityNotEquals | OpIn | OpInstanceOf | OpLeftShiftArithmetic | OpLessThan
    | OpLessThanEquals | OpModulus | OpMultiply | OpNotEquals | OpRightShiftArithmetic | OpRightShiftLogical
    | OpSubtract

  datatype UnaryOp = OpBitNot | OpNegative | OpNot | OpPositive | OpTypeof | OpVoid

  datatype IncrOp = PreIncr | PostIncr | PreDecr | PostDecr

  datatype Expr =
    | Literal(lit: Lit)
    | Ident(slot: nat)
    | Assign(op: Option<BinaryOp>, lhs: Expr, rhs: Expr)  // no operator: plain assignment
    | Binary(bop: BinaryOp, left: Expr, right: Expr)
    | And(left: Expr, right: Expr)
    | Or(left: Expr, right: Expr)
    | Ternary(test: Expr, thn: Expr, els: Expr)
    | Paren(exprs: Exprs)
    | Unary(uop: UnaryOp, e: Expr)
    | Incr(iop: IncrOp, target: Expr)

  /** A comma sequence, which the grammar never leaves empty. */
  datatype Exprs = Last(e: Expr) | More(e: Expr, rest: Exprs)

  type Label = nat

  datatype Var = Var(slot: nat, init: Option<Expr>)

  datatype ForInit = NoInit | ExprInit(exprs: Exprs) | VarInit(vars: seq<Var>)

  datatype Item =
    | Block(tag: Option<Label>, stmts: Items)
    | Break(target: Option<Label>)
    | Continue(target: Option<Label>)
    | Debugger
    | Do(tag: Option<Label>, test: Expr, body: Item)
    | Empty
    | ExprStmt(exprs: Exprs)
    | For(tag: Option<Label>, init: ForInit, ftest: Option<Exprs>, incr: Option<Exprs>, body: Item)
    | If(cond: Exprs, thn: Item, els: Option<Item>)
    | Return(result: Option<Exprs>)
    | Switch(tag: Option<Label>, disc: Exprs, clauses: Clauses)
    | Throw(exprs: Exprs)
    | Try(stmts: Items, catchSlot: nat, handler: Items)
    | VarDecl(vars: seq<Var>)
    | While(tag: Option<Label>, test: Expr, body: Item)

  datatype Items = Nil | Cons(head: Item, tail: Items)

  datatype Clauses =
    | NoClauses
    | Case(guard: Exprs, stmts: Items, rest: Clauses)
    | Default(stmts: Items, rest: Clauses)

  function TagOf(s: Item): Option<Label> {
    if s.Block? || s.Do? || s.For? || s.Switch? || s.While? then s.tag else None
  }

  function CatchSlotOf(s: Item): nat {
    if s.Try? then s.catchSlot else 0
  }

  function Count(cs: Clauses): nat {
    if cs.NoClauses? then 0 else 1 + Count(cs.rest)
  }

  function StmtsOf(cs: Clauses): Items {
    if cs.NoClauses? then Nil else cs.stmts
  }

  function RestOf(cs: Clauses): Clauses {
    if cs.NoClauses? then cs else cs.rest
  }

  /** Strips one pair of parentheses around a single expression. */
  function UnwrapParen(e: Expr): Expr {
    if e.Paren? && e.exprs.Last? then e.exprs.e else e
  }

  // ---- Every slot an identifier names exists ----

  ghost predicate ExprSlots(e: Expr, slots: nat) {
    match e
    case Literal(_) => true
    case Ident(s) => s < slots
    case Assign(_, l, r) => ExprSlots(l, slots) && ExprSlots(r, slots)
    case Binary(_, l, r) => ExprSlots(l, slots) && ExprSlots(r, slots)
    case And(l, r) => ExprSlots(l, slots) && ExprSlots(r, slots)
    case Or(l, r) => ExprSlots(l, slots) && ExprSlots(r, slots)
    case Ternary(t, a, b) => ExprSlots(t, slots) && ExprSlots(a, slots) && ExprSlots(b, slots)
    case Paren(es) => ExprsSlots(es, slots)
    case Unary(_, x) => ExprSlots(x, slots)
    case Incr(_, x) => ExprSlots(x, slots)
  }

  ghost predicate ExprsSlots(es: Exprs, slots: nat) {
    match es
    case Last(e) => ExprSlots(e, slots)
    case More(e, rest) => ExprSlots(e, slots) && ExprsSlots(rest, slots)
  }

  ghost predicate VarsSlots(vars: seq<Var>, slots: nat) {
    forall i :: 0 <= i < |vars| ==> vars[i].slot < slots && (vars[i].init.Some? ==> ExprSlots(vars[i].init.value, slots))
  }

  ghost predicate ItemSlots(s: Item, slots: nat) {
    match s
    case Block(_, b) => ItemsSlots(b, slots)
    case Do(_, t, b) => ExprSlots(t, slots) && ItemSlots(b, slots)
    case ExprStmt(es) => ExprsSlots(es, slots)
    case For(_, init, t, incr, b) =>
      && (match init case NoInit => true case ExprInit(es) => ExprsSlots(es, slots) case VarInit(vars) => VarsSlots(vars, slots))
      && (t.Some? ==> ExprsSlots(t.value, slots)) && (incr.Some? ==> ExprsSlots(incr.value, slots)) && ItemSlots(b, slots)
    case If(c, a, b) => ExprsSlots(c, slots) && ItemSlots(a, slots) && (b.Some? ==> ItemSlots(b.value, slots))
    case Return(es) => es.Some? ==> ExprsSlots(es.value, slots)
    case Switch(_, d, cs) => ExprsSlots(d, slots) && ClausesSlots(cs, slots)
    case Throw(es) => ExprsSlots(es, slots)
    case Try(b, c, h) => ItemsSlots(b, slots) && c < slots && ItemsSlots(h, slots)
    case VarDecl(vars) => VarsSlots(vars, slots)
    case While(_, t, b) => ExprSlots(t, slots) && ItemSlots(b, slots)
    case _ => true
  }

  ghost predicate ItemsSlots(ss: Items, slots: nat) {
    ss.Cons? ==> ItemSlots(ss.head, slots) && ItemsSlots(ss.tail, slots)
  }

  ghost predicate ClausesSlots(cs: Clauses, slots: nat) {
    match cs
    case NoClauses => true
    case Case(g, ss, rest) => ExprsSlots(g, slots) && ItemsSlots(ss, slots) && ClausesSlots(rest, slots)
    case Default(ss, rest) => ItemsSlots(ss, slots) && ClausesSlots(rest, slots)
  }
}
