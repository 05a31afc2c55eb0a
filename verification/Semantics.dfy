/** Structured semantics of the fragment, after sections 11 and 12 of ECMA-262 5.1.

    What operators compute is not fixed: they are functions of their operands and of the rest of the world, may
    change the world and may throw, so the order and number of evaluations is part of the meaning. Loops burn
    fuel; a run that would need more answers Timeout. */
module Semantics {
  import opened Ast
  import opened Wrappers

  datatype Val = Undefined | Null | Bool(b: bool) | Num(n: real) | Str(name: nat) | Object(id: nat)

  type World = int

  /** The runtime's operations on values. */
  datatype Prim =
    | PAdd | PBitAnd | PBitOr | PBitXOr | PDivide | PEq | PGt | PGe | PIn | PInstanceOf | PLsh | PLt | PLe | PModulus
    | PMultiply | PNe | PRsh | PRshZeroFill | PSubtract | PBitNot | PNegative | PPositive | PTypeof | PToNumber

  datatype Res = Ok(v: Val, w: World) | Err(v: Val, w: World)

  datatype Ops = Ops(apply: (Prim, seq<Val>, World) -> Res, truthy: Val -> bool, strictEq: (Val, Val) -> bool) {
    /** Section 9.2: the kinds of value whose truth is fixed, and the rest. */
    function ToBoolean(v: Val): bool {
      match v
      case Undefined => false
      case Null => false
      case Bool(b) => b
      case _ => truthy(v)
    }

    function BinaryMeaning(op: BinaryOp, a: Val, b: Val, w: World): Res {
      match op
      case OpAdd => apply(PAdd, [a, b], w)
      case OpBitAnd => apply(PBitAnd, [a, b], w)
      case OpBitOr => apply(PBitOr, [a, b], w)
      case OpBitXOr => apply(PBitXOr, [a, b], w)
      case OpDivide => apply(PDivide, [a, b], w)
      case OpEquals => apply(PEq, [a, b], w)
      case OpGreaterThan => apply(PGt, [a, b], w)
      case OpGreaterThanEquals => apply(PGe, [a, b], w)
      case OpIdentityEquals => Ok(Bool(strictEq(a, b)), w)
      case OpIdentityNotEquals => Ok(Bool(!strictEq(a, b)), w)
      case OpIn => apply(PIn, [a, b], w)
      case OpInstanceOf => apply(PInstanceOf, [a, b], w)
      case OpLeftShiftArithmetic => apply(PLsh, [a, b], w)
      case OpLessThan => apply(PLt, [a, b], w)
      case OpLessThanEquals => apply(PLe, [a, b], w)
      case OpModulus => apply(PModulus, [a, b], w)
      case OpMultiply => apply(PMultiply, [a, b], w)
      case OpNotEquals => apply(PNe, [a, b], w)
      case OpRightShiftArithmetic => apply(PRsh, [a, b], w)
      case OpRightShiftLogical => apply(PRshZeroFill, [a, b], w)
      case OpSubtract => apply(PSubtract, [a, b], w)
    }

    function UnaryMeaning(op: UnaryOp, a: Val, w: World): Res {
      match op
      case OpBitNot => apply(PBitNot, [a], w)
      case OpNegative => apply(PNegative, [a], w)
      case OpNot => Ok(Bool(!ToBoolean(a)), w)
      case OpPositive => apply(PPositive, [a], w)
      case OpTypeof => apply(PTypeof, [a], w)
      case OpVoid => Ok(Undefined, w)
    }
  }

  function LitValue(lit: Lit): Val {
    match lit
    case LitNull => Null
    case LitBoolean(b) => Bool(b)
    case LitString(name) => Str(name)
    case LitLong(i) => Num(i as real)
    case LitFloat(f) => Num(f)
  }

  /** The variables by slot, and the rest of the world. */
  datatype Store = Store(vars: seq<Val>, w: World)

  function Read(st: Store, slot: nat): Val {
    if slot < |st.vars| then st.vars[slot] else Undefined
  }

  function Write(st: Store, slot: nat, v: Val): Store {
    if slot < |st.vars| then st.(vars := st.vars[slot := v]) else st
  }

  datatype EvalResult = Value(v: Val, st: Store) | Thrown(v: Val, st: Store)

  function Lift(r: Res, st: Store): EvalResult {
    match r
    case Ok(v, w) => Value(v, st.(w := w))
    case Err(v, w) => Thrown(v, st.(w := w))
  }

  /** Goes on with a binary operator when its right operand has been evaluated. */
  function Combined(ops: Ops, op: BinaryOp, a: Val, r: EvalResult): EvalResult {
    if r.Thrown? then r else Lift(ops.BinaryMeaning(op, a, r.v, r.st.w), r.st)
  }

  function Assigned(slot: nat, r: EvalResult): EvalResult {
    if r.Thrown? then r else Value(r.v, Write(r.st, slot, r.v))
  }

  /** Evaluates an expression. Assignment to anything but an identifier does not compile, so what it means here
      does not matter. */
  function Eval(ops: Ops, e: Expr, st: Store): EvalResult {
    match e
    case Literal(lit) => Value(LitValue(lit), st)
    case Ident(slot) => Value(Read(st, slot), st)
    case Assign(op, lhs, rhs) =>
      var target := UnwrapParen(lhs);
      if !target.Ident? then Value(Undefined, st)
      else if op.None? then Assigned(target.slot, Eval(ops, rhs, st))
      else Assigned(target.slot, Combined(ops, op.value, Read(st, target.slot), Eval(ops, rhs, st)))
    case Binary(op, l, r) =>
      var a := Eval(ops, l, st);
      if a.Thrown? then a else Combined(ops, op, a.v, Eval(ops, r, a.st))
    case And(l, r) =>
      var a := Eval(ops, l, st);
      if a.Thrown? || !ops.ToBoolean(a.v) then a else Eval(ops, r, a.st)
    case Or(l, r) =>
      var a := Eval(ops, l, st);
      if a.Thrown? || ops.ToBoolean(a.v) then a else Eval(ops, r, a.st)
    case Ternary(test, thn, els) =>
      var c := Eval(ops, test, st);
      if c.Thrown? then c else if ops.ToBoolean(c.v) then Eval(ops, thn, c.st) else Eval(ops, els, c.st)
    case Paren(es) => EvalSeq(ops, es, st)
    case Unary(op, x) =>
      var a := Eval(ops, x, st);
      if a.Thrown? then a else Lift(ops.UnaryMeaning(op, a.v, a.st.w), a.st)
    case Incr(op, target) => Increment(ops, op, UnwrapParen(target), st)
  }

  function EvalSeq(ops: Ops, es: Exprs, st: Store): EvalResult {
    match es
    case Last(e) => Eval(ops, e, st)
    case More(e, rest) =>
      var r := Eval(ops, e, st);
      if r.Thrown? then r else EvalSeq(ops, rest, r.st)
  }

  /** Sections 11.3 and 11.4.4, 11.4.5: the old value as a number, one more or less, stored; the postfix forms
      answer the old number. */
  function Increment(ops: Ops, op: IncrOp, target: Expr, st: Store): EvalResult {
    if !target.Ident? then Value(Undefined, st)
    else
      var n := Lift(ops.apply(PToNumber, [Read(st, target.slot)], st.w), st);
      if n.Thrown? then n else Incremented(op, target.slot, n.v, OneMore(ops, op, n.v, n.st))
  }

  function OneMore(ops: Ops, op: IncrOp, n: Val, st: Store): EvalResult {
    Lift(ops.apply(if op == PreIncr || op == PostIncr then PAdd else PSubtract, [n, Num(1.0)], st.w), st)
  }

  function Incremented(op: IncrOp, slot: nat, n: Val, r: EvalResult): EvalResult {
    if r.Thrown? then r else Value(if op == PreIncr || op == PreDecr then r.v else n, Write(r.st, slot, r.v))
  }

  // ---- Statements ----

  datatype Outcome =
    | Normal
    | Broke(tag: Option<Label>)
    | Continued(tag: Option<Label>)
    | Returned(v: Val)
    | Raised(v: Val)
    | Timeout

  datatype Done = Done(o: Outcome, st: Store)

  /** How an unlabelled break relates to a labelled block: the standard lets it pass, the engine stops there. */
  datatype Dialect = Standard | Engine

  predicate LeavesLoop(o: Outcome, tag: Option<Label>) {
    o.Broke? && (o.tag.None? || o.tag == tag)
  }

  predicate ContinuesLoop(o: Outcome, tag: Option<Label>) {
    o.Normal? || (o.Continued? && (o.tag.None? || o.tag == tag))
  }

  predicate LeavesBlock(d: Dialect, o: Outcome, tag: Option<Label>) {
    tag.Some? && o.Broke? && (o.tag == tag || (d.Engine? && o.tag.None?))
  }

  function OfEval(r: EvalResult): Done {
    match r
    case Value(_, st) => Done(Normal, st)
    case Thrown(v, st) => Done(Raised(v), st)
  }

  function ExecVars(ops: Ops, vars: seq<Var>, st: Store): Done {
    if vars == [] then Done(Normal, st)
    else if vars[0].init.None? then ExecVars(ops, vars[1..], st)
    else
      var r := Eval(ops, vars[0].init.value, st);
      if r.Thrown? then OfEval(r) else ExecVars(ops, vars[1..], Write(r.st, vars[0].slot, r.v))
  }

  function Exec(ops: Ops, d: Dialect, s: Item, st: Store, fuel: nat): Done
    decreases fuel, s, 1
  {
    match s
    case Block(tag, stmts) =>
      var r := ExecAll(ops, d, stmts, st, fuel);
      if LeavesBlock(d, r.o, tag) then Done(Normal, r.st) else r
    case Break(tag) => Done(Broke(tag), st)
    case Continue(tag) => Done(Continued(tag), st)
    case Debugger => Done(Normal, st)
    case Do(tag, test, body) => ExecDo(ops, d, tag, test, body, st, fuel)
    case Empty => Done(Normal, st)
    case ExprStmt(es) => OfEval(EvalSeq(ops, es, st))
    case For(tag, init, test, incr, body) =>
      var r := match init
        case NoInit => Done(Normal, st)
        case ExprInit(es) => OfEval(EvalSeq(ops, es, st))
        case VarInit(vars) => ExecVars(ops, vars, st);
      if r.o != Normal then r else ExecFor(ops, d, tag, test, incr, body, r.st, fuel)
    case If(cond, a, b) =>
      var r := EvalSeq(ops, cond, st);
      if r.Thrown? then OfEval(r)
      else if ops.ToBoolean(r.v) then Exec(ops, d, a, r.st, fuel)
      else if b.Some? then Exec(ops, d, b.value, r.st, fuel)
      else Done(Normal, r.st)
    case Return(es) =>
      if es.None? then Done(Returned(Undefined), st)
      else
        var r := EvalSeq(ops, es.value, st);
        if r.Thrown? then OfEval(r) else Done(Returned(r.v), r.st)
    case Switch(tag, disc, clauses) =>
      var r := EvalSeq(ops, disc, st);
      if r.Thrown? then OfEval(r) else ExecSwitch(ops, d, tag, clauses, r.v, r.st, fuel)
    case Throw(es) =>
      var r := EvalSeq(ops, es, st);
      Done(Raised(r.v), r.st)
    case Try(stmts, slot, handler) =>
      var r := ExecAll(ops, d, stmts, st, fuel);
      if r.o.Raised? then ExecAll(ops, d, handler, Write(r.st, slot, r.o.v), fuel) else r
    case VarDecl(vars) => ExecVars(ops, vars, st)
    case While(tag, test, body) => ExecWhile(ops, d, tag, test, body, st, fuel)
  }

  function ExecAll(ops: Ops, d: Dialect, ss: Items, st: Store, fuel: nat): Done
    decreases fuel, ss, 0
  {
    match ss
    case Nil => Done(Normal, st)
    case Cons(s, rest) =>
      var r := Exec(ops, d, s, st, fuel);
      if r.o != Normal then r else ExecAll(ops, d, rest, r.st, fuel)
  }

  function ExecWhile(ops: Ops, d: Dialect, tag: Option<Label>, test: Expr, body: Item, st: Store, fuel: nat): Done
    decreases fuel, body, 2
  {
    if fuel == 0 then Done(Timeout, st)
    else
      var t := Eval(ops, test, st);
      if t.Thrown? || !ops.ToBoolean(t.v) then OfEval(t)
      else
        var r := Exec(ops, d, body, t.st, fuel);
        if LeavesLoop(r.o, tag) then Done(Normal, r.st)
        else if ContinuesLoop(r.o, tag) then ExecWhile(ops, d, tag, test, body, r.st, fuel - 1)
        else r
  }

  function ExecDo(ops: Ops, d: Dialect, tag: Option<Label>, test: Expr, body: Item, st: Store, fuel: nat): Done
    decreases fuel, body, 2
  {
    if fuel == 0 then Done(Timeout, st)
    else
      var r := Exec(ops, d, body, st, fuel);
      if LeavesLoop(r.o, tag) then Done(Normal, r.st)
      else if !ContinuesLoop(r.o, tag) then r
      else
        var t := Eval(ops, test, r.st);
        if t.Thrown? || !ops.ToBoolean(t.v) then OfEval(t) else ExecDo(ops, d, tag, test, body, t.st, fuel - 1)
  }

  function ExecFor(ops: Ops, d: Dialect, tag: Option<Label>, test: Option<Exprs>, incr: Option<Exprs>, body: Item,
                   st: Store, fuel: nat): Done
    decreases fuel, body, 2
  {
    if fuel == 0 then Done(Timeout, st)
    else
      var t := if test.Some? then EvalSeq(ops, test.value, st) else Value(Bool(true), st);
      if t.Thrown? || !ops.ToBoolean(t.v) then OfEval(t)
      else
        var r := Exec(ops, d, body, t.st, fuel);
        if LeavesLoop(r.o, tag) then Done(Normal, r.st)
        else if !ContinuesLoop(r.o, tag) then r
        else if incr.None? then ExecFor(ops, d, tag, test, incr, body, r.st, fuel - 1)
        else
          var i := EvalSeq(ops, incr.value, r.st);
          if i.Thrown? then OfEval(i) else ExecFor(ops, d, tag, test, incr, body, i.st, fuel - 1)
  }

  datatype Selection = NoClause(st: Store) | SelectThrew(v: Val, st: Store) | Chosen(k: nat, st: Store)

  /** Section 12.11: the first case whose value is strictly equal, in textual order; failing that the default
      clause. `k` counts the clauses gone by and `default` is the one seen so far. */
  function Select(ops: Ops, cs: Clauses, v: Val, k: nat, default: Option<nat>, st: Store): Selection {
    match cs
    case NoClauses => if default.Some? then Chosen(default.value, st) else NoClause(st)
    case Default(_, rest) => Select(ops, rest, v, k + 1, Some(k), st)
    case Case(guard, _, rest) =>
      var c := EvalSeq(ops, guard, st);
      if c.Thrown? then SelectThrew(c.v, c.st)
      else if ops.strictEq(v, c.v) then Chosen(k, c.st)
      else Select(ops, rest, v, k + 1, default, c.st)
  }

  function Selected(ops: Ops, cs: Clauses, v: Val, st: Store): Selection {
    Select(ops, cs, v, 0, None, st)
  }

  function ExecSwitch(ops: Ops, d: Dialect, tag: Option<Label>, cs: Clauses, v: Val, st: Store, fuel: nat): Done
    decreases fuel, cs, 1
  {
    var k := Selected(ops, cs, v, st);
    match k
    case NoClause(st) => Done(Normal, st)
    case SelectThrew(v, st) => Done(Raised(v), st)
    case Chosen(at, st) => SwitchEnds(tag, ExecClauses(ops, d, cs, at, st, fuel))
  }

  /** A break out of the switch ends it. */
  function SwitchEnds(tag: Option<Label>, r: Done): Done {
    if LeavesLoop(r.o, tag) then Done(Normal, r.st) else r
  }

  /** Runs the statements of the clauses from the k-th on: control falls through. */
  function ExecClauses(ops: Ops, d: Dialect, cs: Clauses, k: int, st: Store, fuel: nat): Done
    decreases fuel, cs, 0
  {
    match cs
    case NoClauses => Done(Normal, st)
    case _ =>
      if k > 0 then ExecClauses(ops, d, cs.rest, k - 1, st, fuel)
      else
        var r := ExecAll(ops, d, cs.stmts, st, fuel);
        if r.o != Normal then r else ExecClauses(ops, d, cs.rest, 0, r.st, fuel)
  }

  function AtEntry(slots: nat, w: World): Store {
    Store(seq(slots, i => Undefined), w)
  }

  /** A function body: every variable starts undefined, and falling off the end returns undefined. */
  function ExecFunction(ops: Ops, d: Dialect, slots: nat, body: Items, w: World, fuel: nat): Done {
    var r := ExecAll(ops, d, body, AtEntry(slots, w), fuel);
    if r.o.Normal? then Done(Returned(Undefined), r.st) else r
  }
}
