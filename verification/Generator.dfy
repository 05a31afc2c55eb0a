/** What the code generator emits, as functions from generator state to generator state. */
module Generator {
  import opened Ast
  import opened ExceptionTable
  import opened IrBuilder
  import opened Wrappers

  /** Compilation fails on a break or continue without target and on an assignment to something else than an
      identifier. */
  datatype Result<+T> = Ok(value: T) | Fatal {
    predicate IsFailure() {
      Fatal?
    }

    function PropagateFailure<U>(): Result<U>
      requires Fatal?
    {
      Fatal
    }

    function Extract(): T
      requires Ok?
    {
      value
    }
  }

  /** The state that was reached, or the one at the start. */
  function After(r: Result<Gen>, g: Gen): Gen {
    if r.Ok? then r.value else g
  }

  // ---- Expressions ----

  function OpIr(op: BinaryOp): BinaryIr {
    match op
    case OpAdd => Add
    case OpBitAnd => BitAnd
    case OpBitOr => BitOr
    case OpBitXOr => BitXOr
    case OpDivide => Divide
    case OpEquals => Eq
    case OpGreaterThan => Gt
    case OpGreaterThanEquals => Ge
    case OpIdentityEquals => StrictEq
    case OpIdentityNotEquals => StrictNe
    case OpIn => In
    case OpInstanceOf => InstanceOf
    case OpLeftShiftArithmetic => Lsh
    case OpLessThan => Lt
    case OpLessThanEquals => Le
    case OpModulus => Modulus
    case OpMultiply => Multiply
    case OpNotEquals => Ne
    case OpRightShiftArithmetic => Rsh
    case OpRightShiftLogical => RshZeroFill
    case OpSubtract => Subtract
  }

  function LiteralIr(lit: Lit): Ir {
    match lit
    case LitNull => LoadNull
    case LitBoolean(b) => if b then LoadTrue else LoadFalse
    case LitString(name) => LoadString(name)
    case LitLong(i) => if -0x8000_0000 <= i <= 0x7FFF_FFFF then LoadI32(i) else LoadI64(i)
    case LitFloat(f) => LoadF64(f)
  }

  function PopUnless(leave: bool, g: Gen): Gen {
    if leave then g else g.Emit(Pop)
  }

  function DupIf(leave: bool, g: Gen): Gen {
    if leave then g.Emit(Dup) else g
  }

  function EmitExpr(e: Expr, leave: bool, g: Gen): Result<Gen>
    decreases e, 1
  {
    match e
    case Literal(lit) => Ok(if leave then g.Emit(LiteralIr(lit)) else g)
    case Ident(slot) => Ok(PopUnless(leave, g.Emit(LoadLocal(slot))))
    case Assign(op, lhs, rhs) =>
      var target := UnwrapParen(lhs);
      if !target.Ident? then Fatal
      else
        var g1 := if op.None? then g else g.Emit(LoadLocal(target.slot));
        var g2 :- EmitExpr(rhs, true, g1);
        var g3 := if op.None? then g2 else g2.Emit(Ir.BinaryOp(OpIr(op.value)));
        Ok(DupIf(leave, g3).Emit(StoreLocal(target.slot)))
    case Binary(op, l, r) =>
      var g1 :- EmitExpr(l, true, g);
      var g2 :- EmitExpr(r, true, g1);
      Ok(PopUnless(leave, g2.Emit(Ir.BinaryOp(OpIr(op)))))
    case And(_, _) => EmitLogical(e, leave, g)
    case Or(_, _) => EmitLogical(e, leave, g)
    case Ternary(t, a, b) =>
      var els := |g.labels|;
      var after := els + 1;
      var g1 :- EmitTest(t, els, true, g.NewLabel().NewLabel());
      var g2 :- EmitExpr(a, leave, g1);
      var g3 :- EmitExpr(b, leave, g2.Emit(Jump(after)).Mark(els));
      Ok(g3.Mark(after))
    case Paren(es) => EmitExprs(es, leave, g)
    case Unary(op, x) =>
      var g1 :- EmitExpr(x, true, g);
      Ok(match op
         case OpBitNot => PopUnless(leave, g1.Emit(Ir.UnaryOp(BitNot)))
         case OpNegative => PopUnless(leave, g1.Emit(Ir.UnaryOp(Negative)))
         case OpNot => PopUnless(leave, g1.Emit(Ir.UnaryOp(Not)))
         case OpPositive => PopUnless(leave, g1.Emit(Ir.UnaryOp(Positive)))
         case OpTypeof => PopUnless(leave, g1.Emit(Ir.UnaryOp(Typeof)))
         case OpVoid => if leave then g1.Emit(Pop).Emit(LoadUndefined) else g1.Emit(Pop))
    case Incr(op, x) =>
      var target := UnwrapParen(x);
      if !target.Ident? then Fatal else Ok(EmitIncr(op, target.slot, leave, g))
  }

  /** The two operators that may leave out their second operand. */
  function EmitLogical(e: Expr, leave: bool, g: Gen): Result<Gen>
    decreases e, 0
  {
    if !e.And? && !e.Or? then Fatal
    else
      var after := |g.labels|;
      var g1 :- EmitExpr(e.left, true, g.NewLabel());
      var jump := if e.And? then JumpFalse(after) else JumpTrue(after);
      var g2 :- EmitExpr(e.right, true, g1.Emit(Dup).Emit(Ir.UnaryOp(ToBoolean)).Emit(jump).Emit(Pop));
      Ok(PopUnless(leave, g2.Mark(after)))
  }

  function EmitTest(e: Expr, at: nat, inverse: bool, g: Gen): Result<Gen>
    decreases e, 2
  {
    var g1 :- EmitExpr(e, true, g);
    Ok(g1.Emit(if inverse then JumpFalse(at) else JumpTrue(at)))
  }

  function EmitIncr(op: IncrOp, slot: nat, leave: bool, g: Gen): Gen {
    var g1 := g.Emit(LoadLocal(slot)).Emit(Ir.UnaryOp(ToNumber));
    var step := Ir.BinaryOp(if op == PreIncr || op == PostIncr then Add else Subtract);
    if !leave then g1.Emit(LoadI32(1)).Emit(step).Emit(StoreLocal(slot))
    else
      var temp := g.locals;
      var g2 := g1.NewLocal();
      if op == PreIncr || op == PreDecr then
        g2.Emit(LoadI32(1)).Emit(step).Emit(Dup).Emit(StoreLocal(temp)).Emit(StoreLocal(slot)).Emit(LoadLocal(temp))
      else
        g2.Emit(Dup).Emit(StoreLocal(temp)).Emit(LoadI32(1)).Emit(step).Emit(StoreLocal(slot)).Emit(LoadLocal(temp))
  }

  function EmitExprs(es: Exprs, leave: bool, g: Gen): Result<Gen>
    decreases es, 3
  {
    match es
    case Last(e) => EmitExpr(e, leave, g)
    case More(e, rest) =>
      var g1 :- EmitExpr(e, false, g);
      EmitExprs(rest, leave, g1)
  }

  function EmitTests(es: Exprs, at: nat, inverse: bool, g: Gen): Result<Gen>
    decreases es, 3
  {
    match es
    case Last(e) => EmitTest(e, at, inverse, g)
    case More(e, rest) =>
      var g1 :- EmitExpr(e, false, g);
      EmitTests(rest, at, inverse, g1)
  }

  // ---- Statements ----

  /** The target of a break or continue: the innermost one of that name, or without a name the innermost one. */
  function GetTarget(targets: seq<NamedLabel>, name: Option<Label>): Result<NamedLabel>
    decreases targets
  {
    if targets == [] then Fatal
    else
      var last := targets[|targets| - 1];
      if name.None? || last.name == name then Ok(last) else GetTarget(targets[..|targets| - 1], name)
  }

  function EmitJumpTo(targets: seq<NamedLabel>, name: Option<Label>, g: Gen): Result<Gen> {
    var target :- GetTarget(targets, name);
    Ok(g.Emit(if target.depth == g.depth then Jump(target.at) else Leave(target.at)))
  }

  function EmitVars(vars: seq<Var>, g: Gen): Result<Gen> {
    if vars == [] then Ok(g)
    else if vars[0].init.None? then EmitVars(vars[1..], g)
    else
      var g1 :- EmitExpr(vars[0].init.value, true, g);
      EmitVars(vars[1..], g1.Emit(StoreLocal(vars[0].slot)))
  }

  function EmitInit(init: ForInit, g: Gen): Result<Gen> {
    match init
    case NoInit => Ok(g)
    case ExprInit(es) => EmitExprs(es, false, g)
    case VarInit(vars) => EmitVars(vars, g)
  }

  function EmitReturn(g: Gen): Gen {
    if g.depth == 0 then g.Emit(ReturnIr)
    else
      var g1 := if g.ret.Some? then g else g.NewLabel().NewLocal().(ret := Some(ReturnTarget(|g.labels|, g.locals)));
      g1.Emit(StoreLocal(g1.ret.value.slot)).Emit(Leave(g1.ret.value.at))
  }

  function EmitItem(s: Item, g: Gen): Result<Gen>
    decreases s, 1
  {
    match s
    case Block(name, stmts) =>
      if name.None? then EmitItems(stmts, g)
      else
        var g1 :- EmitItems(stmts, g.PushBreak(name));
        Ok(g1.Mark(|g.labels|).PopBreak())
    case Break(name) => EmitJumpTo(g.breaks, name, g)
    case Continue(name) => EmitJumpTo(g.continues, name, g)
    case Debugger => Ok(g.Emit(Nop))
    case Do(name, test, body) =>
      var brk, cont, start := |g.labels|, |g.labels| + 1, |g.labels| + 2;
      var g1 := g.PushBreak(name).PushContinue(name).NewLabel().Mark(start);
      var g2 :- EmitItem(body, g1);
      var g3 :- EmitTest(test, start, false, g2.Mark(cont));
      Ok(g3.Mark(brk).PopBreak().PopContinue())
    case Empty => Ok(g)
    case ExprStmt(es) => EmitExprs(es, false, g)
    case For(name, init, test, incr, body) =>
      var brk, cont, check, start := |g.labels|, |g.labels| + 1, |g.labels| + 2, |g.labels| + 3;
      var g1 :- EmitInit(init, g.PushBreak(name).PushContinue(name).NewLabel().NewLabel());
      var g2 :- EmitItem(body, g1.Emit(Jump(check)).Mark(start));
      var g3 := g2.Mark(cont);
      var g4 :- if incr.Some? then EmitExprs(incr.value, false, g3) else Ok(g3);
      var g5 := g4.Mark(check);
      var g6 :- if test.Some? then EmitTests(test.value, start, false, g5) else Ok(g5.Emit(Jump(start)));
      Ok(g6.Mark(brk).PopBreak().PopContinue())
    case If(cond, a, b) =>
      if b.Some? then
        var els, after := |g.labels|, |g.labels| + 1;
        var g1 :- EmitTests(cond, els, true, g.NewLabel().NewLabel());
        var g2 :- EmitItem(a, g1);
        var g3 :- EmitItem(b.value, g2.Emit(Jump(after)).Mark(els));
        Ok(g3.Mark(after))
      else
        var after := |g.labels|;
        var g1 :- EmitTests(cond, after, true, g.NewLabel());
        var g2 :- EmitItem(a, g1);
        Ok(g2.Mark(after))
    case Return(es) =>
      var g1 :- if es.Some? then EmitExprs(es.value, true, g) else Ok(g.Emit(LoadUndefined));
      Ok(EmitReturn(g1))
    case Switch(name, disc, clauses) =>
      var brk, slot := |g.labels|, g.locals;
      var g1 :- EmitExprs(disc, true, g.PushBreak(name).NewLocal());
      var (g2, targets, default) :- EmitGuards(clauses, slot, None, g1.Emit(StoreLocal(slot)));
      var g3 :- EmitClauses(clauses, targets, g2.Emit(Jump(if default.Some? then default.value else brk)));
      Ok(g3.Mark(brk).PopBreak())
    case Throw(es) =>
      var g1 :- EmitExprs(es, true, g);
      Ok(g1.Emit(ThrowIr))
    case Try(stmts, slot, handler) =>
      var after := |g.labels|;
      var g1 :- EmitItems(stmts, g.Enter().NewLabel().StartExceptionBlock());
      var g2 :- EmitItems(handler, g1.Emit(Leave(after)).StartCatch().Emit(LoadException).Emit(StoreLocal(slot)));
      Ok(g2.Emit(Leave(after)).EndExceptionBlock().Mark(after).Exit())
    case VarDecl(vars) => EmitVars(vars, g)
    case While(name, test, body) =>
      var brk, cont, start := |g.labels|, |g.labels| + 1, |g.labels| + 2;
      var g1 := g.PushBreak(name).PushContinue(name).NewLabel().Emit(Jump(cont)).Mark(start);
      var g2 :- EmitItem(body, g1);
      var g3 :- EmitTest(test, start, false, g2.Mark(cont));
      Ok(g3.Mark(brk).PopBreak().PopContinue())
  }

  function EmitItems(ss: Items, g: Gen): Result<Gen>
    decreases ss, 0
  {
    match ss
    case Nil => Ok(g)
    case Cons(s, rest) =>
      var g1 :- EmitItem(s, g);
      EmitItems(rest, g1)
  }

  /** The tests of a switch: a label per clause, and for a case clause the comparison that jumps to it. The result
      also gives the labels in order and the one of the default clause. */
  function EmitGuards(cs: Clauses, slot: nat, default: Option<nat>, g: Gen): Result<(Gen, seq<nat>, Option<nat>)>
    decreases cs, 0
  {
    match cs
    case NoClauses => Ok((g, [], default))
    case Case(guard, _, rest) =>
      var g1 :- EmitExprs(guard, true, g.NewLabel().Emit(LoadLocal(slot)));
      var (g2, targets, d) :- EmitGuards(rest, slot, default, g1.Emit(JumpStrictEq(|g.labels|)));
      Ok((g2, [|g.labels|] + targets, d))
    case Default(_, rest) =>
      var (g2, targets, d) :- EmitGuards(rest, slot, Some(|g.labels|), g.NewLabel());
      Ok((g2, [|g.labels|] + targets, d))
  }

  function EmitClauses(cs: Clauses, targets: seq<nat>, g: Gen): Result<Gen>
    decreases cs, 0
  {
    match cs
    case NoClauses => Ok(g)
    case _ =>
      if targets == [] then Fatal
      else
        var g1 :- EmitItems(cs.stmts, g.Mark(targets[0]));
        EmitClauses(cs.rest, targets[1..], g1)
  }

  // ---- Functions ----

  /** Every variable slot has a local, which the prolog sets to undefined. */
  function Prolog(slots: nat, g: Gen): Gen {
    if slots == 0 then g else Prolog(slots - 1, g).Emit(LoadUndefined).Emit(StoreLocal(slots - 1))
  }

  function Start(slots: nat): Gen {
    Gen([], slots, [], [], [], [], [], 0, None)
  }

  /** The return undefined at the end, and the place returns from exception blocks leave for. */
  function Epilog(g: Gen): Gen {
    var g1 := g.Emit(LoadUndefined).Emit(ReturnIr);
    if g1.ret.None? then g1 else g1.Mark(g1.ret.value.at).Emit(LoadLocal(g1.ret.value.slot)).Emit(ReturnIr)
  }

  function EmitFunction(slots: nat, body: Items): Result<Gen> {
    var g :- EmitItems(body, Prolog(slots, Start(slots)));
    Ok(Epilog(g))
  }

  function Compile(slots: nat, body: Items): Result<IrBuilder.Block> {
    var g :- EmitFunction(slots, body);
    Ok(Build(g))
  }

  /** The code of a function that compiles. */
  function Compiled(slots: nat, body: Items): IrBuilder.Block {
    var r := Compile(slots, body);
    if r.Ok? then r.value else IrBuilder.Block([], 0, [])
  }
}
