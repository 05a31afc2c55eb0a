/** The interpreter loop for the fragment's instructions. */
module Interpreter {
  import opened Ast
  import opened ExceptionTable
  import opened IrBuilder
  import opened Semantics
  import opened Wrappers

  /** A frame in flight. The operand stack is unbounded. */
  datatype Config = Config(ip: nat, stack: seq<Val>, locals: seq<Val>, w: World, thrown: Option<Val>) {
    function Push(v: Val): Config {
      this.(ip := ip + 1, stack := stack + [v])
    }

    /** At the next instruction with other operands. */
    function Past(operands: seq<Val>): Config {
      this.(ip := ip + 1, stack := operands)
    }

    function Top(): Val {
      if stack == [] then Undefined else stack[|stack| - 1]
    }

    function Drop(k: int): seq<Val> {
      if 0 <= k <= |stack| then stack[..|stack| - k] else []
    }
  }

  datatype Machine = Machine(ops: Ops, block: IrBuilder.Block)

  datatype Next =
    | Advance(c: Config)
    | Answer(v: Val, c: Config)
    | Throwing(v: Val, c: Config)
    | Leaving(target: nat, c: Config)
    | Panic

  function BinaryRuns(ops: Ops, op: BinaryIr, a: Val, b: Val, w: World): Res {
    match op
    case Add => ops.apply(PAdd, [a, b], w)
    case BitAnd => ops.apply(PBitAnd, [a, b], w)
    case BitOr => ops.apply(PBitOr, [a, b], w)
    case BitXOr => ops.apply(PBitXOr, [a, b], w)
    case Divide => ops.apply(PDivide, [a, b], w)
    case Eq => ops.apply(PEq, [a, b], w)
    case Ge => ops.apply(PGe, [a, b], w)
    case Gt => ops.apply(PGt, [a, b], w)
    case In => ops.apply(PIn, [a, b], w)
    case InstanceOf => ops.apply(PInstanceOf, [a, b], w)
    case Le => ops.apply(PLe, [a, b], w)
    case Lsh => ops.apply(PLsh, [a, b], w)
    case Lt => ops.apply(PLt, [a, b], w)
    case Modulus => ops.apply(PModulus, [a, b], w)
    case Multiply => ops.apply(PMultiply, [a, b], w)
    case Ne => ops.apply(PNe, [a, b], w)
    case Rsh => ops.apply(PRsh, [a, b], w)
    case RshZeroFill => ops.apply(PRshZeroFill, [a, b], w)
    case StrictEq => Ok(Bool(ops.strictEq(a, b)), w)
    case StrictNe => Ok(Bool(!ops.strictEq(a, b)), w)
    case Subtract => ops.apply(PSubtract, [a, b], w)
  }

  function UnaryRuns(ops: Ops, op: UnaryIr, a: Val, w: World): Res {
    match op
    case BitNot => ops.apply(PBitNot, [a], w)
    case Negative => ops.apply(PNegative, [a], w)
    case Not => Ok(Bool(!ops.ToBoolean(a)), w)
    case Positive => ops.apply(PPositive, [a], w)
    case ToBoolean => Ok(Bool(ops.ToBoolean(a)), w)
    case ToNumber => ops.apply(PToNumber, [a], w)
    case Typeof => ops.apply(PTypeof, [a], w)
  }

  /** The operands of an operator that throws stay on the stack. */
  function Operate(r: Res, operands: nat, c: Config): Next {
    match r
    case Ok(v, w) => Advance(c.(ip := c.ip + 1, stack := c.Drop(operands) + [v], w := w))
    case Err(v, w) => Throwing(v, c.(w := w))
  }

  function Branch(jump: bool, operands: nat, target: nat, c: Config): Next {
    Advance(c.(ip := if jump then target else c.ip + 1, stack := c.Drop(operands)))
  }

  /** One instruction. Reading below the stack or past the locals counts as a panic. */
  function CallStmt(ops: Ops, i: Ir, c: Config): Next {
    match i
    case BinaryOp(op) =>
      if |c.stack| < 2 then Panic
      else Operate(BinaryRuns(ops, op, c.stack[|c.stack| - 2], c.Top(), c.w), 2, c)
    case UnaryOp(op) => if c.stack == [] then Panic else Operate(UnaryRuns(ops, op, c.Top(), c.w), 1, c)
    case Nop => Advance(c.(ip := c.ip + 1))
    case Dup => if c.stack == [] then Panic else Advance(c.Push(c.Top()))
    case Jump(target) => Advance(c.(ip := target))
    case JumpStrictEq(target) =>
      if |c.stack| < 2 then Panic else Branch(ops.strictEq(c.stack[|c.stack| - 2], c.Top()), 2, target, c)
    case JumpFalse(target) => if c.stack == [] then Panic else Branch(!ops.ToBoolean(c.Top()), 1, target, c)
    case JumpTrue(target) => if c.stack == [] then Panic else Branch(ops.ToBoolean(c.Top()), 1, target, c)
    case Leave(target) => Leaving(target, c)
    case LoadException => if c.thrown.None? then Panic else Advance(c.Push(c.thrown.value).(thrown := None))
    case LoadF64(f) => Advance(c.Push(Num(f)))
    case LoadFalse => Advance(c.Push(Bool(false)))
    case LoadI32(n) => Advance(c.Push(Num(n as real)))
    case LoadI64(n) => Advance(c.Push(Num(n as real)))
    case LoadLocal(slot) => if slot >= |c.locals| then Panic else Advance(c.Push(c.locals[slot]))
    case LoadNull => Advance(c.Push(Null))
    case LoadString(name) => Advance(c.Push(Str(name)))
    case LoadTrue => Advance(c.Push(Bool(true)))
    case LoadUndefined => Advance(c.Push(Undefined))
    case Pop => if c.stack == [] then Panic else Advance(c.(ip := c.ip + 1, stack := c.Drop(1)))
    case ReturnIr => if c.stack == [] then Panic else Answer(c.Top(), c)
    case StoreLocal(slot) =>
      if c.stack == [] || slot >= |c.locals| then Panic
      else Advance(c.(ip := c.ip + 1, stack := c.Drop(1), locals := c.locals[slot := c.Top()]))
    case ThrowIr => if c.stack == [] then Panic else Throwing(c.Top(), c.(stack := c.Drop(1)))
  }

  /** Where a Leave at `ip` goes: the first block whose body or handler holds it decides. No block of the fragment
      has a finally part, which would be entered first. */
  function LeaveTarget(table: seq<TryCatch>, ip: nat, target: nat): Option<nat> {
    if table == [] then None
    else if table[0].body.Contains(ip) || table[0].InHandler(ip) then
      Some(if table[0].finally.Some? then table[0].finally.value.start else target)
    else LeaveTarget(table[1..], ip, target)
  }

  /** How a call ends, with the locals and the world as they were then. */
  datatype Status =
    | Running(c: Config)
    | Returns(v: Val, locals: seq<Val>, w: World)
    | Throws(v: Val, locals: seq<Val>, w: World)
    | Panicked

  function Dispatch(table: seq<TryCatch>, next: Next): Status {
    match next
    case Advance(c) => Running(c)
    case Answer(v, c) => Returns(v, c.locals, c.w)
    case Throwing(v, c) =>
      var target := ThrowTarget(table, c.ip);
      if target.Some? then Running(c.(ip := target.value, thrown := Some(v))) else Throws(v, c.locals, c.w)
    case Leaving(target, c) =>
      var to := LeaveTarget(table, c.ip, target);
      if to.Some? then Running(c.(ip := to.value, thrown := None)) else Panicked
    case Panic => Panicked
  }

  function Step(m: Machine, c: Config): Status {
    if c.ip >= |m.block.ir| then Panicked else Dispatch(m.block.table, CallStmt(m.ops, m.block.ir[c.ip], c))
  }

  function Run(m: Machine, c: Config, n: nat): Status
    decreases n
  {
    if n == 0 then Running(c)
    else
      var s := Step(m, c);
      if s.Running? then Run(m, s.c, n - 1) else s
  }

  /** The frame a call starts with: no operands and all locals undefined. */
  function Initial(block: IrBuilder.Block, w: World): Config {
    Config(0, [], seq(block.locals, i => Undefined), w, None)
  }

  // ---- Runs ----

  lemma {:induction false} RunAdd(m: Machine, c: Config, i: nat, d: Config, j: nat)
    requires Run(m, c, i) == Running(d)
    ensures Run(m, c, i + j) == Run(m, d, j)
    decreases i
  {
    hide Step;
    if i > 0 {
      RunAdd(m, Step(m, c).c, i - 1, d, j);
    }
  }

  /** A run that is still going after j steps was still going before. */
  lemma {:induction false} RunShorter(m: Machine, c: Config, i: nat, j: nat)
    requires i <= j && Run(m, c, j).Running?
    ensures Run(m, c, i).Running?
    decreases i
  {
    hide Step;
    if i > 0 {
      RunShorter(m, Step(m, c).c, i - 1, j - 1);
    }
  }

  /** A run that has ended stays ended the same way. */
  lemma {:induction false} RunLonger(m: Machine, c: Config, i: nat, j: nat)
    requires i <= j && !Run(m, c, i).Running?
    ensures Run(m, c, j) == Run(m, c, i)
    decreases i
  {
    hide Step;
    if Step(m, c).Running? {
      RunLonger(m, Step(m, c).c, i - 1, j - 1);
    }
  }

  lemma RunOne(m: Machine, c: Config)
    ensures Run(m, c, 1) == Step(m, c)
  {
    hide Step;
    if Step(m, c).Running? {
      assert Run(m, Step(m, c).c, 0) == Step(m, c);
    }
  }
}
