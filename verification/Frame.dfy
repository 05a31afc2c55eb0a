/** The interpreter as it runs: a frame whose instruction pointer, operand stack, locals and thrown error are updated
    in place, and the loop that dispatches what each instruction asks for. */
module CallFrame {
  import opened Ast
  import opened ExceptionTable
  import opened IrBuilder
  import opened Semantics
  import Interpreter
  import opened Wrappers

  /** What an instruction asks the loop to do. */
  datatype Next = Next | Return | Throw(error: Val) | Leave(target: nat) | Panic

  class Frame {
    const ops: Ops
    const block: IrBuilder.Block
    var ip: nat
    var stack: seq<Val>
    var locals: seq<Val>
    var w: World
    var thrown: Option<Val>

    ghost function State(): Interpreter.Config
      reads this
    {
      Interpreter.Config(ip, stack, locals, w, thrown)
    }

    constructor (ops: Ops, block: IrBuilder.Block, w: World)
      ensures this.ops == ops && this.block == block && State() == Interpreter.Initial(block, w)
    {
      this.ops, this.block, this.w := ops, block, w;
      ip, stack, thrown := 0, [], None;
      locals := seq(block.locals, i => Undefined);
    }

    method Push(v: Val)
      modifies this`stack
      ensures stack == old(stack) + [v]
    {
      stack := stack + [v];
    }

    method DropTop(k: nat)
      requires k <= |stack|
      modifies this`stack
      ensures stack == old(stack[..|stack| - k])
    {
      stack := stack[..|stack| - k];
    }

    /** What the loop is asked for, together with the frame afterwards, is what the instruction means. */
    ghost predicate Means(next: Next, meaning: Interpreter.Next)
      reads this
    {
      match next
      case Next => meaning == Interpreter.Advance(State())
      case Return => stack != [] && meaning == Interpreter.Answer(stack[|stack| - 1], State())
      case Throw(e) => meaning == Interpreter.Throwing(e, State())
      case Leave(target) => meaning == Interpreter.Leaving(target, State())
      case Panic => meaning == Interpreter.Panic
    }

    /** The operands stay on the stack if the operator throws. */
    method Operate(r: Res, operands: nat) returns (next: Next)
      requires operands <= |stack|
      modifies this
      ensures Means(next, Interpreter.Operate(r, operands, old(State())))
    {
      w := r.w;
      if r.Err? {
        return Next.Throw(r.v);
      }
      DropTop(operands);
      Push(r.v);
      ip := ip + 1;
      return Next.Next;
    }

    method Load(v: Val) returns (next: Next)
      modifies this
      ensures Means(next, Interpreter.Advance(old(State()).Push(v)))
    {
      Push(v);
      ip := ip + 1;
      return Next.Next;
    }

    method Branch(jump: bool, operands: nat, target: nat) returns (next: Next)
      requires operands <= |stack|
      modifies this
      ensures Means(next, Interpreter.Branch(jump, operands, target, old(State())))
    {
      DropTop(operands);
      ip := if jump then target else ip + 1;
      return Next.Next;
    }

    method CallOperator(i: Ir) returns (next: Next)
      requires i.BinaryOp? || i.UnaryOp?
      modifies this
      ensures Means(next, Interpreter.CallStmt(ops, i, old(State())))
    {
      hide Interpreter.BinaryRuns, Interpreter.UnaryRuns;
      var n := |stack|;
      if i.BinaryOp? {
        if n < 2 { return Panic; }
        next := Operate(Interpreter.BinaryRuns(ops, i.b, stack[n - 2], stack[n - 1], w), 2);
      } else {
        if n < 1 { return Panic; }
        next := Operate(Interpreter.UnaryRuns(ops, i.u, stack[n - 1], w), 1);
      }
    }

    method CallJump(i: Ir) returns (next: Next)
      requires i.Jump? || i.JumpStrictEq? || i.JumpFalse? || i.JumpTrue?
      modifies this
      ensures Means(next, Interpreter.CallStmt(ops, i, old(State())))
    {
      var n := |stack|;
      if i.Jump? {
        ip := i.target;
        return Next.Next;
      } else if i.JumpStrictEq? {
        if n < 2 { return Panic; }
        next := Branch(ops.strictEq(stack[n - 2], stack[n - 1]), 2, i.target);
      } else {
        if n < 1 { return Panic; }
        next := Branch(ops.ToBoolean(stack[n - 1]) == i.JumpTrue?, 1, i.target);
      }
    }

    method CallLoad(i: Ir) returns (next: Next)
      requires i.LoadF64? || i.LoadFalse? || i.LoadI32? || i.LoadI64? || i.LoadLocal? || i.LoadNull? || i.LoadString? || i.LoadTrue? || i.LoadUndefined?
      modifies this
      ensures Means(next, Interpreter.CallStmt(ops, i, old(State())))
    {
      match i
      case LoadF64(f) => next := Load(Num(f));
      case LoadFalse => next := Load(Bool(false));
      case LoadI32(k) => next := Load(Num(k as real));
      case LoadI64(k) => next := Load(Num(k as real));
      case LoadLocal(slot) =>
        if slot >= |locals| { return Panic; }
        next := Load(locals[slot]);
      case LoadNull => next := Load(Null);
      case LoadString(name) => next := Load(Str(name));
      case LoadTrue => next := Load(Bool(true));
      case LoadUndefined => next := Load(Undefined);
    }

    /** One instruction. */
    method CallStmt(i: Ir) returns (next: Next)
      modifies this
      ensures Means(next, Interpreter.CallStmt(ops, i, old(State())))
    {
      hide Interpreter.BinaryRuns, Interpreter.UnaryRuns;
      var n := |stack|;
      match i
      case BinaryOp(_) => next := CallOperator(i);
      case UnaryOp(_) => next := CallOperator(i);
      case Jump(_) => next := CallJump(i);
      case JumpStrictEq(_) => next := CallJump(i);
      case JumpFalse(_) => next := CallJump(i);
      case JumpTrue(_) => next := CallJump(i);
      case Nop =>
        ip := ip + 1;
        return Next.Next;
      case Dup =>
        if n < 1 { return Panic; }
        next := Load(stack[n - 1]);
      case Leave(target) => return Next.Leave(target);
      case LoadException =>
        if thrown.None? { return Panic; }
        var error := thrown.value;
        thrown := None;
        next := Load(error);
      case Pop =>
        if n < 1 { return Panic; }
        DropTop(1);
        ip := ip + 1;
        return Next.Next;
      case ReturnIr =>
        if n < 1 { return Panic; }
        return Next.Return;
      case StoreLocal(slot) =>
        if n < 1 || slot >= |locals| { return Panic; }
        locals := locals[slot := stack[n - 1]];
        DropTop(1);
        ip := ip + 1;
        return Next.Next;
      case ThrowIr =>
        if n < 1 { return Panic; }
        var error := stack[n - 1];
        DropTop(1);
        return Next.Throw(error);
      case _ => next := CallLoad(i);
    }

    /** Walks the table for the block that takes an error thrown at `ip`, and goes there. */
    method GoToHandler() returns (found: bool)
      modifies this`ip
      ensures var target := ThrowTarget(block.table, old(ip));
        found == target.Some? && ip == if target.Some? then target.value else old(ip)
    {
      var k := 0;
      while k < |block.table|
        invariant k <= |block.table| && ip == old(ip)
        invariant ThrowTarget(block.table, ip) == ThrowTarget(block.table[k..], ip)
      {
        var e := block.table[k];
        if e.body.Contains(ip) {
          ip := if e.handler.Some? then e.handler.value.start else if e.finally.Some? then e.finally.value.start else 0;
          return true;
        }
        if e.handler.Some? && e.handler.value.Contains(ip) && e.finally.Some? {
          ip := e.finally.value.start;
          return true;
        }
        k := k + 1;
      }
      return false;
    }

    /** Walks the table for the block whose body or handler is being left, and leaves it. */
    method GoToLeave(target: nat) returns (found: bool)
      modifies this`ip
      ensures var to := Interpreter.LeaveTarget(block.table, old(ip), target);
        found == to.Some? && ip == if to.Some? then to.value else old(ip)
    {
      var k := 0;
      while k < |block.table|
        invariant k <= |block.table| && ip == old(ip)
        invariant Interpreter.LeaveTarget(block.table, ip, target) == Interpreter.LeaveTarget(block.table[k..], ip, target)
      {
        var e := block.table[k];
        if e.body.Contains(ip) || e.InHandler(ip) {
          ip := if e.finally.Some? then e.finally.value.start else target;
          return true;
        }
        k := k + 1;
      }
      return false;
    }

    /** One turn of the loop; `ended` is how the call ends, if it does. */
    method Turn() returns (ended: Option<Interpreter.Status>)
      modifies this
      ensures Interpreter.Step(Interpreter.Machine(ops, block), old(State()))
        == if ended.Some? then ended.value else Interpreter.Running(State())
      ensures ended.Some? ==> !ended.value.Running?
    {
      hide Interpreter.CallStmt, ThrowTarget, Interpreter.LeaveTarget;
      if ip >= |block.ir| {
        return Some(Interpreter.Panicked);
      }
      var next := CallStmt(block.ir[ip]);
      match next
      case Next => return None;
      case Return => return Some(Interpreter.Returns(stack[|stack| - 1], locals, w));
      case Throw(error) =>
        var found := GoToHandler();
        if !found {
          return Some(Interpreter.Throws(error, locals, w));
        }
        thrown := Some(error);
        return None;
      case Leave(target) =>
        var found := GoToLeave(target);
        if !found {
          return Some(Interpreter.Panicked);
        }
        thrown := None;
        return None;
      case Panic => return Some(Interpreter.Panicked);
    }

    /** The loop of a call, for at most `budget` instructions: it runs the block exactly as the step function
        says. */
    method CallBlock(budget: nat) returns (status: Interpreter.Status)
      modifies this
      ensures status == Interpreter.Run(Interpreter.Machine(ops, block), old(State()), budget)
      ensures status.Running? ==> status.c == State()
    {
      hide Interpreter.Step;
      ghost var m := Interpreter.Machine(ops, block);
      var left: nat := budget;
      while left > 0
        invariant left <= budget
        invariant Interpreter.Run(m, old(State()), budget) == Interpreter.Run(m, State(), left)
      {
        var ended := Turn();
        if ended.Some? {
          return ended.value;
        }
        left := left - 1;
      }
      return Interpreter.Running(Interpreter.Config(ip, stack, locals, w, thrown));
    }
  }
}
