/** Where a test goes, section 9.2 of ECMA-262 5.1: undefined, null and false are false, and true is true. */
module Tests {
  import opened Ast
  import opened Semantics
  import IrBuilder
  import Interpreter
  import Generator
  import Compilable
  import CompilerCorrect
  import Engine
  import opened Wrappers

  predicate IsFalse(v: Val) {
    v == Undefined || v == Null || v == Bool(false)
  }

  /** The machine: jumps go one way for a false operand and the other way for true, and negation exchanges them. */
  lemma JumpsDecide(ops: Ops, c: Interpreter.Config, target: nat)
    requires c.stack != [] && (IsFalse(c.Top()) || c.Top() == Bool(true))
    ensures var there, next := c.(ip := target, stack := c.Drop(1)), c.Past(c.Drop(1));
      && Interpreter.CallStmt(ops, IrBuilder.JumpFalse(target), c) == Interpreter.Advance(if IsFalse(c.Top()) then there else next)
      && Interpreter.CallStmt(ops, IrBuilder.JumpTrue(target), c) == Interpreter.Advance(if IsFalse(c.Top()) then next else there)
    ensures Interpreter.CallStmt(ops, IrBuilder.UnaryOp(IrBuilder.Not), c)
      == Interpreter.Advance(c.Past(c.Drop(1) + [Bool(IsFalse(c.Top()))]))
  {
  }

  /** Expressions: which operand is evaluated. */
  lemma OperandsDecide(ops: Ops, l: Expr, r: Expr, other: Expr, st: Store)
    requires var e := Eval(ops, l, st); e.Value? && (IsFalse(e.v) || e.v == Bool(true))
    ensures var e := Eval(ops, l, st);
      && Eval(ops, And(l, r), st) == (if IsFalse(e.v) then e else Eval(ops, r, e.st))
      && Eval(ops, Or(l, r), st) == (if IsFalse(e.v) then Eval(ops, r, e.st) else e)
      && Eval(ops, Ternary(l, r, other), st) == Eval(ops, if IsFalse(e.v) then other else r, e.st)
      && Eval(ops, Unary(OpNot, l), st) == Value(Bool(IsFalse(e.v)), e.st)
  {
  }

  /** Statements: which part is executed, and when a loop ends. */
  lemma BranchesDecide(ops: Ops, d: Dialect, cond: Exprs, a: Item, b: Item, st: Store, fuel: nat)
    requires var e := EvalSeq(ops, cond, st); e.Value? && (IsFalse(e.v) || e.v == Bool(true))
    ensures var e := EvalSeq(ops, cond, st);
      && Exec(ops, d, If(cond, a, Some(b)), st, fuel) == Exec(ops, d, if IsFalse(e.v) then b else a, e.st, fuel)
      && Exec(ops, d, If(cond, a, None), st, fuel) == if IsFalse(e.v) then Done(Normal, e.st) else Exec(ops, d, a, e.st, fuel)
  {
  }

  lemma WhileDecides(ops: Ops, d: Dialect, tag: Option<Label>, test: Expr, body: Item, st: Store, fuel: nat, less: nat)
    requires fuel == less + 1
    requires var e := Eval(ops, test, st); e.Value? && (IsFalse(e.v) || e.v == Bool(true))
    ensures var e := Eval(ops, test, st);
      var r := Exec(ops, d, body, e.st, fuel);
      && (IsFalse(e.v) ==> ExecWhile(ops, d, tag, test, body, st, fuel) == Done(Normal, e.st))
      && (!IsFalse(e.v) && r.o.Normal? ==>
            ExecWhile(ops, d, tag, test, body, st, fuel) == ExecWhile(ops, d, tag, test, body, r.st, less))
  {
    hide Exec, Eval;
  }

  lemma ForDecides(ops: Ops, d: Dialect, tag: Option<Label>, test: Exprs, body: Item, st: Store, fuel: nat, less: nat)
    requires fuel == less + 1
    requires var e := EvalSeq(ops, test, st); e.Value? && (IsFalse(e.v) || e.v == Bool(true))
    ensures var e := EvalSeq(ops, test, st);
      var r := Exec(ops, d, body, e.st, fuel);
      && (IsFalse(e.v) ==> ExecFor(ops, d, tag, Some(test), None, body, st, fuel) == Done(Normal, e.st))
      && (!IsFalse(e.v) && r.o.Normal? ==>
            ExecFor(ops, d, tag, Some(test), None, body, st, fuel) == ExecFor(ops, d, tag, Some(test), None, body, r.st, less))
  {
    hide Exec, EvalSeq;
  }

  lemma DoDecides(ops: Ops, d: Dialect, tag: Option<Label>, test: Expr, body: Item, st: Store, fuel: nat, less: nat)
    requires fuel == less + 1
    requires var r := Exec(ops, d, body, st, fuel);
      r.o.Normal? && var e := Eval(ops, test, r.st); e.Value? && (IsFalse(e.v) || e.v == Bool(true))
    ensures var e := Eval(ops, test, Exec(ops, d, body, st, fuel).st);
      ExecDo(ops, d, tag, test, body, st, fuel)
        == if IsFalse(e.v) then Done(Normal, e.st) else ExecDo(ops, d, tag, test, body, e.st, less)
  {
    hide Exec, Eval;
  }

  // ---- Targets in parentheses ----

  /** A name in parentheses is assigned to and counted like the name. */
  lemma ParenthesizedName(slot: nat, op: Option<BinaryOp>, rhs: Expr, how: IncrOp, leave: bool, g: IrBuilder.Gen,
          ops: Ops, st: Store)
    ensures var x := Paren(Last(Ident(slot)));
      && Generator.EmitExpr(Assign(op, x, rhs), leave, g) == Generator.EmitExpr(Assign(op, Ident(slot), rhs), leave, g)
      && Generator.EmitExpr(Incr(how, x), leave, g) == Generator.EmitExpr(Incr(how, Ident(slot)), leave, g)
      && Eval(ops, Assign(op, x, rhs), st) == Eval(ops, Assign(op, Ident(slot), rhs), st)
      && Eval(ops, Incr(how, x), st) == Eval(ops, Incr(how, Ident(slot)), st)
  {
  }

  // ---- A whole function ----

  function Answer(i: int): Item {
    Return(Some(Last(Literal(LitLong(i)))))
  }

  /** if (x) return 1; return 2 */
  function IfAssigned(): Items {
    Cons(If(Last(Ident(0)), Answer(1), None), Cons(Answer(2), Nil))
  }

  /** A variable that was never assigned does not pass a test: the function answers 2. */
  method UnassignedIsFalse(ops: Ops, slots: nat, w: World,
          budget: nat) returns (r: Generator.Result<Interpreter.Status>)
    requires slots > 0
    ensures r.Ok? && (r.value.Running? || (r.value.Returns? && r.value.v == Num(2.0)))
  {
    hide IfAssigned, Compilable.AllTargeted, ExecFunction;
    IfAssignedCompiles(slots);
    r := Engine.RunFunction(ops, slots, IfAssigned(), w, budget);
    forall fuel: nat
      ensures ExecFunction(ops, Engine, slots, IfAssigned(), w, fuel).o == Returned(Num(2.0))
    {
      IfAssignedAnswers(ops, slots, w, fuel);
    }
  }

  lemma IfAssignedCompiles(slots: nat)
    requires slots > 0
    ensures Compilable.AllTargeted(IfAssigned(), [], []) && ItemsSlots(IfAssigned(), slots)
  {
    var rest := Cons(Answer(2), Nil);
    assert ItemsSlots(rest, slots) by {
      assert ItemSlots(Answer(2), slots) && ItemsSlots(Nil, slots);
    }
    assert ExprsSlots(Last(Literal(LitLong(1))), slots) && ExprsSlots(Last(Literal(LitLong(2))), slots);
    assert ItemSlots(Answer(1), slots) && ExprsSlots(Last(Ident(0)), slots);
    assert ItemSlots(If(Last(Ident(0)), Answer(1), None), slots);
  }

  lemma IfAssignedAnswers(ops: Ops, slots: nat, w: World, fuel: nat)
    requires slots > 0
    ensures ExecFunction(ops, Engine, slots, IfAssigned(), w, fuel).o == Returned(Num(2.0))
  {
    var st := AtEntry(slots, w);
    var cond := Last(Ident(0));
    assert EvalSeq(ops, cond, st) == Value(Undefined, st);
    assert Exec(ops, Engine, If(cond, Answer(1), None), st, fuel) == Done(Normal, st);
    AnswersTwo(ops, st, fuel);
    var rest := Cons(Answer(2), Nil);
    assert ExecAll(ops, Engine, rest, st, fuel) == Done(Returned(Num(2.0)), st);
    assert ExecAll(ops, Engine, Cons(If(cond, Answer(1), None), rest), st, fuel) == Done(Returned(Num(2.0)), st);
  }

  lemma AnswersTwo(ops: Ops, st: Store, fuel: nat)
    ensures Exec(ops, Engine, Answer(2), st, fuel) == Done(Returned(Num(2.0)), st)
  {
    assert EvalSeq(ops, Last(Literal(LitLong(2))), st) == Eval(ops, Literal(LitLong(2)), st) == Value(Num(2.0), st);
  }
}
