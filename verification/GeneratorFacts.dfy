/** What emitting code never disturbs, and what follows for the finished block. */
module GeneratorFacts {
  import opened Ast
  import opened ExceptionTable
  import opened IrBuilder
  import opened Generator
  import opened Wrappers

  /** Records appended to the table lie within the code emitted meanwhile and have a handler and no finally. */
  ghost predicate NewRecords(a: Gen, b: Gen) {
    a.table <= b.table
    && forall k: nat {:trigger b.table[k]} :: |a.table| <= k < |b.table| ==>
         |a.ir| <= b.table[k].body.start && b.table[k].body.end <= |b.ir| && b.table[k].finally.None? && b.table[k].handler.Some?
  }

  /** The return target is made once, from a fresh label and a fresh local. */
  ghost predicate KeepsReturn(a: Gen, b: Gen) {
    a.ret == b.ret
    || (a.ret.None? && b.ret.Some? && |a.labels| <= b.ret.value.at < |b.labels| && a.locals <= b.ret.value.slot < b.locals)
  }

  /** Generator state `b` comes after `a`: code is only appended, and of the labels `a` has, those from `lo` on are
      not marked again. */
  ghost predicate Grown(a: Gen, b: Gen, lo: int) {
    && a.ir <= b.ir && a.locals <= b.locals && |a.labels| <= |b.labels|
    && (forall l: nat {:trigger b.labels[l]} :: lo <= l < |a.labels| ==> b.labels[l] == a.labels[l])
    && NewRecords(a, b) && KeepsReturn(a, b)
  }

  /** The surroundings are as before: targets, open exception blocks and depth. */
  ghost predicate Restored(a: Gen, b: Gen) {
    b.open == a.open && b.breaks == a.breaks && b.continues == a.continues && b.depth == a.depth
  }

  /** Only code, locals and labels were added. */
  ghost predicate OnlyCode(a: Gen, b: Gen) {
    Grown(a, b, 0) && Restored(a, b) && b.table == a.table && b.ret == a.ret
  }

  lemma GrownTrans(a: Gen, b: Gen, c: Gen, lo: nat)
    requires Grown(a, b, lo) && Grown(b, c, lo)
    ensures Grown(a, c, lo)
  {
    forall l: nat | lo <= l < |a.labels|
      ensures c.labels[l] == a.labels[l]
    {
      assert b.labels[l] == a.labels[l];
    }
    TableTrans(a, b, c);
  }

  lemma TableTrans(a: Gen, b: Gen, c: Gen)
    requires NewRecords(a, b) && NewRecords(b, c) && |a.ir| <= |b.ir| <= |c.ir|
    ensures NewRecords(a, c)
  {
    forall k: nat {:trigger c.table[k]} | |a.table| <= k < |c.table|
      ensures |a.ir| <= c.table[k].body.start && c.table[k].body.end <= |c.ir| && c.table[k].finally.None?
      ensures c.table[k].handler.Some?
    {
      if k < |b.table| {
        assert c.table[k] == b.table[k];
      }
    }
  }

  lemma GrownFrom(a: Gen, b: Gen, lo: nat, lo': nat)
    requires Grown(a, b, lo) && lo <= lo'
    ensures Grown(a, b, lo')
  {
  }

  lemma CodeTrans(a: Gen, b: Gen, c: Gen)
    requires OnlyCode(a, b) && OnlyCode(b, c)
    ensures OnlyCode(a, c)
  {
    hide Grown;
    GrownTrans(a, b, c, 0);
  }

  // ---- The builder's single steps ----

  lemma EmitGrown(g: Gen, i: Ir)
    ensures OnlyCode(g, g.Emit(i))
  {
  }

  lemma LabelGrown(g: Gen)
    ensures OnlyCode(g, g.NewLabel())
  {
  }

  lemma LocalGrown(g: Gen)
    ensures OnlyCode(g, g.NewLocal())
  {
  }

  /** Marking a label the earlier state did not have yet. */
  lemma MarkLater(a: Gen, g: Gen, l: nat)
    requires OnlyCode(a, g) && l >= |a.labels|
    ensures OnlyCode(a, g.Mark(l))
  {
  }

  // ---- Expressions ----

  lemma {:induction false} EmitExprGrown(e: Expr, leave: bool, g: Gen)
    requires EmitExpr(e, leave, g).Ok?
    ensures OnlyCode(g, Generator.After(EmitExpr(e, leave, g), g))
    decreases e, 1
  {
    hide OnlyCode;
    match e
    case Literal(lit) =>
      EmitGrown(g, LiteralIr(lit));
      OnlyCodeSelf(g);
    case Ident(slot) =>
      EmitGrown(g, LoadLocal(slot));
      PopGrown(g, g.Emit(LoadLocal(slot)), leave);
    case Assign(op, lhs, rhs) =>
      AssignGrown(e, leave, g);
    case Binary(op, l, r) =>
      var g1 := EmitExpr(l, true, g).value;
      EmitExprGrown(l, true, g);
      var g2 := EmitExpr(r, true, g1).value;
      EmitExprGrown(r, true, g1);
      CodeTrans(g, g1, g2);
      StepGrown(g, g2, Ir.BinaryOp(OpIr(op)));
      PopGrown(g, g2.Emit(Ir.BinaryOp(OpIr(op))), leave);
    case And(_, _) =>
      LogicalGrown(e, leave, g);
    case Or(_, _) =>
      LogicalGrown(e, leave, g);
    case Ternary(t, a, b) =>
      TernaryGrown(e, leave, g);
    case Paren(es) =>
      EmitExprsGrown(es, leave, g);
    case Unary(op, x) =>
      EmitExprGrown(x, true, g);
      UnaryGrown(op, leave, g, EmitExpr(x, true, g).value);
    case Incr(op, x) =>
      IncrGrown(op, UnwrapParen(x).slot, leave, g);
  }

  lemma OnlyCodeSelf(g: Gen)
    ensures OnlyCode(g, g)
  {
  }

  lemma StepGrown(a: Gen, g: Gen, i: Ir)
    requires OnlyCode(a, g)
    ensures OnlyCode(a, g.Emit(i))
  {
    hide OnlyCode;
    EmitGrown(g, i);
    CodeTrans(a, g, g.Emit(i));
  }

  lemma PopGrown(a: Gen, g: Gen, leave: bool)
    requires OnlyCode(a, g)
    ensures OnlyCode(a, PopUnless(leave, g))
  {
    hide OnlyCode;
    StepGrown(a, g, Pop);
  }

  lemma {:induction false} AssignGrown(e: Expr, leave: bool, g: Gen)
    requires e.Assign? && EmitExpr(e, leave, g).Ok?
    ensures OnlyCode(g, Generator.After(EmitExpr(e, leave, g), g))
    decreases e, 0
  {
    hide OnlyCode;
    var op, slot := e.op, UnwrapParen(e.lhs).slot;
    var g1 := if op.None? then g else g.Emit(LoadLocal(slot));
    var g2 := EmitExpr(e.rhs, true, g1).value;
    OnlyCodeSelf(g);
    EmitGrown(g, LoadLocal(slot));
    EmitExprGrown(e.rhs, true, g1);
    CodeTrans(g, g1, g2);
    if op.Some? {
      StepGrown(g, g2, Ir.BinaryOp(OpIr(op.value)));
    }
    var g3 := if op.None? then g2 else g2.Emit(Ir.BinaryOp(OpIr(op.value)));
    StepGrown(g, g3, Dup);
    StepGrown(g, DupIf(leave, g3), StoreLocal(slot));
  }

  lemma {:induction false} LogicalGrown(e: Expr, leave: bool, g: Gen)
    requires (e.And? || e.Or?) && EmitLogical(e, leave, g).Ok?
    ensures OnlyCode(g, Generator.After(EmitLogical(e, leave, g), g))
    decreases e, 0
  {
    hide OnlyCode;
    var after := |g.labels|;
    var g0 := g.NewLabel();
    LabelGrown(g);
    var g1 := EmitExpr(e.left, true, g0).value;
    EmitExprGrown(e.left, true, g0);
    CodeTrans(g, g0, g1);
    var jump := if e.And? then JumpFalse(after) else JumpTrue(after);
    StepGrown(g, g1, Dup);
    StepGrown(g, g1.Emit(Dup), Ir.UnaryOp(ToBoolean));
    StepGrown(g, g1.Emit(Dup).Emit(Ir.UnaryOp(ToBoolean)), jump);
    var g2 := g1.Emit(Dup).Emit(Ir.UnaryOp(ToBoolean)).Emit(jump).Emit(Pop);
    StepGrown(g, g1.Emit(Dup).Emit(Ir.UnaryOp(ToBoolean)).Emit(jump), Pop);
    var g3 := EmitExpr(e.right, true, g2).value;
    EmitExprGrown(e.right, true, g2);
    CodeTrans(g, g2, g3);
    MarkLater(g, g3, after);
    PopGrown(g, g3.Mark(after), leave);
  }

  lemma {:induction false} TestGrown(e: Expr, at: nat, inverse: bool, g: Gen)
    requires EmitTest(e, at, inverse, g).Ok?
    ensures OnlyCode(g, Generator.After(EmitTest(e, at, inverse, g), g))
    decreases e, 2
  {
    hide OnlyCode;
    EmitExprGrown(e, true, g);
    StepGrown(g, EmitExpr(e, true, g).value, if inverse then JumpFalse(at) else JumpTrue(at));
  }

  lemma {:induction false} TernaryGrown(e: Expr, leave: bool, g: Gen)
    requires e.Ternary? && EmitExpr(e, leave, g).Ok?
    ensures OnlyCode(g, Generator.After(EmitExpr(e, leave, g), g))
    decreases e, 0
  {
    hide OnlyCode;
    var els := |g.labels|;
    var g0 := g.NewLabel().NewLabel();
    LabelGrown(g);
    LabelGrown(g.NewLabel());
    CodeTrans(g, g.NewLabel(), g0);
    var g1 := EmitTest(e.test, els, true, g0).value;
    TestGrown(e.test, els, true, g0);
    CodeTrans(g, g0, g1);
    var g2 := EmitExpr(e.thn, leave, g1).value;
    EmitExprGrown(e.thn, leave, g1);
    CodeTrans(g, g1, g2);
    StepGrown(g, g2, Jump(els + 1));
    MarkLater(g, g2.Emit(Jump(els + 1)), els);
    var g3 := EmitExpr(e.els, leave, g2.Emit(Jump(els + 1)).Mark(els)).value;
    EmitExprGrown(e.els, leave, g2.Emit(Jump(els + 1)).Mark(els));
    CodeTrans(g, g2.Emit(Jump(els + 1)).Mark(els), g3);
    MarkLater(g, g3, els + 1);
  }

  lemma UnaryGrown(op: Ast.UnaryOp, leave: bool, g: Gen, g1: Gen)
    requires OnlyCode(g, g1)
    ensures forall u :: OnlyCode(g, PopUnless(leave, g1.Emit(Ir.UnaryOp(u))))
    ensures OnlyCode(g, g1.Emit(Pop)) && OnlyCode(g, g1.Emit(Pop).Emit(LoadUndefined))
  {
    hide OnlyCode;
    forall u
      ensures OnlyCode(g, PopUnless(leave, g1.Emit(Ir.UnaryOp(u))))
    {
      StepGrown(g, g1, Ir.UnaryOp(u));
      PopGrown(g, g1.Emit(Ir.UnaryOp(u)), leave);
    }
    StepGrown(g, g1, Pop);
    StepGrown(g, g1.Emit(Pop), LoadUndefined);
  }

  lemma IncrGrown(op: IncrOp, slot: nat, leave: bool, g: Gen)
    ensures OnlyCode(g, EmitIncr(op, slot, leave, g))
  {
    hide OnlyCode;
    var step := Ir.BinaryOp(if op == PreIncr || op == PostIncr then Add else Subtract);
    var temp := g.locals;
    EmitGrown(g, LoadLocal(slot));
    var g1 := g.Emit(LoadLocal(slot)).Emit(Ir.UnaryOp(ToNumber));
    StepGrown(g, g.Emit(LoadLocal(slot)), Ir.UnaryOp(ToNumber));
    if !leave {
      Steps3(g, g1, LoadI32(1), step, StoreLocal(slot));
    } else {
      var g2 := g1.NewLocal();
      LocalGrown(g1);
      CodeTrans(g, g1, g2);
      if op == PreIncr || op == PreDecr {
        Steps3(g, g2, LoadI32(1), step, Dup);
        Steps3(g, g2.Emit(LoadI32(1)).Emit(step).Emit(Dup), StoreLocal(temp), StoreLocal(slot), LoadLocal(temp));
      } else {
        Steps3(g, g2, Dup, StoreLocal(temp), LoadI32(1));
        Steps3(g, g2.Emit(Dup).Emit(StoreLocal(temp)).Emit(LoadI32(1)), step, StoreLocal(slot), LoadLocal(temp));
      }
    }
  }

  lemma Steps3(a: Gen, g: Gen, i: Ir, j: Ir, k: Ir)
    requires OnlyCode(a, g)
    ensures OnlyCode(a, g.Emit(i).Emit(j).Emit(k))
  {
    hide OnlyCode;
    StepGrown(a, g, i);
    StepGrown(a, g.Emit(i), j);
    StepGrown(a, g.Emit(i).Emit(j), k);
  }

  lemma {:induction false} EmitExprsGrown(es: Exprs, leave: bool, g: Gen)
    requires EmitExprs(es, leave, g).Ok?
    ensures OnlyCode(g, Generator.After(EmitExprs(es, leave, g), g))
    decreases es, 3
  {
    hide OnlyCode;
    match es
    case Last(e) => EmitExprGrown(e, leave, g);
    case More(e, rest) =>
      var g1 := EmitExpr(e, false, g).value;
      EmitExprGrown(e, false, g);
      EmitExprsGrown(rest, leave, g1);
      CodeTrans(g, g1, EmitExprs(rest, leave, g1).value);
  }

  lemma {:induction false} EmitTestsGrown(es: Exprs, at: nat, inverse: bool, g: Gen)
    requires EmitTests(es, at, inverse, g).Ok?
    ensures OnlyCode(g, Generator.After(EmitTests(es, at, inverse, g), g))
    decreases es, 3
  {
    hide OnlyCode;
    match es
    case Last(e) => TestGrown(e, at, inverse, g);
    case More(e, rest) =>
      var g1 := EmitExpr(e, false, g).value;
      EmitExprGrown(e, false, g);
      EmitTestsGrown(rest, at, inverse, g1);
      CodeTrans(g, g1, EmitTests(rest, at, inverse, g1).value);
  }

  // ---- Statements ----

  lemma CodeIsGrown(a: Gen, b: Gen)
    requires OnlyCode(a, b)
    ensures Grown(a, b, 0) && Restored(a, b)
  {
  }

  lemma GrownSelf(g: Gen)
    ensures Grown(g, g, 0)
  {
  }

  lemma GrownEmit(a: Gen, g: Gen, i: Ir)
    requires Grown(a, g, 0)
    ensures Grown(a, g.Emit(i), 0)
  {
    hide Grown;
    EmitGrown(g, i);
    CodeIsGrown(g, g.Emit(i));
    GrownTrans(a, g, g.Emit(i), 0);
  }

  lemma GrownLabel(a: Gen, g: Gen)
    requires Grown(a, g, 0)
    ensures Grown(a, g.NewLabel(), 0)
  {
    hide Grown;
    LabelGrown(g);
    CodeIsGrown(g, g.NewLabel());
    GrownTrans(a, g, g.NewLabel(), 0);
  }

  lemma GrownMark(a: Gen, g: Gen, l: nat)
    requires Grown(a, g, 0) && l >= |a.labels|
    ensures Grown(a, g.Mark(l), 0)
  {
  }

  lemma GrownPushes(a: Gen, g: Gen, name: Option<Label>)
    requires Grown(a, g, 0)
    ensures Grown(a, g.PushBreak(name), 0) && Grown(a, g.PushContinue(name), 0)
  {
    hide Grown;
    assert Grown(g, g.PushBreak(name), 0) && Grown(g, g.PushContinue(name), 0) by {
      LabelGrown(g);
      PushIsLabel(g, g.PushBreak(name), g.PushContinue(name));
    }
    GrownTrans(a, g, g.PushBreak(name), 0);
    GrownTrans(a, g, g.PushContinue(name), 0);
  }

  lemma PushIsLabel(g: Gen, b: Gen, c: Gen)
    requires OnlyCode(g, g.NewLabel())
    requires b == g.NewLabel().(breaks := b.breaks) && c == g.NewLabel().(continues := c.continues)
    ensures Grown(g, b, 0) && Grown(g, c, 0)
  {
  }

  lemma GrownPops(a: Gen, g: Gen)
    requires Grown(a, g, 0)
    ensures Grown(a, g.PopBreak(), 0) && Grown(a, g.PopContinue(), 0) && Grown(a, g.Exit(), 0) && Grown(a, g.Enter(), 0)
    ensures Grown(a, g.StartExceptionBlock(), 0) && Grown(a, g.StartCatch(), 0)
  {
  }

  lemma GrownCode(a: Gen, b: Gen, c: Gen)
    requires Grown(a, b, 0) && OnlyCode(b, c)
    ensures Grown(a, c, 0)
  {
    hide Grown;
    CodeIsGrown(b, c);
    GrownTrans(a, b, c, 0);
  }

  lemma {:induction false} EmitVarsGrown(vars: seq<Var>, g: Gen)
    requires EmitVars(vars, g).Ok?
    ensures OnlyCode(g, Generator.After(EmitVars(vars, g), g))
  {
    hide OnlyCode;
    if vars == [] {
      OnlyCodeSelf(g);
    } else if vars[0].init.None? {
      EmitVarsGrown(vars[1..], g);
    } else {
      var g1 := EmitExpr(vars[0].init.value, true, g).value;
      EmitExprGrown(vars[0].init.value, true, g);
      StepGrown(g, g1, StoreLocal(vars[0].slot));
      EmitVarsGrown(vars[1..], g1.Emit(StoreLocal(vars[0].slot)));
      CodeTrans(g, g1.Emit(StoreLocal(vars[0].slot)), EmitVars(vars, g).value);
    }
  }

  lemma EmitInitGrown(init: ForInit, g: Gen)
    requires EmitInit(init, g).Ok?
    ensures OnlyCode(g, Generator.After(EmitInit(init, g), g))
  {
    hide OnlyCode;
    match init
    case NoInit => OnlyCodeSelf(g);
    case ExprInit(es) => EmitExprsGrown(es, false, g);
    case VarInit(vars) => EmitVarsGrown(vars, g);
  }

  lemma ReturnGrown(a: Gen, g: Gen)
    requires Grown(a, g, 0) && Restored(a, g)
    ensures Grown(a, EmitReturn(g), 0) && Restored(a, EmitReturn(g))
  {
    hide Grown;
    if g.depth == 0 {
      GrownEmit(a, g, ReturnIr);
    } else {
      var g1 := if g.ret.Some? then g else g.NewLabel().NewLocal().(ret := Some(ReturnTarget(|g.labels|, g.locals)));
      if g.ret.None? {
        TargetMade(g);
      } else {
        GrownSelf(g);
      }
      GrownTrans(a, g, g1, 0);
      GrownEmit(a, g1, StoreLocal(g1.ret.value.slot));
      GrownEmit(a, g1.Emit(StoreLocal(g1.ret.value.slot)), Leave(g1.ret.value.at));
    }
  }

  lemma TargetMade(g: Gen)
    requires g.ret.None?
    ensures Grown(g, g.NewLabel().NewLocal().(ret := Some(ReturnTarget(|g.labels|, g.locals))), 0)
  {
  }

  /** A statement leaves the generator's surroundings as they were and only adds code. */
  lemma {:induction false} EmitItemGrown(s: Item, g: Gen)
    requires EmitItem(s, g).Ok?
    ensures Grown(g, Generator.After(EmitItem(s, g), g), 0) && Restored(g, Generator.After(EmitItem(s, g), g))
    decreases s, 2
  {
    hide Grown;
    match s
    case Block(name, stmts) =>
      if name.None? {
        EmitItemsGrown(stmts, g);
      } else {
        GrownSelf(g);
        GrownPushes(g, g, name);
        var g1 := EmitItems(stmts, g.PushBreak(name)).value;
        EmitItemsGrown(stmts, g.PushBreak(name));
        GrownTrans(g, g.PushBreak(name), g1, 0);
        GrownMark(g, g1, |g.labels|);
        GrownPops(g, g1.Mark(|g.labels|));
      }
    case Break(name) =>
      GrownSelf(g);
      var t := GetTarget(g.breaks, name).value;
      GrownEmit(g, g, if t.depth == g.depth then Jump(t.at) else Leave(t.at));
    case Continue(name) =>
      GrownSelf(g);
      var t := GetTarget(g.continues, name).value;
      GrownEmit(g, g, if t.depth == g.depth then Jump(t.at) else Leave(t.at));
    case Debugger =>
      GrownSelf(g);
      GrownEmit(g, g, Nop);
    case Do(_, _, _) => LoopGrown(s, g);
    case Empty => GrownSelf(g);
    case ExprStmt(es) =>
      EmitExprsGrown(es, false, g);
      CodeIsGrown(g, EmitItem(s, g).value);
    case For(_, _, _, _, _) => ForGrown(s, g);
    case If(_, _, _) => IfGrown(s, g);
    case Return(es) =>
      GrownSelf(g);
      if es.Some? {
        EmitExprsGrown(es.value, true, g);
        CodeIsGrown(g, EmitExprs(es.value, true, g).value);
        ReturnGrown(g, EmitExprs(es.value, true, g).value);
      } else {
        GrownEmit(g, g, LoadUndefined);
        ReturnGrown(g, g.Emit(LoadUndefined));
      }
    case Switch(_, _, _) => SwitchGrown(s, g);
    case Throw(es) =>
      EmitExprsGrown(es, true, g);
      CodeIsGrown(g, EmitExprs(es, true, g).value);
      GrownEmit(g, EmitExprs(es, true, g).value, ThrowIr);
    case Try(_, _, _) => TryGrown(s, g);
    case VarDecl(vars) =>
      EmitVarsGrown(vars, g);
      CodeIsGrown(g, EmitVars(vars, g).value);
    case While(_, _, _) => LoopGrown(s, g);
  }

  lemma {:induction false} EmitItemsGrown(ss: Items, g: Gen)
    requires EmitItems(ss, g).Ok?
    ensures Grown(g, Generator.After(EmitItems(ss, g), g), 0) && Restored(g, Generator.After(EmitItems(ss, g), g))
    decreases ss, 0
  {
    hide Grown;
    match ss
    case Nil => GrownSelf(g);
    case Cons(s, rest) =>
      var g1 := EmitItem(s, g).value;
      EmitItemGrown(s, g);
      EmitItemsGrown(rest, g1);
      GrownTrans(g, g1, EmitItems(rest, g1).value, 0);
  }

  /** The state in which the body of a loop is emitted. */
  function LoopStart(name: Option<Label>, g: Gen): Gen {
    g.PushBreak(name).PushContinue(name).NewLabel()
  }

  ghost predicate LoopTargets(g: Gen, a: Gen, tag: Option<Label>) {
    a.breaks == g.breaks + [NamedLabel(tag, |g.labels|, g.depth)] && a.continues == g.continues + [NamedLabel(tag, |g.labels| + 1, g.depth)]
  }

  lemma LoopStartGrown(name: Option<Label>, g: Gen)
    ensures Grown(g, LoopStart(name, g), 0)
    ensures LoopStart(name, g).open == g.open && LoopStart(name, g).depth == g.depth
    ensures LoopTargets(g, LoopStart(name, g), name)
    ensures |LoopStart(name, g).labels| == |g.labels| + 3 && LoopStart(name, g).ir == g.ir
  {
    hide Grown;
    GrownSelf(g);
    GrownPushes(g, g, name);
    GrownPushes(g, g.PushBreak(name), name);
    GrownLabel(g, g.PushBreak(name).PushContinue(name));
  }

  /** After the body and the test of a loop: mark the break label and drop the targets. */
  lemma LoopEndGrown(name: Option<Label>, g: Gen, g3: Gen)
    requires Grown(g, g3, 0) && Restored(LoopStart(name, g), g3)
    ensures Grown(g, g3.Mark(|g.labels|).PopBreak().PopContinue(), 0)
    ensures Restored(g, g3.Mark(|g.labels|).PopBreak().PopContinue())
  {
    hide Grown;
    GrownMark(g, g3, |g.labels|);
    GrownPops(g, g3.Mark(|g.labels|));
    GrownPops(g, g3.Mark(|g.labels|).PopBreak());
  }

  lemma {:induction false} LoopGrown(s: Item, g: Gen)
    requires (s.Do? || s.While?) && EmitItem(s, g).Ok?
    ensures Grown(g, Generator.After(EmitItem(s, g), g), 0) && Restored(g, Generator.After(EmitItem(s, g), g))
    decreases s, 1
  {
    hide Grown;
    var brk, cont, start := |g.labels|, |g.labels| + 1, |g.labels| + 2;
    var g0 := LoopStart(s.tag, g);
    LoopStartGrown(s.tag, g);
    GrownEmit(g, g0, Jump(cont));
    var g1 := (if s.While? then g0.Emit(Jump(cont)) else g0).Mark(start);
    GrownMark(g, if s.While? then g0.Emit(Jump(cont)) else g0, start);
    var g2 := EmitItem(s.body, g1).value;
    EmitItemGrown(s.body, g1);
    GrownTrans(g, g1, g2, 0);
    GrownMark(g, g2, cont);
    var g3 := EmitTest(s.test, start, false, g2.Mark(cont)).value;
    TestGrown(s.test, start, false, g2.Mark(cont));
    GrownCode(g, g2.Mark(cont), g3);
    LoopEndGrown(s.tag, g, g3);
  }

  lemma {:induction false} ForGrown(s: Item, g: Gen)
    requires s.For? && EmitItem(s, g).Ok?
    ensures Grown(g, Generator.After(EmitItem(s, g), g), 0) && Restored(g, Generator.After(EmitItem(s, g), g))
    decreases s, 1
  {
    hide Grown, OnlyCode;
    var brk, cont, check, start := |g.labels|, |g.labels| + 1, |g.labels| + 2, |g.labels| + 3;
    var g0 := LoopStart(s.tag, g).NewLabel();
    LoopStartGrown(s.tag, g);
    GrownLabel(g, LoopStart(s.tag, g));
    var g1 := EmitInit(s.init, g0).value;
    EmitInitGrown(s.init, g0);
    CodeIsGrown(g0, g1);
    GrownTrans(g, g0, g1, 0);
    GrownEmit(g, g1, Jump(check));
    GrownMark(g, g1.Emit(Jump(check)), start);
    var g2 := EmitItem(s.body, g1.Emit(Jump(check)).Mark(start)).value;
    EmitItemGrown(s.body, g1.Emit(Jump(check)).Mark(start));
    GrownTrans(g, g1.Emit(Jump(check)).Mark(start), g2, 0);
    GrownMark(g, g2, cont);
    var g4 := StepCode(s, g2.Mark(cont)).value;
    ForTailGrown(s, start, g, g2.Mark(cont), g4, TestCode(s, start, g4.Mark(check)).value);
  }

  function StepCode(s: Item, g: Gen): Result<Gen> {
    if s.For? && s.incr.Some? then EmitExprs(s.incr.value, false, g) else Ok(g)
  }

  function TestCode(s: Item, start: nat, g: Gen): Result<Gen> {
    if s.For? && s.ftest.Some? then EmitTests(s.ftest.value, start, false, g) else Ok(g.Emit(Jump(start)))
  }

  lemma ForTailGrown(s: Item, start: nat, g: Gen, g3: Gen, g4: Gen, g6: Gen)
    requires Grown(g, g3, 0) && Restored(LoopStart(TagOf(s), g), g3)
    requires StepCode(s, g3) == Ok(g4) && TestCode(s, start, g4.Mark(|g.labels| + 2)) == Ok(g6)
    ensures var g7 := g6.Mark(|g.labels|).PopBreak().PopContinue();
      Grown(g, g7, 0) && Restored(g, g7)
  {
    hide Grown, OnlyCode, EmitExprs, EmitTests;
    OnlyCodeSelf(g3);
    if s.For? && s.incr.Some? {
      EmitExprsGrown(s.incr.value, false, g3);
    }
    CodeIsGrown(g3, g4);
    GrownTrans(g, g3, g4, 0);
    var g5 := g4.Mark(|g.labels| + 2);
    GrownMark(g, g4, |g.labels| + 2);
    EmitGrown(g5, Jump(start));
    if s.For? && s.ftest.Some? {
      EmitTestsGrown(s.ftest.value, start, false, g5);
    }
    CodeIsGrown(g5, g6);
    GrownTrans(g, g5, g6, 0);
    LoopEndGrown(TagOf(s), g, g6);
  }

  lemma {:induction false} IfGrown(s: Item, g: Gen)
    requires s.If? && EmitItem(s, g).Ok?
    ensures Grown(g, Generator.After(EmitItem(s, g), g), 0) && Restored(g, Generator.After(EmitItem(s, g), g))
    decreases s, 1
  {
    hide Grown, OnlyCode;
    var els, after := |g.labels|, |g.labels| + 1;
    GrownSelf(g);
    GrownLabel(g, g);
    GrownLabel(g, g.NewLabel());
    var g0 := if s.els.Some? then g.NewLabel().NewLabel() else g.NewLabel();
    var g1 := EmitTests(s.cond, els, true, g0).value;
    EmitTestsGrown(s.cond, els, true, g0);
    CodeIsGrown(g0, g1);
    GrownTrans(g, g0, g1, 0);
    var g2 := EmitItem(s.thn, g1).value;
    EmitItemGrown(s.thn, g1);
    GrownTrans(g, g1, g2, 0);
    if s.els.Some? {
      GrownEmit(g, g2, Jump(after));
      GrownMark(g, g2.Emit(Jump(after)), els);
      var g3 := EmitItem(s.els.value, g2.Emit(Jump(after)).Mark(els)).value;
      EmitItemGrown(s.els.value, g2.Emit(Jump(after)).Mark(els));
      GrownTrans(g, g2.Emit(Jump(after)).Mark(els), g3, 0);
      GrownMark(g, g3, after);
    } else {
      GrownMark(g, g2, els);
    }
  }

  /** The state after the tests of a switch, and the labels of its clauses. */
  ghost function GuardsEnd(cs: Clauses, slot: nat, default: Option<nat>, g: Gen): Gen {
    match EmitGuards(cs, slot, default, g)
    case Ok(r) => r.0
    case Fatal => g
  }

  ghost function GuardLabels(cs: Clauses, slot: nat, default: Option<nat>, g: Gen): seq<nat> {
    match EmitGuards(cs, slot, default, g)
    case Ok(r) => r.1
    case Fatal => []
  }

  ghost predicate NotBelow(targets: seq<nat>, lo: int) {
    forall i: nat :: i < |targets| ==> targets[i] >= lo
  }

  lemma {:induction false} EmitGuardsGrown(cs: Clauses, slot: nat, default: Option<nat>, g: Gen)
    requires EmitGuards(cs, slot, default, g).Ok?
    ensures OnlyCode(g, GuardsEnd(cs, slot, default, g)) && NotBelow(GuardLabels(cs, slot, default, g), |g.labels|)
    decreases cs, 0
  {
    hide OnlyCode;
    match cs
    case NoClauses => OnlyCodeSelf(g);
    case Case(guard, _, rest) =>
      LabelGrown(g);
      StepGrown(g, g.NewLabel(), LoadLocal(slot));
      var g0 := g.NewLabel().Emit(LoadLocal(slot));
      var g1 := EmitExprs(guard, true, g0).value;
      EmitExprsGrown(guard, true, g0);
      CodeTrans(g, g0, g1);
      StepGrown(g, g1, JumpStrictEq(|g.labels|));
      var g2 := g1.Emit(JumpStrictEq(|g.labels|));
      EmitGuardsGrown(rest, slot, default, g2);
      CodeTrans(g, g2, EmitGuards(rest, slot, default, g2).value.0);
      MoreLabels(g, g2);
    case Default(_, rest) =>
      LabelGrown(g);
      EmitGuardsGrown(rest, slot, Some(|g.labels|), g.NewLabel());
      CodeTrans(g, g.NewLabel(), EmitGuards(rest, slot, Some(|g.labels|), g.NewLabel()).value.0);
  }

  lemma MoreLabels(a: Gen, b: Gen)
    requires OnlyCode(a, b)
    ensures |a.labels| <= |b.labels| && a.locals <= b.locals && |a.ir| <= |b.ir|
  {
  }

  lemma {:induction false} EmitClausesGrown(cs: Clauses, targets: seq<nat>, a: Gen, g: Gen)
    requires EmitClauses(cs, targets, g).Ok? && Grown(a, g, 0) && NotBelow(targets, |a.labels|)
    ensures Grown(a, Generator.After(EmitClauses(cs, targets, g), g), 0)
    ensures Restored(g, Generator.After(EmitClauses(cs, targets, g), g))
    decreases cs, 0
  {
    hide Grown;
    if !cs.NoClauses? {
      GrownMark(a, g, targets[0]);
      var g1 := EmitItems(cs.stmts, g.Mark(targets[0])).value;
      EmitItemsGrown(cs.stmts, g.Mark(targets[0]));
      GrownTrans(a, g.Mark(targets[0]), g1, 0);
      EmitClausesGrown(cs.rest, targets[1..], a, g1);
    }
  }

  lemma {:induction false} SwitchGrown(s: Item, g: Gen)
    requires s.Switch? && EmitItem(s, g).Ok?
    ensures Grown(g, Generator.After(EmitItem(s, g), g), 0) && Restored(g, Generator.After(EmitItem(s, g), g))
    decreases s, 1
  {
    hide Grown, OnlyCode;
    var brk, slot := |g.labels|, g.locals;
    GrownSelf(g);
    GrownPushes(g, g, s.tag);
    LocalGrown(g.PushBreak(s.tag));
    var g0 := g.PushBreak(s.tag).NewLocal();
    GrownCode(g, g.PushBreak(s.tag), g0);
    var g1 := EmitExprs(s.disc, true, g0).value;
    EmitExprsGrown(s.disc, true, g0);
    CodeIsGrown(g0, g1);
    GrownTrans(g, g0, g1, 0);
    GrownEmit(g, g1, StoreLocal(slot));
    var (g2, targets, default) := EmitGuards(s.clauses, slot, None, g1.Emit(StoreLocal(slot))).value;
    EmitGuardsGrown(s.clauses, slot, None, g1.Emit(StoreLocal(slot)));
    CodeIsGrown(g1.Emit(StoreLocal(slot)), g2);
    GrownTrans(g, g1.Emit(StoreLocal(slot)), g2, 0);
    var jump := Jump(if default.Some? then default.value else brk);
    GrownEmit(g, g2, jump);
    LabelsOnly(g0, g1);
    EmitClausesGrown(s.clauses, targets, g, g2.Emit(jump));
    var g3 := EmitClauses(s.clauses, targets, g2.Emit(jump)).value;
    GrownMark(g, g3, brk);
    GrownPops(g, g3.Mark(brk));
  }

  lemma LabelsOnly(a: Gen, b: Gen)
    requires OnlyCode(a, b)
    ensures |a.labels| <= |b.labels|
  {
  }

  /** The state in which the body of a try statement is emitted, and the one in which its handler is. */
  function TryStart(g: Gen): Gen {
    g.Enter().NewLabel().StartExceptionBlock()
  }

  function CatchStart(g1: Gen, after: nat, slot: nat): Gen {
    g1.Emit(Leave(after)).StartCatch().Emit(LoadException).Emit(StoreLocal(slot))
  }

  lemma TryStartGrown(g: Gen)
    ensures Grown(g, TryStart(g), 0)
    ensures TryStart(g).open == g.open + [TryCatch(IrRange(|g.ir|, 0), None, None)] && TryStart(g).ir == g.ir
    ensures TryStart(g).breaks == g.breaks && TryStart(g).continues == g.continues && TryStart(g).depth == g.depth + 1
    ensures |TryStart(g).labels| == |g.labels| + 1
  {
    hide Grown;
    GrownSelf(g);
    GrownPops(g, g);
    GrownLabel(g, g.Enter());
    GrownPops(g, g.Enter().NewLabel());
  }

  lemma CatchStartGrown(g: Gen, g1: Gen, after: nat, slot: nat)
    requires Grown(g, g1, 0) && Restored(TryStart(g), g1)
    ensures Grown(g, CatchStart(g1, after, slot), 0) && |CatchStart(g1, after, slot).ir| == |g1.ir| + 3
    ensures CatchStart(g1, after, slot).open == g.open + [TryCatch(IrRange(|g.ir|, |g1.ir| + 1), Some(IrRange(|g1.ir| + 1, 0)), None)]
    ensures CatchStart(g1, after, slot) == g1.(ir := g1.ir + [Leave(after), LoadException, StoreLocal(slot)], open := CatchStart(g1, after, slot).open)
  {
    hide Grown;
    GrownEmit(g, g1, Leave(after));
    GrownPops(g, g1.Emit(Leave(after)));
    GrownEmit(g, g1.Emit(Leave(after)).StartCatch(), LoadException);
    GrownEmit(g, g1.Emit(Leave(after)).StartCatch().Emit(LoadException), StoreLocal(slot));
  }

  lemma CodeGrows(a: Gen, b: Gen, lo: nat)
    requires Grown(a, b, lo)
    ensures |a.ir| <= |b.ir| && a.locals <= b.locals && |a.labels| <= |b.labels|
  {
  }

  lemma {:induction false} TryGrown(s: Item, g: Gen)
    requires s.Try? && EmitItem(s, g).Ok?
    ensures Grown(g, Generator.After(EmitItem(s, g), g), 0) && Restored(g, Generator.After(EmitItem(s, g), g))
    decreases s, 1
  {
    hide Grown, CatchStart, TryStart;
    var after, g0 := |g.labels|, TryStart(g);
    TryStartGrown(g);
    var g1, g2 := TryBody(s, s.stmts, s.catchSlot, s.handler, after, g);
    EmitItemsGrown(s.stmts, g0);
    GrownTrans(g, g0, g1, 0);
    CodeGrows(g, g1, 0);
    CatchStartGrown(g, g1, after, s.catchSlot);
    var g1' := CatchStart(g1, after, s.catchSlot);
    EmitItemsGrown(s.handler, g1');
    GrownTrans(g, g1', g2, 0);
    CodeGrows(g1', g2, 0);
    GrownEmit(g, g2, Leave(after));
    EndGrown(g, g1, g1', g2.Emit(Leave(after)));
    GrownMark(g, g2.Emit(Leave(after)).EndExceptionBlock(), after);
    GrownPops(g, g2.Emit(Leave(after)).EndExceptionBlock().Mark(after));
  }

  /** What a try statement is made of. */
  lemma TryBody(s: Item, stmts: Items, slot: nat, handler: Items, after: nat, g: Gen) returns (g1: Gen, g2: Gen)
    requires s == Try(stmts, slot, handler) && after == |g.labels| && EmitItem(s, g).Ok?
    ensures EmitItems(stmts, TryStart(g)) == Ok(g1) && EmitItems(handler, CatchStart(g1, after, slot)) == Ok(g2)
    ensures EmitItem(s, g) == Ok(g2.Emit(Leave(after)).EndExceptionBlock().Mark(after).Exit())
  {
    g1 := EmitItems(stmts, TryStart(g)).value;
    g2 := EmitItems(handler, CatchStart(g1, after, slot)).value;
  }

  /** Closing the exception block that was opened in state `g` and switched to its handler. */
  lemma EndGrown(g: Gen, g1: Gen, g1'': Gen, b: Gen)
    requires Grown(g, b, 0) && |g.ir| <= |g1.ir| < |b.ir| && b.open == g1''.open
    requires g1''.open == g.open + [TryCatch(IrRange(|g.ir|, |g1.ir| + 1), Some(IrRange(|g1.ir| + 1, 0)), None)]
    ensures Grown(g, b.EndExceptionBlock(), 0) && b.EndExceptionBlock().open == g.open
    ensures b.EndExceptionBlock().table ==
      b.table + [TryCatch(IrRange(|g.ir|, |g1.ir| + 1), Some(IrRange(|g1.ir| + 1, |b.ir|)), None)]
  {
  }
}
