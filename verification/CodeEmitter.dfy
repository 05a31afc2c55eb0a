/** The builder and the code generator as they run: each emit method updates the generator in place the way the
    emission function of the same name says. */
module CodeEmitter {
  import opened Ast
  import opened ExceptionTable
  import opened IrBuilder
  import Generator
  import GeneratorFacts
  import opened Wrappers

  class Builder {
    var ir: seq<Ir>
    var locals: nat
    var labels: seq<nat>
    var open: seq<TryCatch>
    var table: seq<TryCatch>

    constructor ()
      ensures ir == [] && locals == 0 && labels == [] && open == [] && table == []
    {
      ir, locals, labels, open, table := [], 0, [], [], [];
    }

    method Local() returns (l: nat)
      modifies this`locals
      ensures l == old(locals) && locals == l + 1
    {
      l := locals;
      locals := locals + 1;
    }

    method Mark(l: nat)
      modifies this`labels
      ensures labels == if l < |old(labels)| then old(labels)[l := |ir|] else old(labels)
    {
      if l < |labels| {
        labels := labels[l := |ir|];
      }
    }

    method Label() returns (l: nat)
      modifies this`labels
      ensures l == |old(labels)| && labels == old(labels) + [0]
    {
      l := |labels|;
      labels := labels + [0];
    }

    method Emit(i: Ir)
      modifies this`ir
      ensures ir == old(ir) + [i]
    {
      ir := ir + [i];
    }

    method StartExceptionBlock()
      modifies this`open
      ensures open == old(open) + [TryCatch(IrRange(|ir|, 0), Option.None, Option.None)]
    {
      open := open + [TryCatch(IrRange(|ir|, 0), Option.None, Option.None)];
    }

    method StartCatch()
      requires open != []
      modifies this`open
      ensures var top := |old(open)| - 1;
        open == old(open)[top := TryCatch(IrRange(old(open)[top].body.start, |ir|), Some(IrRange(|ir|, 0)), old(open)[top].finally)]
    {
      var top := |open| - 1;
      open := open[top := open[top].(body := IrRange(open[top].body.start, |ir|))];
      open := open[top := open[top].(handler := Some(IrRange(|ir|, 0)))];
    }

    /** What is open so far, the body or the handler, ends here. */
    method StartFinally()
      requires open != [] && open[|open| - 1].finally.None?
      modifies this`open
      ensures var top := |old(open)| - 1;
        var e := old(open)[top];
        open == old(open)[top := TryCatch(if e.handler.Some? then e.body else IrRange(e.body.start, |ir|),
                                          if e.handler.Some? then Some(IrRange(e.handler.value.start, |ir|)) else Option.None,
                                          Some(IrRange(|ir|, 0)))]
    {
      var top := |open| - 1;
      var e := open[top];
      if e.handler.Some? {
        e := e.(handler := Some(IrRange(e.handler.value.start, |ir|)));
      } else {
        e := e.(body := IrRange(e.body.start, |ir|));
      }
      open := open[top := e.(finally := Some(IrRange(|ir|, 0)))];
    }

    method EndExceptionBlock()
      requires open != [] && (open[|open| - 1].handler.Some? || open[|open| - 1].finally.Some?)
      modifies this`open, this`table
      ensures open == old(open[..|open| - 1])
      ensures var e := old(open[|open| - 1]);
        table == old(table) + [if e.finally.Some? then e.(finally := Some(IrRange(e.finally.value.start, |ir|)))
                               else e.(handler := Some(IrRange(e.handler.value.start, |ir|)))]
    {
      var e := open[|open| - 1];
      open := open[..|open| - 1];
      if e.finally.Some? {
        e := e.(finally := Some(IrRange(e.finally.value.start, |ir|)));
      } else {
        e := e.(handler := Some(IrRange(e.handler.value.start, |ir|)));
      }
      table := table + [e];
    }

    /** Patches every jump with its label's offset and sorts the table. */
    method Build() returns (block: IrBuilder.Block)
      modifies this
      ensures block == IrBuilder.Block(Fixup(old(ir), old(labels)), old(locals), Sort(old(table)))
    {
      var k := 0;
      while k < |ir|
        invariant k <= |ir| == |old(ir)|
        invariant forall j :: 0 <= j < k ==> ir[j] == FixupLabel(old(ir)[j], old(labels))
        invariant ir[k..] == old(ir)[k..]
        invariant labels == old(labels) && locals == old(locals) && table == old(table)
      {
        assert ir[k] == ir[k..][0] == old(ir)[k];
        ghost var before := ir;
        ir := ir[k := FixupLabel(ir[k], labels)];
        k := k + 1;
        assert ir[k..] == before[k..] == old(ir)[k..];
      }
      table := Sort(table);
      return IrBuilder.Block.Block(ir, locals, table);
    }
  }

  /** A try statement is its body, its handler and the closing of the block. */
  lemma TryShape(s: Item, g: Gen)
    requires s.Try?
    ensures var b := Generator.EmitItems(s.stmts, GeneratorFacts.TryStart(g));
      Generator.EmitItem(s, g)
        == if b.Fatal? then Generator.Fatal
           else
             var h := Generator.EmitItems(s.handler, GeneratorFacts.CatchStart(b.value, |g.labels|, s.catchSlot));
             if h.Fatal? then Generator.Fatal
             else Generator.Ok(h.value.Emit(Leave(|g.labels|)).EndExceptionBlock().Mark(|g.labels|).Exit())
  {
    hide Generator.EmitItems;
  }

  /** The block that was opened is still open, with a handler once that has started. */
  lemma OpenBlocks(g: Gen, start: Gen, body: Gen, after: nat, slot: nat)
    requires start == GeneratorFacts.TryStart(g) && GeneratorFacts.Restored(start, body)
    ensures body.open != [] && body.depth == g.depth + 1
    ensures var k := GeneratorFacts.CatchStart(body, after, slot);
      && k.open != [] && k.open[|k.open| - 1].handler.Some? && k.open[|k.open| - 1].finally.None? && k.depth == g.depth + 1
  {
  }

  class IrGenerator {
    const builder: Builder
    var breaks: seq<NamedLabel>
    var continues: seq<NamedLabel>
    var depth: nat
    var ret: Option<ReturnTarget>

    ghost function State(): Gen
      reads this, builder
    {
      Gen(builder.ir, builder.locals, builder.labels, builder.open, builder.table, breaks, continues, depth, ret)
    }

    /** One local for every variable slot. */
    constructor (slots: nat)
      ensures fresh(builder) && State() == Generator.Start(slots)
    {
      builder := new Builder();
      breaks, continues, depth, ret := [], [], 0, Option.None;
      new;
      for k := 0 to slots
        invariant State() == Generator.Start(k) && fresh(builder)
      {
        var _ := builder.Local();
      }
    }

    ghost predicate Emitted(ok: bool, r: Generator.Result<Gen>)
      reads this, builder
    {
      ok == r.Ok? && (ok ==> State() == r.value)
    }

    method Emit(i: Ir)
      modifies builder`ir
      ensures State() == old(State()).Emit(i) && |State().labels| == |old(State()).labels|
    {
      builder.Emit(i);
    }

    method Mark(l: nat)
      modifies builder`labels
      ensures State() == old(State()).Mark(l) && |State().labels| == |old(State()).labels|
    {
      builder.Mark(l);
    }

    method Label() returns (l: nat)
      modifies builder`labels
      ensures State() == old(State()).NewLabel() && l == |old(State()).labels| && |State().labels| == l + 1
    {
      l := builder.Label();
    }

    method Local() returns (l: nat)
      modifies builder`locals
      ensures State() == old(State()).NewLocal() && l == old(State()).locals
    {
      l := builder.Local();
    }

    // ---- Targets ----

    method NamedLabel(name: Option<Label>) returns (target: IrBuilder.NamedLabel)
      modifies builder`labels
      ensures target == IrBuilder.NamedLabel(name, |old(builder.labels)|, depth)
      ensures builder.labels == old(builder.labels) + [0]
    {
      var l := builder.Label();
      return IrBuilder.NamedLabel(name, l, depth);
    }

    /** Searches from the innermost target outwards. */
    method GetTarget(targets: seq<IrBuilder.NamedLabel>,
            name: Option<Label>) returns (r: Generator.Result<IrBuilder.NamedLabel>)
      ensures r == Generator.GetTarget(targets, name)
    {
      if name.None? {
        if targets == [] {
          return Generator.Fatal;
        }
        return Generator.Ok(targets[|targets| - 1]);
      }
      var k := |targets|;
      assert targets[..k] == targets;
      while k > 0
        invariant 0 <= k <= |targets|
        invariant Generator.GetTarget(targets, name) == Generator.GetTarget(targets[..k], name)
      {
        assert targets[..k][..k - 1] == targets[..k - 1];
        k := k - 1;
        if targets[k].name == name {
          return Generator.Ok(targets[k]);
        }
      }
      return Generator.Fatal;
    }

    method PushBreak(name: Option<Label>) returns (at: nat)
      modifies this`breaks, builder`labels
      ensures State() == old(State()).PushBreak(name) && at == |old(State()).labels| && |State().labels| == at + 1
      ensures State().locals == old(State()).locals
    {
      var target := NamedLabel(name);
      breaks := breaks + [target];
      at := target.at;
    }

    method PushContinue(name: Option<Label>) returns (at: nat)
      modifies this`continues, builder`labels
      ensures State() == old(State()).PushContinue(name) && at == |old(State()).labels| && |State().labels| == at + 1
    {
      var target := NamedLabel(name);
      continues := continues + [target];
      at := target.at;
    }

    method PopBreak()
      modifies this`breaks
      ensures State() == old(State()).PopBreak()
    {
      if breaks != [] {
        breaks := breaks[..|breaks| - 1];
      }
    }

    method PopContinue()
      modifies this`continues
      ensures State() == old(State()).PopContinue()
    {
      if continues != [] {
        continues := continues[..|continues| - 1];
      }
    }

    // ---- Expressions ----

    method PopUnless(leave: bool)
      modifies builder`ir
      ensures State() == Generator.PopUnless(leave, old(State()))
    {
      if !leave {
        Emit(Pop);
      }
    }

    method EmitExpr(e: Expr, leave: bool) returns (ok: bool)
      modifies this, builder
      ensures Emitted(ok, Generator.EmitExpr(e, leave, old(State())))
      decreases e, 1
    {
      match e
      case Literal(lit) =>
        if leave {
          Emit(Generator.LiteralIr(lit));
        }
        return true;
      case Ident(slot) =>
        Emit(LoadLocal(slot));
        PopUnless(leave);
        return true;
      case Assign(_, _, _) => ok := EmitExprAssign(e, leave);
      case Binary(op, l, r) =>
        ok := EmitExpr(l, true);
        if !ok { return; }
        ok := EmitExpr(r, true);
        if !ok { return; }
        Emit(Ir.BinaryOp(Generator.OpIr(op)));
        PopUnless(leave);
      case And(_, _) => ok := EmitExprLogical(e, leave);
      case Or(_, _) => ok := EmitExprLogical(e, leave);
      case Ternary(_, _, _) => ok := EmitExprTernary(e, leave);
      case Paren(es) => ok := EmitExprs(es, leave);
      case Unary(_, _) => ok := EmitExprUnary(e, leave);
      case Incr(op, x) =>
        var target := UnwrapParen(x);
        if !target.Ident? { return false; }
        EmitIncr(op, target.slot, leave);
        return true;
    }

    method EmitExprAssign(e: Expr, leave: bool) returns (ok: bool)
      requires e.Assign?
      modifies this, builder
      ensures Emitted(ok, Generator.EmitExpr(e, leave, old(State())))
      decreases e, 0
    {
      var target := UnwrapParen(e.lhs);
      if !target.Ident? { return false; }
      if e.op.Some? {
        Emit(LoadLocal(target.slot));
      }
      ok := EmitExpr(e.rhs, true);
      if !ok { return; }
      if e.op.Some? {
        Emit(Ir.BinaryOp(Generator.OpIr(e.op.value)));
      }
      if leave {
        Emit(Dup);
      }
      Emit(StoreLocal(target.slot));
    }

    method EmitExprLogical(e: Expr, leave: bool) returns (ok: bool)
      requires e.And? || e.Or?
      modifies this, builder
      ensures Emitted(ok, Generator.EmitLogical(e, leave, old(State())))
      decreases e, 0
    {
      var after := Label();
      ok := EmitExpr(e.left, true);
      if !ok { return; }
      Emit(Dup);
      Emit(Ir.UnaryOp(ToBoolean));
      if e.And? {
        Emit(JumpFalse(after));
      } else {
        Emit(JumpTrue(after));
      }
      Emit(Pop);
      ok := EmitExpr(e.right, true);
      if !ok { return; }
      Mark(after);
      PopUnless(leave);
    }

    method EmitExprTernary(e: Expr, leave: bool) returns (ok: bool)
      requires e.Ternary?
      modifies this, builder
      ensures Emitted(ok, Generator.EmitExpr(e, leave, old(State())))
      decreases e, 0
    {
      hide Gen.Emit, Gen.Mark, Gen.NewLabel, Gen.NewLocal, Gen.PushBreak, Gen.PushContinue, Gen.PopBreak,
        Gen.PopContinue;
      var els := Label();
      var after := Label();
      ok := EmitTest(e.test, els, true);
      if !ok { return; }
      ok := EmitExpr(e.thn, leave);
      if !ok { return; }
      Emit(Jump(after));
      Mark(els);
      ok := EmitExpr(e.els, leave);
      if !ok { return; }
      Mark(after);
    }

    method EmitExprUnary(e: Expr, leave: bool) returns (ok: bool)
      requires e.Unary?
      modifies this, builder
      ensures Emitted(ok, Generator.EmitExpr(e, leave, old(State())))
      decreases e, 0
    {
      ok := EmitExpr(e.e, true);
      if !ok { return; }
      match e.uop
      case OpBitNot =>
        Emit(Ir.UnaryOp(BitNot));
        PopUnless(leave);
      case OpNegative =>
        Emit(Ir.UnaryOp(Negative));
        PopUnless(leave);
      case OpNot =>
        Emit(Ir.UnaryOp(Not));
        PopUnless(leave);
      case OpPositive =>
        Emit(Ir.UnaryOp(Positive));
        PopUnless(leave);
      case OpTypeof =>
        Emit(Ir.UnaryOp(Typeof));
        PopUnless(leave);
      case OpVoid =>
        Emit(Pop);
        if leave {
          Emit(LoadUndefined);
        }
    }

    method EmitIncr(op: IncrOp, slot: nat, leave: bool)
      modifies builder`ir, builder`locals
      ensures State() == Generator.EmitIncr(op, slot, leave, old(State()))
    {
      var step := Ir.BinaryOp(if op == PreIncr || op == PostIncr then Add else Subtract);
      Emit(LoadLocal(slot));
      Emit(Ir.UnaryOp(ToNumber));
      if !leave {
        Emit(LoadI32(1));
        Emit(step);
        Emit(StoreLocal(slot));
        return;
      }
      var temp := Local();
      if op == PreIncr || op == PreDecr {
        Emit(LoadI32(1));
        Emit(step);
        Emit(Dup);
        Emit(StoreLocal(temp));
        Emit(StoreLocal(slot));
        Emit(LoadLocal(temp));
      } else {
        Emit(Dup);
        Emit(StoreLocal(temp));
        Emit(LoadI32(1));
        Emit(step);
        Emit(StoreLocal(slot));
        Emit(LoadLocal(temp));
      }
    }

    method EmitTest(e: Expr, at: nat, inverse: bool) returns (ok: bool)
      modifies this, builder
      ensures Emitted(ok, Generator.EmitTest(e, at, inverse, old(State())))
      decreases e, 2
    {
      ok := EmitExpr(e, true);
      if !ok { return; }
      if inverse {
        Emit(JumpFalse(at));
      } else {
        Emit(JumpTrue(at));
      }
    }

    method EmitExprs(es: Exprs, leave: bool) returns (ok: bool)
      modifies this, builder
      ensures Emitted(ok, Generator.EmitExprs(es, leave, old(State())))
      decreases es, 3
    {
      match es
      case Last(e) => ok := EmitExpr(e, leave);
      case More(e, rest) =>
        ok := EmitExpr(e, false);
        if !ok { return; }
        ok := EmitExprs(rest, leave);
    }

    method EmitTests(es: Exprs, at: nat, inverse: bool) returns (ok: bool)
      modifies this, builder
      ensures Emitted(ok, Generator.EmitTests(es, at, inverse, old(State())))
      decreases es, 3
    {
      match es
      case Last(e) => ok := EmitTest(e, at, inverse);
      case More(e, rest) =>
        ok := EmitExpr(e, false);
        if !ok { return; }
        ok := EmitTests(rest, at, inverse);
    }

    // ---- Statements ----

    method EmitBreakContinue(name: Option<Label>, isBreak: bool) returns (ok: bool)
      modifies builder`ir
      ensures Emitted(ok, Generator.EmitJumpTo(if isBreak then breaks else continues, name, old(State())))
    {
      var target := GetTarget(if isBreak then breaks else continues, name);
      if target.Fatal? { return false; }
      if target.value.depth == depth {
        Emit(Jump(target.value.at));
      } else {
        Emit(Leave(target.value.at));
      }
      return true;
    }

    method EmitVarDecl(vars: seq<Var>) returns (ok: bool)
      modifies this, builder
      ensures Emitted(ok, Generator.EmitVars(vars, old(State())))
    {
      var k := 0;
      while k < |vars|
        invariant k <= |vars|
        invariant Generator.EmitVars(vars, old(State())) == Generator.EmitVars(vars[k..], State())
      {
        if vars[k].init.Some? {
          ok := EmitExpr(vars[k].init.value, true);
          if !ok { return; }
          Emit(StoreLocal(vars[k].slot));
        }
        k := k + 1;
      }
      return true;
    }

    method EmitInit(init: ForInit) returns (ok: bool)
      modifies this, builder
      ensures Emitted(ok, Generator.EmitInit(init, old(State())))
    {
      match init
      case NoInit => return true;
      case ExprInit(es) => ok := EmitExprs(es, false);
      case VarInit(vars) => ok := EmitVarDecl(vars);
    }

    /** The value to return is on the stack. */
    method EmitReturnValue()
      modifies this, builder
      ensures State() == Generator.EmitReturn(old(State()))
    {
      if depth == 0 {
        Emit(ReturnIr);
        return;
      }
      if ret.None? {
        var at := Label();
        var slot := Local();
        ret := Some(ReturnTarget(at, slot));
      }
      Emit(StoreLocal(ret.value.slot));
      Emit(Leave(ret.value.at));
    }

    method EmitStmt(s: Item) returns (ok: bool)
      modifies this, builder
      ensures Emitted(ok, Generator.EmitItem(s, old(State())))
      decreases s, 1
    {
      match s
      case Block(_, _) => ok := EmitLabeledBlock(s);
      case Break(name) => ok := EmitBreakContinue(name, true);
      case Continue(name) => ok := EmitBreakContinue(name, false);
      case Debugger =>
        Emit(Nop);
        return true;
      case Do(_, _, _) => ok := EmitDo(s);
      case Empty => return true;
      case ExprStmt(es) => ok := EmitExprs(es, false);
      case For(_, _, _, _, _) => ok := EmitFor(s);
      case If(_, _, _) => ok := EmitIf(s);
      case Return(_) => ok := EmitReturn(s);
      case Switch(_, _, _) => ok := EmitSwitch(s);
      case Throw(es) =>
        ok := EmitExprs(es, true);
        if !ok { return; }
        Emit(ThrowIr);
      case Try(_, _, _) => ok := EmitTry(s);
      case VarDecl(vars) => ok := EmitVarDecl(vars);
      case While(_, _, _) => ok := EmitWhile(s);
    }

    method EmitStmts(ss: Items) returns (ok: bool)
      modifies this, builder
      ensures Emitted(ok, Generator.EmitItems(ss, old(State())))
      decreases ss, 0
    {
      match ss
      case Nil => return true;
      case Cons(s, rest) =>
        ok := EmitStmt(s);
        if !ok { return; }
        ok := EmitStmts(rest);
    }

    method EmitLabeledBlock(s: Item) returns (ok: bool)
      requires s.Block?
      modifies this, builder
      ensures Emitted(ok, Generator.EmitItem(s, old(State())))
      decreases s, 0
    {
      if s.tag.None? {
        ok := EmitStmts(s.stmts);
      } else {
        var at := PushBreak(s.tag);
        ok := EmitStmts(s.stmts);
        if !ok { return; }
        Mark(at);
        PopBreak();
      }
    }

    method EmitReturn(s: Item) returns (ok: bool)
      requires s.Return?
      modifies this, builder
      ensures Emitted(ok, Generator.EmitItem(s, old(State())))
    {
      if s.result.Some? {
        ok := EmitExprs(s.result.value, true);
        if !ok { return; }
      } else {
        Emit(LoadUndefined);
      }
      EmitReturnValue();
      return true;
    }

    method EmitDo(s: Item) returns (ok: bool)
      requires s.Do?
      modifies this, builder
      ensures Emitted(ok, Generator.EmitItem(s, old(State())))
      decreases s, 0
    {
      hide Gen.Emit, Gen.Mark, Gen.NewLabel, Gen.NewLocal, Gen.PushBreak, Gen.PushContinue, Gen.PopBreak,
        Gen.PopContinue, Generator.EmitTest;
      var brk := PushBreak(s.tag);
      var cont := PushContinue(s.tag);
      var start := Label();
      Mark(start);
      ok := EmitStmt(s.body);
      if !ok { return; }
      Mark(cont);
      ok := EmitTest(s.test, start, false);
      if !ok { return; }
      Mark(brk);
      PopBreak();
      PopContinue();
    }

    method EmitWhile(s: Item) returns (ok: bool)
      requires s.While?
      modifies this, builder
      ensures Emitted(ok, Generator.EmitItem(s, old(State())))
      decreases s, 0
    {
      hide Gen.Emit, Gen.Mark, Gen.NewLabel, Gen.NewLocal, Gen.PushBreak, Gen.PushContinue, Gen.PopBreak,
        Gen.PopContinue, Generator.EmitTest;
      var brk := PushBreak(s.tag);
      var cont := PushContinue(s.tag);
      var start := Label();
      Emit(Jump(cont));
      Mark(start);
      ok := EmitStmt(s.body);
      if !ok { return; }
      Mark(cont);
      ok := EmitTest(s.test, start, false);
      if !ok { return; }
      Mark(brk);
      PopBreak();
      PopContinue();
    }

    method EmitFor(s: Item) returns (ok: bool)
      requires s.For?
      modifies this, builder
      ensures Emitted(ok, Generator.EmitItem(s, old(State())))
      decreases s, 0
    {
      hide Gen.Emit, Gen.Mark, Gen.NewLabel, Gen.NewLocal, Gen.PushBreak, Gen.PushContinue, Gen.PopBreak,
        Gen.PopContinue, Generator.EmitExprs, Generator.EmitTests, Generator.EmitInit;
      var brk := PushBreak(s.tag);
      var cont := PushContinue(s.tag);
      var check := Label();
      var start := Label();
      ok := EmitInit(s.init);
      if !ok { return; }
      Emit(Jump(check));
      Mark(start);
      ok := EmitStmt(s.body);
      if !ok { return; }
      Mark(cont);
      if s.incr.Some? {
        ok := EmitExprs(s.incr.value, false);
        if !ok { return; }
      }
      Mark(check);
      if s.ftest.Some? {
        ok := EmitTests(s.ftest.value, start, false);
        if !ok { return; }
      } else {
        Emit(Jump(start));
      }
      Mark(brk);
      PopBreak();
      PopContinue();
    }

    method EmitIf(s: Item) returns (ok: bool)
      requires s.If?
      modifies this, builder
      ensures Emitted(ok, Generator.EmitItem(s, old(State())))
      decreases s, 0
    {
      hide Gen.Emit, Gen.Mark, Gen.NewLabel, Gen.NewLocal, Gen.PushBreak, Gen.PushContinue, Gen.PopBreak,
        Gen.PopContinue, Generator.EmitTests;
      if s.els.Some? {
        var els := Label();
        var after := Label();
        ok := EmitTests(s.cond, els, true);
        if !ok { return; }
        ok := EmitStmt(s.thn);
        if !ok { return; }
        Emit(Jump(after));
        Mark(els);
        ok := EmitStmt(s.els.value);
        if !ok { return; }
        Mark(after);
      } else {
        var after := Label();
        ok := EmitTests(s.cond, after, true);
        if !ok { return; }
        ok := EmitStmt(s.thn);
        if !ok { return; }
        Mark(after);
      }
    }

    method EmitSwitch(s: Item) returns (ok: bool)
      requires s.Switch?
      modifies this, builder
      ensures Emitted(ok, Generator.EmitItem(s, old(State())))
      decreases s, 0
    {
      hide Generator.EmitExprs, Generator.EmitGuards, Generator.EmitClauses;
      var brk := PushBreak(s.tag);
      var slot := Local();
      ok := EmitExprs(s.disc, true);
      if !ok { return; }
      Emit(StoreLocal(slot));
      var targets, default;
      ok, targets, default := EmitGuards(s.clauses, slot, Option.None);
      if !ok { return; }
      if default.Some? {
        Emit(Jump(default.value));
      } else {
        Emit(Jump(brk));
      }
      ok := EmitClauses(s.clauses, targets);
      if !ok { return; }
      Mark(brk);
      PopBreak();
    }

    method EmitGuards(cs: Clauses, slot: nat, default: Option<nat>) returns (ok: bool, targets: seq<nat>,
            found: Option<nat>)
      modifies this, builder
      ensures var r := Generator.EmitGuards(cs, slot, default, old(State()));
        ok == r.Ok? && (ok ==> r.value == (State(), targets, found))
      decreases cs, 0
    {
      targets, found := [], default;
      match cs
      case NoClauses => return true, [], default;
      case Case(guard, _, rest) =>
        var l := Label();
        Emit(LoadLocal(slot));
        ok := EmitExprs(guard, true);
        if !ok { return; }
        Emit(JumpStrictEq(l));
        ok, targets, found := EmitGuards(rest, slot, default);
        if !ok { return; }
        targets := [l] + targets;
      case Default(_, rest) =>
        var l := Label();
        ok, targets, found := EmitGuards(rest, slot, Some(l));
        if !ok { return; }
        targets := [l] + targets;
    }

    method EmitClauses(cs: Clauses, targets: seq<nat>) returns (ok: bool)
      modifies this, builder
      ensures Emitted(ok, Generator.EmitClauses(cs, targets, old(State())))
      decreases cs, 0
    {
      if cs.NoClauses? { return true; }
      if targets == [] { return false; }
      Mark(targets[0]);
      ok := EmitStmts(cs.stmts);
      if !ok { return; }
      ok := EmitClauses(cs.rest, targets[1..]);
    }

    method EnterTry() returns (after: nat)
      modifies this`depth, builder`labels, builder`open
      ensures State() == GeneratorFacts.TryStart(old(State())) && after == |old(State()).labels|
    {
      depth := depth + 1;
      after := Label();
      builder.StartExceptionBlock();
    }

    method EnterCatch(after: nat, slot: nat)
      requires builder.open != []
      modifies builder`ir, builder`open
      ensures State() == GeneratorFacts.CatchStart(old(State()), after, slot)
    {
      builder.Emit(Leave(after));
      builder.StartCatch();
      builder.Emit(LoadException);
      builder.Emit(StoreLocal(slot));
    }

    method LeaveTry(after: nat)
      requires builder.open != [] && builder.open[|builder.open| - 1].handler.Some?
      requires builder.open[|builder.open| - 1].finally.None? && depth > 0
      modifies this`depth, builder
      ensures State() == old(State()).Emit(Leave(after)).EndExceptionBlock().Mark(after).Exit()
    {
      builder.Emit(Leave(after));
      builder.EndExceptionBlock();
      builder.Mark(after);
      depth := depth - 1;
    }

    method EmitTry(s: Item) returns (ok: bool)
      requires s.Try?
      modifies this, builder
      ensures Emitted(ok, Generator.EmitItem(s, old(State())))
      decreases s, 0
    {
      hide Generator.EmitItems, GeneratorFacts.Grown, GeneratorFacts.TryStart, GeneratorFacts.CatchStart, Gen.Emit,
        Gen.EndExceptionBlock, Gen.Mark, Gen.Exit;
      ghost var before := State();
      TryShape(s, before);
      var after := EnterTry();
      ghost var start := State();
      GeneratorFacts.TryStartGrown(before);
      ok := EmitStmts(s.stmts);
      if !ok { return; }
      GeneratorFacts.EmitItemsGrown(s.stmts, start);
      ghost var body := State();
      OpenBlocks(before, start, body, after, s.catchSlot);
      EnterCatch(after, s.catchSlot);
      ghost var handler := State();
      ok := EmitStmts(s.handler);
      if !ok { return; }
      GeneratorFacts.EmitItemsGrown(s.handler, handler);
      LeaveTry(after);
    }

    // ---- Functions ----

    method EmitProlog(slots: nat)
      modifies builder`ir
      ensures State() == Generator.Prolog(slots, old(State()))
    {
      for k := 0 to slots
        invariant State() == Generator.Prolog(k, old(State()))
      {
        Emit(LoadUndefined);
        Emit(StoreLocal(k));
      }
    }

    method EmitEpilog()
      modifies builder`ir, builder`labels
      ensures State() == Generator.Epilog(old(State()))
    {
      Emit(LoadUndefined);
      Emit(ReturnIr);
      if ret.Some? {
        Mark(ret.value.at);
        Emit(LoadLocal(ret.value.slot));
        Emit(ReturnIr);
      }
    }
  }

  /** Compiles a function body. */
  method CompileFunction(slots: nat, body: Items) returns (r: Generator.Result<IrBuilder.Block>)
    ensures r == Generator.Compile(slots, body)
  {
    hide Generator.EmitItems, Generator.Prolog, Generator.Epilog, Sort, Fixup;
    var g := new IrGenerator(slots);
    g.EmitProlog(slots);
    var ok := g.EmitStmts(body);
    if !ok {
      return Generator.Fatal;
    }
    g.EmitEpilog();
    var block := g.builder.Build();
    return Generator.Ok(block);
  }
}
