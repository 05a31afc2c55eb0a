/** Expressions: the emitted code computes what the expression means, in the same order, with the same effects. */
module ExprCorrect {
  import opened Ast
  import opened Semantics
  import opened IrBuilder
  import Generator
  import opened GeneratorFacts
  import opened Interpreter
  import opened Wrappers

  /** A function being run: the runtime's operations, the number of variable slots and the generator's final state. */
  datatype Ctx = Ctx(ops: Ops, slots: nat, final: Gen)

  function Mach(x: Ctx): Machine {
    Machine(x.ops, Build(x.final))
  }

  // ---- Code in place ----

  ghost predicate ReturnIn(g: Gen) {
    g.ret.Some? ==> g.ret.value.at < |g.labels| && g.ret.value.slot < g.locals
  }

  /** What was emitted between `a` and `b` is in the finished function, and the labels made meanwhile have their
      final values, except for the label of the return target, which is marked at the very end. */
  ghost predicate Placed(a: Gen, b: Gen, f: Gen) {
    && b.ir <= f.ir && b.locals <= f.locals && |b.labels| <= |f.labels|
    && (forall l: nat {:trigger f.labels[l]} :: |a.labels| <= l < |b.labels| && !(f.ret.Some? && f.ret.value.at == l) ==> f.labels[l] == b.labels[l])
    && ReturnIn(a) && ReturnIn(b)
    && (if b.ret.Some? then f.ret == b.ret else f.ret.Some? ==> f.ret.value.at >= |b.labels|)
  }

  lemma SubPlaced(a: Gen, x: Gen, y: Gen, b: Gen, f: Gen)
    requires Placed(a, b, f) && Grown(y, b, |x.labels|) && |a.labels| <= |x.labels| && ReturnIn(x) && ReturnIn(y)
    ensures Placed(x, y, f)
  {
    forall l: nat {:trigger f.labels[l]} | |x.labels| <= l < |y.labels| && !(f.ret.Some? && f.ret.value.at == l)
      ensures f.labels[l] == y.labels[l]
    {
      assert b.labels[l] == y.labels[l];
    }
  }

  ghost predicate IsReturn(g: Gen, l: int) {
    g.ret.Some? && g.ret.value.at == l
  }

  lemma FinalLabel(a: Gen, b: Gen, f: Gen, l: nat)
    requires Placed(a, b, f) && |a.labels| <= l < |b.labels| && !IsReturn(b, l)
    ensures LabelAt(f.labels, l) == LabelAt(b.labels, l)
  {
  }

  ghost predicate Has(f: Gen, ip: int, i: Ir) {
    0 <= ip < |Build(f).ir| && Build(f).ir[ip] == i
  }

  lemma CodeAt(g: Gen, i: Ir, b: Gen, f: Gen)
    requires g.Emit(i).ir <= b.ir && b.ir <= f.ir
    ensures Has(f, |g.ir|, FixupLabel(i, f.labels))
  {
    assert f.ir[|g.ir|] == b.ir[|g.ir|] == g.Emit(i).ir[|g.ir|];
  }

  // ---- Configurations ----

  ghost predicate Match(x: Ctx, st: Store, c: Config) {
    |st.vars| == x.slots && x.slots <= x.final.locals == |c.locals| && c.locals[..x.slots] == st.vars && c.w == st.w
  }

  /** The local at `slot` holds `v`. */
  ghost predicate InSlot(c: Config, slot: int, v: Val) {
    0 <= slot < |c.locals| && c.locals[slot] == v
  }

  /** The locals the generator had handed out for other purposes are as before. */
  ghost predicate KeepsTemps(x: Ctx, g: Gen, c: Config, d: Config) {
    |d.locals| == |c.locals| && forall j: nat {:trigger d.locals[j]} :: x.slots <= j < g.locals && j < |c.locals| ==> d.locals[j] == c.locals[j]
  }

  /** The next instruction throws `v`; `base` is still at the bottom of the stack. */
  ghost predicate Fails(x: Ctx, base: seq<Val>, d: Config, v: Val, st: Store) {
    && d.ip < |Build(x.final).ir|
    && CallStmt(x.ops, Build(x.final).ir[d.ip], d).Throwing?
    && var t := CallStmt(x.ops, Build(x.final).ir[d.ip], d);
       t.v == v && t.c.ip == d.ip && base <= t.c.stack && Match(x, st, t.c)
  }

  ghost predicate Arrives(x: Ctx, c: Config, n: int, d: Config) {
    n >= 0 && Run(Mach(x), c, n) == Running(d)
  }

  /** From `c`, after `n` steps, an instruction between `lo` and `hi` throws. */
  ghost predicate ThrowsIn(x: Ctx, lo: int, hi: int, base: seq<Val>, c: Config, v: Val, st: Store, n: int, d: Config) {
    Arrives(x, c, n, d) && lo <= d.ip < hi && Fails(x, base, d, v, st)
  }

  /** A value has been computed and the code passed. */
  ghost predicate Computes(x: Ctx, g: Gen, end: int, leave: bool, c: Config, v: Val, st: Store, n: int, d: Config) {
    && Arrives(x, c, n, d) && d.ip == end && Match(x, st, d) && d.thrown == c.thrown && KeepsTemps(x, g, c, d)
    && d.stack == if leave then c.stack + [v] else c.stack
  }

  ghost predicate ExprRuns(x: Ctx, g: Gen, end: int, leave: bool, c: Config, r: EvalResult, n: int, d: Config) {
    match r
    case Value(v, st) => Computes(x, g, end, leave, c, v, st, n, d)
    case Thrown(v, st) => ThrowsIn(x, |g.ir|, end, c.stack, c, v, st, n, d)
  }

  lemma ArrivesTrans(x: Ctx, c: Config, i: nat, d: Config, j: nat, e: Config)
    requires Arrives(x, c, i, d) && Arrives(x, d, j, e)
    ensures Arrives(x, c, i + j, e)
  {
    RunAdd(Mach(x), c, i, d, j);
  }

  lemma ThrowsLater(x: Ctx, lo: nat, hi: nat, base: seq<Val>, c: Config, i: nat, d: Config, lo': nat, hi': nat,
          base': seq<Val>,
                    v: Val, st: Store, j: nat, e: Config)
    requires Arrives(x, c, i, d) && ThrowsIn(x, lo', hi', base', d, v, st, j, e)
    requires lo <= lo' && hi' <= hi && base <= base'
    ensures ThrowsIn(x, lo, hi, base, c, v, st, i + j, e)
  {
    hide Run, CallStmt, Match;
    ArrivesTrans(x, c, i, d, j, e);
  }

  lemma ArrivesStep(x: Ctx, c: Config, i: Ir, d: Config)
    requires Has(x.final, c.ip, i) && CallStmt(x.ops, i, c) == Advance(d)
    ensures Arrives(x, c, 1, d)
  {
    hide CallStmt, Run;
    RunOne(Mach(x), c);
  }

  // ---- One instruction ----

  /** The instruction at the end of `g` is `i`, and `b` is some later state of the generator whose code is final. */
  ghost predicate Next(x: Ctx, g: Gen, i: Ir, b: Gen) {
    g.Emit(i).ir <= b.ir && b.ir <= x.final.ir
  }

  lemma PushStep(x: Ctx, g: Gen, i: Ir, b: Gen, c: Config, v: Val)
    requires Next(x, g, i, b) && c.ip == |g.ir|
    requires CallStmt(x.ops, FixupLabel(i, x.final.labels), c) == Advance(c.Push(v))
    ensures Arrives(x, c, 1, c.Push(v))
  {
    hide CallStmt;
    CodeAt(g, i, b, x.final);
    ArrivesStep(x, c, FixupLabel(i, x.final.labels), c.Push(v));
  }

  lemma PopStep(x: Ctx, g: Gen, b: Gen, c: Config, base: seq<Val>, v: Val)
    requires Next(x, g, Pop, b) && c.ip == |g.ir| && c.stack == base + [v]
    ensures Arrives(x, c, 1, c.Past(base))
  {
    CodeAt(g, Pop, b, x.final);
    assert c.Drop(1) == base;
    ArrivesStep(x, c, Pop, c.(ip := c.ip + 1, stack := base));
  }

  lemma StoreStep(x: Ctx, g: Gen, slot: nat, b: Gen, c: Config, base: seq<Val>, v: Val)
    requires Next(x, g, StoreLocal(slot), b) && c.ip == |g.ir| && c.stack == base + [v] && slot < |c.locals|
    ensures Arrives(x, c, 1, c.(ip := c.ip + 1, stack := base, locals := c.locals[slot := v]))
  {
    CodeAt(g, StoreLocal(slot), b, x.final);
    assert c.Drop(1) == base;
    ArrivesStep(x, c, StoreLocal(slot), c.(ip := c.ip + 1, stack := base, locals := c.locals[slot := v]));
  }

  /** Where a conditional jump goes. */
  ghost function Branched(x: Ctx, i: Ir, c: Config, base: seq<Val>, v: Val): Config {
    match i
    case JumpFalse(l) => if x.ops.ToBoolean(v) then c.Past(base) else c.(ip := LabelAt(x.final.labels, l), stack := base)
    case JumpTrue(l) => if x.ops.ToBoolean(v) then c.(ip := LabelAt(x.final.labels, l), stack := base) else c.Past(base)
    case _ => c
  }

  lemma BranchStep(x: Ctx, g: Gen, i: Ir, b: Gen, c: Config, base: seq<Val>, v: Val)
    requires (i.JumpFalse? || i.JumpTrue?) && Next(x, g, i, b) && c.ip == |g.ir| && c.stack == base + [v]
    ensures Arrives(x, c, 1, Branched(x, i, c, base, v))
  {
    CodeAt(g, i, b, x.final);
    assert c.Drop(1) == base;
    ArrivesStep(x, c, FixupLabel(i, x.final.labels), Branched(x, i, c, base, v));
  }

  lemma JumpStep(x: Ctx, g: Gen, l: nat, b: Gen, c: Config)
    requires Next(x, g, Jump(l), b) && c.ip == |g.ir|
    ensures Arrives(x, c, 1, c.(ip := LabelAt(x.final.labels, l)))
  {
    CodeAt(g, Jump(l), b, x.final);
    ArrivesStep(x, c, Jump(LabelAt(x.final.labels, l)), c.(ip := LabelAt(x.final.labels, l)));
  }

  /** The instruction at `ip` throws. */
  ghost predicate Throws(x: Ctx, ip: int, c: Config, r: Res) {
    0 <= ip < |Build(x.final).ir| && CallStmt(x.ops, Build(x.final).ir[ip], c) == Throwing(r.v, c.(w := r.w))
  }

  lemma UnaryStep(x: Ctx, g: Gen, u: UnaryIr, b: Gen, c: Config, base: seq<Val>, a: Val, r: Res)
    requires Next(x, g, Ir.UnaryOp(u), b) && c.ip == |g.ir| && c.stack == base + [a] && r == UnaryRuns(x.ops, u, a, c.w)
    ensures r.Ok? ==> Arrives(x, c, 1, c.Past(base + [r.v]).(w := r.w))
    ensures r.Err? ==> Throws(x, |g.ir|, c, r)
  {
    CodeAt(g, Ir.UnaryOp(u), b, x.final);
    assert c.Drop(1) == base;
    if r.Ok? {
      ArrivesStep(x, c, Ir.UnaryOp(u), c.(ip := c.ip + 1, stack := base + [r.v], w := r.w));
    }
  }

  lemma BinaryStep(x: Ctx, g: Gen, op: BinaryIr, b: Gen, c: Config, base: seq<Val>, v1: Val, v2: Val, r: Res)
    requires Next(x, g, Ir.BinaryOp(op), b) && c.ip == |g.ir| && c.stack == base + [v1, v2]
    requires r == BinaryRuns(x.ops, op, v1, v2, c.w)
    ensures r.Ok? ==> Arrives(x, c, 1, c.Past(base + [r.v]).(w := r.w))
    ensures r.Err? ==> Throws(x, |g.ir|, c, r)
  {
    CodeAt(g, Ir.BinaryOp(op), b, x.final);
    assert c.Drop(2) == base && c.Top() == v2 && c.stack[|c.stack| - 2] == v1;
    if r.Ok? {
      ArrivesStep(x, c, Ir.BinaryOp(op), c.(ip := c.ip + 1, stack := base + [r.v], w := r.w));
    }
  }

  /** The instruction an operator becomes does what the operator means. */
  lemma OpMeans(ops: Ops, op: BinaryOp, a: Val, b: Val, w: World)
    ensures BinaryRuns(ops, Generator.OpIr(op), a, b, w) == ops.BinaryMeaning(op, a, b, w)
  {
  }

  // ---- Endings ----

  /** A discarded value is popped. */
  lemma PopTail(x: Ctx, g: Gen, h: Gen, leave: bool, c: Config, r: EvalResult, n: nat, d: Config) returns (n': nat,
          d': Config)
    requires ExprRuns(x, g, |h.ir|, true, c, r, n, d) && Generator.PopUnless(leave, h).ir <= x.final.ir
    ensures ExprRuns(x, g, |Generator.PopUnless(leave, h).ir|, leave, c, r, n', d')
  {
    hide Run, CallStmt, Fails;
    n', d' := n, d;
    if !leave && r.Value? {
      d' := d.(ip := d.ip + 1, stack := c.stack);
      n' := n + 1;
      PopStep(x, h, h.Emit(Pop), d, c.stack, r.v);
      ArrivesTrans(x, c, n, d, 1, d');
    }
  }

  lemma UnaryTail(x: Ctx, g: Gen, h: Gen, u: UnaryIr, c: Config, base: seq<Val>, a: Val, st: Store, n: nat,
          d: Config) returns (n': nat, d': Config)
    requires Arrives(x, c, n, d) && d.ip == |h.ir| && Match(x, st, d) && d.thrown == c.thrown && KeepsTemps(x, g, c, d)
    requires d.stack == base + [a] && base == c.stack
    requires h.Emit(Ir.UnaryOp(u)).ir <= x.final.ir && |g.ir| <= |h.ir|
    ensures ExprRuns(x, g, |h.ir| + 1, true, c, Lift(UnaryRuns(x.ops, u, a, st.w), st), n', d')
  {
    hide Run, CallStmt, UnaryRuns;
    var r := UnaryRuns(x.ops, u, a, st.w);
    UnaryStep(x, h, u, h.Emit(Ir.UnaryOp(u)), d, base, a, r);
    if r.Ok? {
      n', d' := n + 1, d.(ip := d.ip + 1, stack := base + [r.v], w := r.w);
      ArrivesTrans(x, c, n, d, 1, d');
    } else {
      n', d' := n, d;
    }
  }

  lemma BinaryTail(x: Ctx, g: Gen, h: Gen, op: BinaryIr, c: Config, v1: Val, v2: Val, st: Store, n: nat,
          d: Config) returns (n': nat, d': Config)
    requires Arrives(x, c, n, d) && d.ip == |h.ir| && Match(x, st, d) && d.thrown == c.thrown && KeepsTemps(x, g, c, d)
    requires d.stack == c.stack + [v1, v2]
    requires h.Emit(Ir.BinaryOp(op)).ir <= x.final.ir && |g.ir| <= |h.ir|
    ensures ExprRuns(x, g, |h.ir| + 1, true, c, Lift(BinaryRuns(x.ops, op, v1, v2, st.w), st), n', d')
    ensures d'.locals == d.locals
  {
    hide Run, CallStmt, BinaryRuns;
    var r := BinaryRuns(x.ops, op, v1, v2, st.w);
    BinaryStep(x, h, op, h.Emit(Ir.BinaryOp(op)), d, c.stack, v1, v2, r);
    if r.Ok? {
      n', d' := n + 1, d.(ip := d.ip + 1, stack := c.stack + [r.v], w := r.w);
      ArrivesTrans(x, c, n, d, 1, d');
    } else {
      n', d' := n, d;
    }
  }

  /** A value on top of the stack goes into a variable; with `leave` a copy of it stays. */
  lemma AssignTail(x: Ctx, g: Gen, h: Gen, slot: nat, leave: bool, c: Config, v: Val, st: Store, n: nat,
          d: Config) returns (n': nat, d': Config)
    requires Computes(x, g, |h.ir|, true, c, v, st, n, d) && slot < x.slots
    requires Generator.DupIf(leave, h).Emit(StoreLocal(slot)).ir <= x.final.ir
    ensures Computes(x, g, |Generator.DupIf(leave, h).ir| + 1, leave, c, v, Write(st, slot, v), n', d')
  {
    hide Run, CallStmt;
    var m := n;
    var e, h' := d, h;
    var base := c.stack;
    if leave {
      e, m, h' := d.Push(v), n + 1, h.Emit(Dup);
      PushStep(x, h, Dup, h'.Emit(StoreLocal(slot)), d, v) by {
        DupPushes(x.ops, d, c.stack, v);
      }
      ArrivesTrans(x, c, n, d, 1, e);
      base := d.stack;
      assert e.stack == base + [v];
    }
    StoreStep(x, h', slot, h'.Emit(StoreLocal(slot)), e, base, v);
    d' := e.(ip := e.ip + 1, stack := base, locals := e.locals[slot := v]);
    n' := m + 1;
    ArrivesTrans(x, c, m, e, 1, d');
    assert d'.locals[..x.slots] == e.locals[..x.slots][slot := v];
  }

  lemma DupPushes(ops: Ops, d: Config, base: seq<Val>, v: Val)
    requires d.stack == base + [v]
    ensures CallStmt(ops, Dup, d) == Advance(d.Push(v))
  {
  }

  lemma KeepsTrans(x: Ctx, g: Gen, g1: Gen, c: Config, d: Config, e: Config)
    requires KeepsTemps(x, g, c, d) && KeepsTemps(x, g1, d, e) && g.locals <= g1.locals
    ensures KeepsTemps(x, g, c, e)
  {
    forall j: nat {:trigger e.locals[j]} | x.slots <= j < g.locals && j < |c.locals|
      ensures e.locals[j] == c.locals[j]
    {
      assert d.locals[j] == c.locals[j];
    }
  }

  lemma RunsLater(x: Ctx, g: Gen, c: Config, n: nat, d: Config, g1: Gen, end: nat, leave: bool, r: EvalResult,
          n1: nat, d1: Config)
    requires Arrives(x, c, n, d) && d.thrown == c.thrown && KeepsTemps(x, g, c, d)
    requires ExprRuns(x, g1, end, leave, d, r, n1, d1) && g.locals <= g1.locals && |g.ir| <= |g1.ir|
    requires c.stack <= d.stack
    ensures r.Thrown? ==> ThrowsIn(x, |g.ir|, end, c.stack, c, r.v, r.st, n + n1, d1)
    ensures r.Value? ==> Arrives(x, c, n + n1, d1) && d1.ip == end && Match(x, r.st, d1) && d1.thrown == c.thrown
    ensures r.Value? ==> KeepsTemps(x, g, c, d1) && d1.stack == if leave then d.stack + [r.v] else d.stack
  {
    hide Run, Fails, Match, KeepsTemps, Arrives;
    if r.Thrown? {
      assert ThrowsIn(x, |g1.ir|, end, d.stack, d, r.v, r.st, n1, d1);
      ThrowsLater(x, |g.ir|, end, c.stack, c, n, d, |g1.ir|, end, d.stack, r.v, r.st, n1, d1);
    } else {
      ArrivesTrans(x, c, n, d, n1, d1);
      KeepsTrans(x, g, g1, c, d, d1);
    }
  }

  /** An error inside stays an error of the larger piece of code. */
  lemma RunsWider(x: Ctx, g: Gen, end: nat, end': nat, leave: bool, c: Config, v: Val, st: Store, n: nat, d: Config)
    requires ThrowsIn(x, |g.ir|, end, c.stack, c, v, st, n, d) && end <= end'
    ensures ExprRuns(x, g, end', leave, c, Thrown(v, st), n, d)
  {
    hide Fails, Arrives;
  }

  // ---- Expressions ----

  /** The piece from `y` to `z` of what was emitted from `a` to `b`. */
  lemma PlacedPart(a: Gen, y: Gen, z: Gen, b: Gen, f: Gen)
    requires Placed(a, b, f) && OnlyCode(a, y) && OnlyCode(y, z) && Grown(z, b, |y.labels|)
    ensures Placed(y, z, f)
    ensures |a.ir| <= |y.ir| <= |z.ir| <= |b.ir| && a.locals <= y.locals <= z.locals && z.ir <= b.ir <= f.ir
  {
    SubPlaced(a, y, z, b, f);
  }

  ghost predicate Ready(x: Ctx, g: Gen, g': Gen, st: Store, c: Config) {
    Placed(g, g', x.final) && x.slots <= g.locals && Match(x, st, c) && c.ip == |g.ir|
  }

  lemma PopUnlessGrown(g: Gen, leave: bool)
    ensures OnlyCode(g, Generator.PopUnless(leave, g))
  {
    hide OnlyCode;
    OnlyCodeSelf(g);
    PopGrown(g, g, leave);
  }

  lemma OnlyIsGrown(a: Gen, b: Gen, lo: nat)
    requires OnlyCode(a, b)
    ensures Grown(a, b, lo) && a.ir <= b.ir
  {
  }

  /** Running the code of an expression evaluates it. */
  lemma {:induction false} SimExpr(x: Ctx, e: Expr, leave: bool, g: Gen, st: Store, c: Config) returns (n: nat,
          d: Config)
    requires Generator.EmitExpr(e, leave, g).Ok? && ExprSlots(e, x.slots)
    requires Ready(x, g, Generator.After(Generator.EmitExpr(e, leave, g), g), st, c)
    ensures ExprRuns(x, g, |Generator.After(Generator.EmitExpr(e, leave, g), g).ir|, leave, c, Eval(x.ops, e, st), n, d)
    decreases e, 1
  {
    hide Run, CallStmt, OnlyCode, ExprRuns, Placed, Match, Generator.EmitLogical;
    match e
    case Literal(lit) =>
      n, d := SimLiteral(x, lit, leave, g, st, c);
    case Ident(slot) =>
      n, d := SimIdent(x, slot, leave, g, st, c);
    case Assign(op, lhs, rhs) =>
      n, d := SimAssign(x, e, leave, g, st, c);
    case Binary(op, l, r) =>
      n, d := SimBinary(x, e, leave, g, st, c);
    case And(_, _) =>
      n, d := SimLogical(x, e, leave, g, st, c);
    case Or(_, _) =>
      n, d := SimLogical(x, e, leave, g, st, c);
    case Ternary(_, _, _) =>
      n, d := SimTernary(x, e, leave, g, st, c);
    case Paren(es) =>
      n, d := SimExprs(x, es, leave, g, st, c);
    case Unary(op, a) =>
      n, d := SimUnary(x, e, leave, g, st, c);
    case Incr(op, target) =>
      TargetSlot(target, x.slots);
      n, d := SimIncr(x, op, UnwrapParen(target).slot, leave, g, st, c);
  }

  lemma SimLiteral(x: Ctx, lit: Lit, leave: bool, g: Gen, st: Store, c: Config) returns (n: nat, d: Config)
    requires Ready(x, g, if leave then g.Emit(Generator.LiteralIr(lit)) else g, st, c)
    ensures ExprRuns(x, g, |(if leave then g.Emit(Generator.LiteralIr(lit)) else g).ir|, leave, c, Value(LitValue(lit), st), n, d)
  {
    if leave {
      n, d := 1, c.Push(LitValue(lit));
      PushStep(x, g, Generator.LiteralIr(lit), g.Emit(Generator.LiteralIr(lit)), c, LitValue(lit));
    } else {
      n, d := 0, c;
    }
  }

  lemma LoadSlot(x: Ctx, slot: nat, g: Gen, b: Gen, st: Store, c: Config)
    requires Next(x, g, LoadLocal(slot), b) && c.ip == |g.ir| && Match(x, st, c) && slot < x.slots
    ensures Arrives(x, c, 1, c.Push(Read(st, slot)))
    ensures Match(x, st, c.Push(Read(st, slot)))
  {
    assert c.locals[..x.slots][slot] == c.locals[slot];
    PushStep(x, g, LoadLocal(slot), b, c, Read(st, slot));
  }

  lemma SimIdent(x: Ctx, slot: nat, leave: bool, g: Gen, st: Store, c: Config) returns (n: nat, d: Config)
    requires slot < x.slots && Ready(x, g, Generator.PopUnless(leave, g.Emit(LoadLocal(slot))), st, c)
    ensures ExprRuns(x, g, |Generator.PopUnless(leave, g.Emit(LoadLocal(slot))).ir|, leave, c, Value(Read(st, slot), st), n, d)
  {
    hide Run, CallStmt;
    var h := g.Emit(LoadLocal(slot));
    PopUnlessGrown(h, leave);
    LoadSlot(x, slot, g, Generator.PopUnless(leave, h), st, c);
    n, d := PopTail(x, g, h, leave, c, Value(Read(st, slot), st), 1, c.Push(Read(st, slot)));
  }

  lemma BinaryParts(e: Expr, op: BinaryOp, l: Expr, r: Expr, leave: bool, g: Gen, f: Gen) returns (g1: Gen, g2: Gen,
          h: Gen)
    requires e == Binary(op, l, r) && Generator.EmitExpr(e, leave, g).Ok?
    requires Placed(g, Generator.After(Generator.EmitExpr(e, leave, g), g), f)
    ensures Generator.EmitExpr(l, true, g) == Generator.Ok(g1)
    ensures Generator.EmitExpr(r, true, g1) == Generator.Ok(g2)
    ensures h == g2.Emit(Ir.BinaryOp(Generator.OpIr(op)))
    ensures Generator.After(Generator.EmitExpr(e, leave, g), g) == Generator.PopUnless(leave, h)
    ensures Placed(g, g1, f) && Placed(g1, g2, f) && g.locals <= g1.locals && |g.ir| <= |g1.ir| <= |g2.ir|
    ensures h.ir <= Generator.PopUnless(leave, h).ir <= f.ir && |g1.ir| <= |g2.ir| <= |h.ir|
  {
    hide OnlyCode, Placed, Grown;
    g1 := Generator.EmitExpr(l, true, g).value;
    g2 := Generator.EmitExpr(r, true, g1).value;
    h := g2.Emit(Ir.BinaryOp(Generator.OpIr(op)));
    var g' := Generator.PopUnless(leave, h);
    EmitExprGrown(l, true, g);
    EmitExprGrown(r, true, g1);
    EmitGrown(g2, Ir.BinaryOp(Generator.OpIr(op)));
    PopUnlessGrown(h, leave);
    OnlyCodeSelf(g);
    CodeTrans(g2, h, g');
    CodeTrans(g1, g2, g');
    OnlyIsGrown(g1, g', |g.labels|);
    OnlyIsGrown(g2, g', |g1.labels|);
    PlacedPart(g, g, g1, g', f);
    PlacedPart(g, g1, g2, g', f);
    OnlyIsGrown(h, g', 0);
  }

  lemma {:induction false} SimBinary(x: Ctx, e: Expr, leave: bool, g: Gen, st: Store, c: Config) returns (n: nat,
          d: Config)
    requires e.Binary? && Generator.EmitExpr(e, leave, g).Ok? && ExprSlots(e, x.slots)
    requires Ready(x, g, Generator.After(Generator.EmitExpr(e, leave, g), g), st, c)
    ensures ExprRuns(x, g, |Generator.After(Generator.EmitExpr(e, leave, g), g).ir|, leave, c, Eval(x.ops, e, st), n, d)
    decreases e, 0
  {
    hide Run, CallStmt, OnlyCode, Placed, Match, Grown, Fails, Arrives, KeepsTemps, Generator.EmitExpr, Generator.OpIr;
    var g1, g2, h := BinaryParts(e, e.bop, e.left, e.right, leave, g, x.final);
    var g' := Generator.PopUnless(leave, h);
    var n1, d1 := SimExpr(x, e.left, true, g, st, c);
    match Eval(x.ops, e.left, st)
    case Thrown(v, st1) =>
      n, d := n1, d1;
      RunsWider(x, g, |g1.ir|, |g'.ir|, leave, c, v, st1, n1, d1);
    case Value(v1, st1) =>
      var n2, d2 := SimExpr(x, e.right, true, g1, st1, d1);
      RunsLater(x, g, c, n1, d1, g1, |g2.ir|, true, Eval(x.ops, e.right, st1), n2, d2);
      match Eval(x.ops, e.right, st1)
      case Thrown(v, st2) =>
        n, d := n1 + n2, d2;
        RunsWider(x, g, |g2.ir|, |g'.ir|, leave, c, v, st2, n, d);
      case Value(v2, st2) =>
        assert d2.stack == c.stack + [v1, v2];
        n, d := BinaryTail(x, g, g2, Generator.OpIr(e.bop), c, v1, v2, st2, n1 + n2, d2);
        OpMeans(x.ops, e.bop, v1, v2, st2.w);
        n, d := PopTail(x, g, h, leave, c, Lift(x.ops.BinaryMeaning(e.bop, v1, v2, st2.w), st2), n, d);
  }

  // ---- Unary operators ----

  function UnaryCode(op: Ast.UnaryOp): UnaryIr {
    match op
    case OpBitNot => BitNot
    case OpNegative => Negative
    case OpNot => Not
    case OpPositive => Positive
    case OpTypeof => Typeof
    case OpVoid => ToBoolean  // not used
  }

  lemma UnaryMeans(ops: Ops, op: Ast.UnaryOp, a: Val, w: World)
    requires op != OpVoid
    ensures UnaryRuns(ops, UnaryCode(op), a, w) == ops.UnaryMeaning(op, a, w)
  {
  }

  lemma {:induction false} SimUnary(x: Ctx, e: Expr, leave: bool, g: Gen, st: Store, c: Config) returns (n: nat,
          d: Config)
    requires e.Unary? && Generator.EmitExpr(e, leave, g).Ok? && ExprSlots(e, x.slots)
    requires Ready(x, g, Generator.After(Generator.EmitExpr(e, leave, g), g), st, c)
    ensures ExprRuns(x, g, |Generator.After(Generator.EmitExpr(e, leave, g), g).ir|, leave, c, Eval(x.ops, e, st), n, d)
    decreases e, 0
  {
    hide Run, CallStmt, OnlyCode, Placed, Match, Grown, Fails, Arrives, KeepsTemps;
    var g1 := Generator.EmitExpr(e.e, true, g).value;
    var g' := Generator.EmitExpr(e, leave, g).value;
    EmitExprGrown(e.e, true, g);
    OnlyCodeSelf(g);
    OnlyCodeSelf(g1);
    UnaryGrown(e.uop, leave, g1, g1);
    assert OnlyCode(g1, g');
    OnlyIsGrown(g1, g', |g.labels|);
    PlacedPart(g, g, g1, g', x.final);
    var n1, d1 := SimExpr(x, e.e, true, g, st, c);
    match Eval(x.ops, e.e, st)
    case Thrown(v, st1) =>
      n, d := n1, d1;
      RunsWider(x, g, |g1.ir|, |g'.ir|, leave, c, v, st1, n1, d1);
    case Value(v1, st1) =>
      if e.uop == OpVoid {
        n, d := SimVoid(x, g, g1, g', leave, c, v1, st1, n1, d1);
      } else {
        var h := g1.Emit(Ir.UnaryOp(UnaryCode(e.uop)));
        assert g' == Generator.PopUnless(leave, h);
        PopUnlessGrown(h, leave);
        OnlyIsGrown(h, g', 0);
        n, d := UnaryTail(x, g, g1, UnaryCode(e.uop), c, c.stack, v1, st1, n1, d1);
        UnaryMeans(x.ops, e.uop, v1, st1.w);
        n, d := PopTail(x, g, h, leave, c, Lift(x.ops.UnaryMeaning(e.uop, v1, st1.w), st1), n, d);
      }
  }

  lemma SimVoid(x: Ctx, g: Gen, g1: Gen, g': Gen, leave: bool, c: Config, v: Val, st: Store, n1: nat,
          d1: Config) returns (n: nat, d: Config)
    requires Computes(x, g, |g1.ir|, true, c, v, st, n1, d1) && g'.ir <= x.final.ir
    requires g' == if leave then g1.Emit(Pop).Emit(LoadUndefined) else g1.Emit(Pop)
    ensures ExprRuns(x, g, |g'.ir|, leave, c, Value(Undefined, st), n, d)
  {
    hide Run, Fails;
    PopStep(x, g1, g', d1, c.stack, v);
    d := d1.(ip := d1.ip + 1, stack := c.stack);
    n := n1 + 1;
    ArrivesTrans(x, c, n1, d1, 1, d);
    if leave {
      PushStep(x, g1.Emit(Pop), LoadUndefined, g', d, Undefined);
      ArrivesTrans(x, c, n, d, 1, d.Push(Undefined));
      n, d := n + 1, d.Push(Undefined);
    }
  }

  // ---- Assignment ----

  lemma {:induction false} SimAssign(x: Ctx, e: Expr, leave: bool, g: Gen, st: Store, c: Config) returns (n: nat,
          d: Config)
    requires e.Assign? && Generator.EmitExpr(e, leave, g).Ok? && ExprSlots(e, x.slots)
    requires Ready(x, g, Generator.After(Generator.EmitExpr(e, leave, g), g), st, c)
    ensures ExprRuns(x, g, |Generator.After(Generator.EmitExpr(e, leave, g), g).ir|, leave, c, Eval(x.ops, e, st), n, d)
    decreases e, 0
  {
    hide Run, CallStmt, OnlyCode, Placed, Match, Grown, Fails, Arrives, KeepsTemps;
    var slot := UnwrapParen(e.lhs).slot;
    TargetSlot(e.lhs, x.slots);
    var g' := Generator.EmitExpr(e, leave, g).value;
    if e.op.None? {
      var g2 := Generator.EmitExpr(e.rhs, true, g).value;
      EmitExprGrown(e.rhs, true, g);
      AssignEndGrown(g2, slot, leave);
      OnlyCodeSelf(g);
      OnlyIsGrown(g2, g', |g.labels|);
      PlacedPart(g, g, g2, g', x.final);
      var n1, d1 := SimExpr(x, e.rhs, true, g, st, c);
      match Eval(x.ops, e.rhs, st)
      case Thrown(v, st1) =>
        n, d := n1, d1;
        RunsWider(x, g, |g2.ir|, |g'.ir|, leave, c, v, st1, n1, d1);
      case Value(v, st1) =>
        n, d := AssignTail(x, g, g2, slot, leave, c, v, st1, n1, d1);
    } else {
      n, d := SimCompound(x, e, e.op.value, e.lhs, slot, e.rhs, leave, g, st, c);
    }
  }

  lemma AssignEndGrown(g: Gen, slot: nat, leave: bool)
    ensures OnlyCode(g, Generator.DupIf(leave, g).Emit(StoreLocal(slot)))
  {
    hide OnlyCode;
    OnlyCodeSelf(g);
    StepGrown(g, g, Dup);
    StepGrown(g, Generator.DupIf(leave, g), StoreLocal(slot));
  }

  lemma TargetSlot(lhs: Expr, slots: nat)
    requires ExprSlots(lhs, slots)
    ensures ExprSlots(UnwrapParen(lhs), slots)
  {
    if lhs.Paren? && lhs.exprs.Last? {
      assert ExprsSlots(lhs.exprs, slots) && ExprSlots(lhs.exprs.e, slots);
    }
  }

  lemma {:induction false} SimCompound(x: Ctx, e: Expr, how: BinaryOp, lhs: Expr, slot: nat, rhs: Expr, leave: bool,
          g: Gen, st: Store, c: Config) returns (n: nat, d: Config)
    requires e == Assign(Some(how), lhs, rhs) && UnwrapParen(lhs) == Ident(slot) && slot < x.slots
    requires Generator.EmitExpr(e, leave, g).Ok? && ExprSlots(rhs, x.slots)
    requires Ready(x, g, Generator.After(Generator.EmitExpr(e, leave, g), g), st, c)
    ensures ExprRuns(x, g, |Generator.After(Generator.EmitExpr(e, leave, g), g).ir|, leave, c, Eval(x.ops, e, st), n, d)
    decreases rhs, 5
  {
    hide Run, CallStmt, OnlyCode, Placed, Match, Grown, Fails, Arrives;
    var g' := Generator.EmitExpr(e, leave, g).value;
    var g1 := g.Emit(LoadLocal(slot));
    var g2 := Generator.EmitExpr(rhs, true, g1).value;
    var op := Generator.OpIr(how);
    var g3 := g2.Emit(Ir.BinaryOp(op));
    EmitGrown(g, LoadLocal(slot));
    EmitExprGrown(rhs, true, g1);
    EmitGrown(g2, Ir.BinaryOp(op));
    AssignEndGrown(g3, slot, leave);
    CodeTrans(g2, g3, g');
    CodeTrans(g1, g2, g');
    OnlyIsGrown(g1, g', 0);
    OnlyIsGrown(g2, g', |g1.labels|);
    OnlyIsGrown(g3, g', 0);
    PlacedPart(g, g1, g2, g', x.final);
    LoadSlot(x, slot, g, g', st, c);
    var before := Read(st, slot);
    var d0 := c.Push(before);
    var n1, d1 := SimExpr(x, rhs, true, g1, st, d0);
    RunsLater(x, g, c, 1, d0, g1, |g2.ir|, true, Eval(x.ops, rhs, st), n1, d1);
    match Eval(x.ops, rhs, st)
    case Thrown(v, st1) =>
      n, d := 1 + n1, d1;
      RunsWider(x, g, |g2.ir|, |g'.ir|, leave, c, v, st1, n, d);
    case Value(v, st1) =>
      assert d1.stack == c.stack + [before, v];
      var n2, d2 := BinaryTail(x, g, g2, op, c, before, v, st1, 1 + n1, d1);
      OpMeans(x.ops, how, before, v, st1.w);
      match Lift(x.ops.BinaryMeaning(how, before, v, st1.w), st1)
      case Thrown(v, st2) =>
        n, d := n2, d2;
        RunsWider(x, g, |g3.ir|, |g'.ir|, leave, c, v, st2, n, d);
      case Value(v, st2) =>
        n, d := AssignTail(x, g, g3, slot, leave, c, v, st2, n2, d2);
  }

  // ---- Increments ----

  lemma SimIncr(x: Ctx, op: IncrOp, slot: nat, leave: bool, g: Gen, st: Store, c: Config) returns (n: nat, d: Config)
    requires slot < x.slots && Ready(x, g, Generator.EmitIncr(op, slot, leave, g), st, c)
    ensures ExprRuns(x, g, |Generator.EmitIncr(op, slot, leave, g).ir|, leave, c, Increment(x.ops, op, Ident(slot), st), n, d)
  {
    hide Run, CallStmt, OnlyCode, Match, Grown, Fails, Arrives;
    var g' := Generator.EmitIncr(op, slot, leave, g);
    var g0 := g.Emit(LoadLocal(slot));
    var g1 := g0.Emit(Ir.UnaryOp(ToNumber));
    IncrTailCode(op, slot, leave, g1);
    LoadSlot(x, slot, g, g', st, c);
    var v0 := Read(st, slot);
    n, d := UnaryTail(x, g, g0, ToNumber, c, c.stack, v0, st, 1, c.Push(v0));
    match Lift(x.ops.apply(PToNumber, [v0], st.w), st)
    case Thrown(v, st1) =>
      RunsWider(x, g, |g1.ir|, |g'.ir|, leave, c, v, st1, n, d);
    case Value(v1, st1) =>
      n, d := SimIncrTail(x, op, slot, leave, g, g1, g', c, v1, st1, n, d);
  }

  ghost function IncrStep(op: IncrOp): BinaryIr {
    if op == PreIncr || op == PostIncr then Add else Subtract
  }

  lemma IncrTailCode(op: IncrOp, slot: nat, leave: bool, g1: Gen)
    ensures var step, t := Ir.BinaryOp(IncrStep(op)), g1.locals;
      IncrEnd(op, slot, leave, g1).ir == g1.ir +
        if !leave then [LoadI32(1), step, StoreLocal(slot)]
        else if op == PreIncr || op == PreDecr then [LoadI32(1), step, Dup, StoreLocal(t), StoreLocal(slot), LoadLocal(t)]
        else [Dup, StoreLocal(t), LoadI32(1), step, StoreLocal(slot), LoadLocal(t)]
    ensures forall g: Gen :: g1 == g.Emit(LoadLocal(slot)).Emit(Ir.UnaryOp(ToNumber)) ==> Generator.EmitIncr(op, slot, leave, g) == IncrEnd(op, slot, leave, g1)
    ensures leave ==> IncrEnd(op, slot, leave, g1).locals == g1.locals + 1
  {
  }

  /** What an increment emits after the old value has become a number. */
  ghost function IncrEnd(op: IncrOp, slot: nat, leave: bool, g1: Gen): Gen {
    var step := Ir.BinaryOp(IncrStep(op));
    var temp := g1.locals;
    if !leave then g1.Emit(LoadI32(1)).Emit(step).Emit(StoreLocal(slot))
    else if op == PreIncr || op == PreDecr then
      g1.NewLocal().Emit(LoadI32(1)).Emit(step).Emit(Dup).Emit(StoreLocal(temp)).Emit(StoreLocal(slot)).Emit(LoadLocal(temp))
    else
      g1.NewLocal().Emit(Dup).Emit(StoreLocal(temp)).Emit(LoadI32(1)).Emit(step).Emit(StoreLocal(slot)).Emit(LoadLocal(temp))
  }

  lemma SimIncrTail(x: Ctx, op: IncrOp, slot: nat, leave: bool, g: Gen, g1: Gen, g': Gen, c: Config, v1: Val,
          st: Store, n1: nat, d1: Config)
    returns (n: nat, d: Config)
    requires slot < x.slots && x.slots <= g.locals && g1 == g.Emit(LoadLocal(slot)).Emit(Ir.UnaryOp(ToNumber))
    requires g' == Generator.EmitIncr(op, slot, leave, g) && Placed(g, g', x.final)
    requires Computes(x, g, |g1.ir|, true, c, v1, st, n1, d1)
    ensures ExprRuns(x, g, |g'.ir|, leave, c, Incremented(op, slot, v1, OneMore(x.ops, op, v1, st)), n, d)
  {
    hide Run, CallStmt, OnlyCode, Grown, Fails, ExprRuns, Computes, Generator.EmitIncr;
    IncrTailCode(op, slot, leave, g1);
    assert g' == IncrEnd(op, slot, leave, g1);
    if !leave {
      n, d := SimIncrPlain(x, op, slot, g, g1, g', c, v1, st, n1, d1);
    } else if op == PreIncr || op == PreDecr {
      n, d := SimIncrPre(x, op, slot, g, g1, g', c, v1, st, n1, d1);
    } else {
      n, d := SimIncrPost(x, op, slot, g, g1, g', c, v1, st, n1, d1);
    }
  }

  /** One more or less: pushes 1 and adds or subtracts. `base` may hold a saved copy. */
  lemma SimOneMore(x: Ctx, op: IncrOp, g: Gen, h: Gen, b: Gen, c: Config, v1: Val, st: Store, n1: nat,
          d1: Config) returns (n: nat, d: Config)
    requires h.Emit(LoadI32(1)).Emit(Ir.BinaryOp(IncrStep(op))).ir <= b.ir <= x.final.ir && |g.ir| <= |h.ir|
    requires Computes(x, g, |h.ir|, true, c, v1, st, n1, d1)
    ensures ExprRuns(x, g, |h.ir| + 2, true, c, OneMore(x.ops, op, v1, st), n, d)
    ensures d.locals == d1.locals
  {
    hide Run, Fails, Arrives;
    PushStep(x, h, LoadI32(1), b, d1, Num(1.0));
    ArrivesTrans(x, c, n1, d1, 1, d1.Push(Num(1.0)));
    assert d1.Push(Num(1.0)).stack == c.stack + [v1, Num(1.0)];
    n, d := BinaryTail(x, g, h.Emit(LoadI32(1)), IncrStep(op), c, v1, Num(1.0), st, n1 + 1, d1.Push(Num(1.0)));
  }

  lemma SimIncrPlain(x: Ctx, op: IncrOp, slot: nat, g: Gen, g1: Gen, g': Gen, c: Config, v1: Val, st: Store, n1: nat,
          d1: Config)
    returns (n: nat, d: Config)
    requires slot < x.slots && g'.ir <= x.final.ir && |g.ir| <= |g1.ir|
    requires g'.ir == g1.ir + [LoadI32(1), Ir.BinaryOp(IncrStep(op)), StoreLocal(slot)]
    requires Computes(x, g, |g1.ir|, true, c, v1, st, n1, d1)
    ensures ExprRuns(x, g, |g'.ir|, false, c, Incremented(op, slot, v1, OneMore(x.ops, op, v1, st)), n, d)
  {
    hide Run, CallStmt, Fails, Match, Arrives, KeepsTemps;
    var h := g1.Emit(LoadI32(1)).Emit(Ir.BinaryOp(IncrStep(op)));
    n, d := SimOneMore(x, op, g, g1, g', c, v1, st, n1, d1);
    match OneMore(x.ops, op, v1, st)
    case Thrown(v, st1) =>
    case Value(r, st1) =>
      assert h.Emit(StoreLocal(slot)).ir == g'.ir;
      n, d := AssignTail(x, g, h, slot, false, c, r, st1, n, d);
  }

  /** Saves a copy of the top of the stack in a temporary. */
  lemma SaveTemp(x: Ctx, g: Gen, h: Gen, temp: nat, b: Gen, c: Config, v: Val, st: Store, n: nat,
          d: Config) returns (n': nat, d': Config)
    requires Computes(x, g, |h.ir|, true, c, v, st, n, d) && g.locals <= temp < x.final.locals && x.slots <= g.locals
    requires h.Emit(Dup).Emit(StoreLocal(temp)).ir <= b.ir <= x.final.ir
    ensures Computes(x, g, |h.ir| + 2, true, c, v, st, n', d') && InSlot(d', temp, v)
  {
    hide Run, CallStmt;
    DupPushes(x.ops, d, c.stack, v);
    PushStep(x, h, Dup, b, d, v);
    var e := d.Push(v);
    ArrivesTrans(x, c, n, d, 1, e);
    assert e.stack == d.stack + [v];
    StoreStep(x, h.Emit(Dup), temp, b, e, d.stack, v);
    d' := e.(ip := e.ip + 1, stack := d.stack, locals := e.locals[temp := v]);
    n' := n + 2;
    ArrivesTrans(x, c, n + 1, e, 1, d');
    assert d'.locals[..x.slots] == d.locals[..x.slots];
  }

  /** Stores into the variable and brings the saved copy back. */
  lemma StoreAndReload(x: Ctx, g: Gen, h: Gen, slot: nat, temp: nat, b: Gen, c: Config, v: Val, saved: Val, st: Store,
          n: nat, d: Config)
    returns (n': nat, d': Config)
    requires Computes(x, g, |h.ir|, true, c, v, st, n, d) && slot < x.slots <= g.locals <= temp
    requires InSlot(d, temp, saved)
    requires h.Emit(StoreLocal(slot)).Emit(LoadLocal(temp)).ir <= b.ir <= x.final.ir
    ensures Computes(x, g, |h.ir| + 2, true, c, saved, Write(st, slot, v), n', d')
  {
    hide Run, CallStmt;
    StoreStep(x, h, slot, b, d, c.stack, v);
    var e := d.(ip := d.ip + 1, stack := c.stack, locals := d.locals[slot := v]);
    ArrivesTrans(x, c, n, d, 1, e);
    LoadsLocal(x.ops, e, temp, saved);
    PushStep(x, h.Emit(StoreLocal(slot)), LoadLocal(temp), b, e, saved);
    d' := e.Push(saved);
    n' := n + 2;
    ArrivesTrans(x, c, n + 1, e, 1, d');
    assert d'.locals[..x.slots] == d.locals[..x.slots][slot := v];
  }

  lemma LoadsLocal(ops: Ops, e: Config, slot: nat, v: Val)
    requires InSlot(e, slot, v)
    ensures CallStmt(ops, LoadLocal(slot), e) == Advance(e.Push(v))
  {
  }

  lemma SimIncrPre(x: Ctx, op: IncrOp, slot: nat, g: Gen, g1: Gen, g': Gen, c: Config, v1: Val, st: Store, n1: nat,
          d1: Config)
    returns (n: nat, d: Config)
    requires slot < x.slots <= g.locals && g'.ir <= x.final.ir && |g.ir| <= |g1.ir|
    requires g.locals == g1.locals < x.final.locals
    requires g'.ir == g1.ir + [LoadI32(1), Ir.BinaryOp(IncrStep(op)), Dup, StoreLocal(g1.locals), StoreLocal(slot), LoadLocal(g1.locals)]
    requires (op == PreIncr || op == PreDecr) && Computes(x, g, |g1.ir|, true, c, v1, st, n1, d1)
    ensures ExprRuns(x, g, |g'.ir|, true, c, Incremented(op, slot, v1, OneMore(x.ops, op, v1, st)), n, d)
  {
    hide Run, CallStmt, Fails, Match, Arrives, KeepsTemps;
    var h := g1.Emit(LoadI32(1)).Emit(Ir.BinaryOp(IncrStep(op)));
    n, d := SimOneMore(x, op, g, g1, g', c, v1, st, n1, d1);
    match OneMore(x.ops, op, v1, st)
    case Thrown(v, st1) =>
    case Value(r, st1) =>
      n, d := SaveTemp(x, g, h, g1.locals, g', c, r, st1, n, d);
      n, d := StoreAndReload(x, g, h.Emit(Dup).Emit(StoreLocal(g1.locals)), slot, g1.locals, g', c, r, r, st1, n, d);
  }

  lemma SimIncrPost(x: Ctx, op: IncrOp, slot: nat, g: Gen, g1: Gen, g': Gen, c: Config, v1: Val, st: Store, n1: nat,
          d1: Config)
    returns (n: nat, d: Config)
    requires slot < x.slots <= g.locals && g'.ir <= x.final.ir && |g.ir| <= |g1.ir|
    requires g.locals == g1.locals < x.final.locals
    requires g'.ir == g1.ir + [Dup, StoreLocal(g1.locals), LoadI32(1), Ir.BinaryOp(IncrStep(op)), StoreLocal(slot), LoadLocal(g1.locals)]
    requires (op == PostIncr || op == PostDecr) && Computes(x, g, |g1.ir|, true, c, v1, st, n1, d1)
    ensures ExprRuns(x, g, |g'.ir|, true, c, Incremented(op, slot, v1, OneMore(x.ops, op, v1, st)), n, d)
  {
    hide Run, CallStmt, Fails, Match, Arrives, KeepsTemps;
    var h0 := g1.Emit(Dup).Emit(StoreLocal(g1.locals));
    var h := h0.Emit(LoadI32(1)).Emit(Ir.BinaryOp(IncrStep(op)));
    var n2, d2 := SaveTemp(x, g, g1, g1.locals, g', c, v1, st, n1, d1);
    n, d := SimOneMore(x, op, g, h0, g', c, v1, st, n2, d2);
    match OneMore(x.ops, op, v1, st)
    case Thrown(v, st1) =>
    case Value(r, st1) =>
      n, d := StoreAndReload(x, g, h, slot, g1.locals, g', c, r, v1, st1, n, d);
  }

  // ---- Choices ----

  lemma MarkEarlier(a: Gen, g: Gen, l: nat, lo: nat)
    requires Grown(a, g, lo) && l < lo
    ensures Grown(a, g.Mark(l), lo)
  {
  }

  lemma MarkedHere(g: Gen, l: nat)
    requires l < |g.labels|
    ensures LabelAt(g.Mark(l).labels, l) == |g.ir| && |g.Mark(l).labels| == |g.labels| && g.Mark(l).ir == g.ir
    ensures g.Mark(l).ret == g.ret
  {
  }

  lemma KeptLabel(a: Gen, b: Gen, l: nat)
    requires OnlyCode(a, b) && l < |a.labels|
    ensures l < |b.labels| && LabelAt(b.labels, l) == LabelAt(a.labels, l) && b.ret == a.ret
  {
  }

  /** A label of one's own that was marked and then left alone has its value in the finished function. */
  lemma OwnLabel(g: Gen, h: Gen, l: nat, g': Gen, f: Gen)
    requires Placed(g, g', f) && |g.labels| <= l < |h.labels| && OnlyCode(h.Mark(l), g') && g'.ret == g.ret
    ensures LabelAt(f.labels, l) == |h.ir|
  {
    hide Grown, OnlyCode;
    MarkedHere(h, l);
    KeptLabel(h.Mark(l), g', l);
    FinalLabel(g, g', f, l);
  }

  /** The copy, the conversion and the jump of a logical operator. */
  lemma SimDecide(x: Ctx, g1: Gen, jump: Ir, l: nat, b: Gen, d1: Config, base: seq<Val>, a: Val) returns (d: Config)
    requires (jump == JumpFalse(l) || jump == JumpTrue(l)) && g1.Emit(Dup).Emit(Ir.UnaryOp(ToBoolean)).Emit(jump).ir <= b.ir <= x.final.ir
    requires d1.ip == |g1.ir| && d1.stack == base + [a]
    ensures Arrives(x, d1, 3, d) && d == d1.(ip := d.ip)
    ensures d.ip == if x.ops.ToBoolean(a) == jump.JumpTrue? then LabelAt(x.final.labels, l) else |g1.ir| + 3
  {
    hide Run, CallStmt;
    DupPushes(x.ops, d1, base, a);
    PushStep(x, g1, Dup, b, d1, a);
    var d2 := d1.Push(a);
    assert d2.stack == d1.stack + [a];
    UnaryStep(x, g1.Emit(Dup), ToBoolean, b, d2, d1.stack, a, UnaryRuns(x.ops, ToBoolean, a, d2.w));
    var d3 := d2.(ip := d2.ip + 1, stack := d1.stack + [Bool(x.ops.ToBoolean(a))]);
    ArrivesTrans(x, d1, 1, d2, 1, d3);
    BranchStep(x, g1.Emit(Dup).Emit(Ir.UnaryOp(ToBoolean)), jump, b, d3, d1.stack, Bool(x.ops.ToBoolean(a)));
    var taken := x.ops.ToBoolean(a) == jump.JumpTrue?;
    d := d3.(ip := if taken then LabelAt(x.final.labels, l) else d3.ip + 1, stack := d1.stack);
    ArrivesTrans(x, d1, 2, d3, 1, d);
  }

  lemma LogicalParts(e: Expr, l: Expr, r: Expr, after: nat, leave: bool, g: Gen, f: Gen) returns (g1: Gen, gd: Gen,
          g2: Gen)
    requires (e == And(l, r) || e == Or(l, r)) && after == |g.labels|
    requires Generator.EmitLogical(e, leave, g).Ok?
    requires Placed(g, Generator.After(Generator.EmitLogical(e, leave, g), g), f)
    ensures Generator.EmitExpr(l, true, g.NewLabel()) == Generator.Ok(g1)
    ensures Generator.EmitExpr(r, true, gd) == Generator.Ok(g2)
    ensures var jump := if e.And? then JumpFalse(after) else JumpTrue(after);
      gd == g1.Emit(Dup).Emit(Ir.UnaryOp(ToBoolean)).Emit(jump).Emit(Pop)
    ensures Generator.After(Generator.EmitLogical(e, leave, g), g) == Generator.PopUnless(leave, g2.Mark(|g.labels|))
    ensures Placed(g.NewLabel(), g1, f) && Placed(gd, g2, f) && LabelAt(f.labels, |g.labels|) == |g2.ir|
    ensures g.locals <= g1.locals <= gd.locals && |g.ir| <= |g1.ir| <= |gd.ir| <= |g2.ir| && gd.ir <= g2.ir
    ensures Generator.PopUnless(leave, g2.Mark(|g.labels|)).ir <= f.ir && g2.ir <= f.ir
    ensures g.locals == g.NewLabel().locals
  {
    hide Placed, OnlyCode, Grown;
    var g0 := g.NewLabel();
    g1 := Generator.EmitExpr(l, true, g0).value;
    var jump := if e.And? then JumpFalse(after) else JumpTrue(after);
    gd := g1.Emit(Dup).Emit(Ir.UnaryOp(ToBoolean)).Emit(jump).Emit(Pop);
    g2 := Generator.EmitExpr(r, true, gd).value;
    var g' := Generator.PopUnless(leave, g2.Mark(after));
    LabelGrown(g);
    EmitExprGrown(l, true, g0);
    OnlyCodeSelf(g1);
    Steps3(g1, g1, Dup, Ir.UnaryOp(ToBoolean), jump);
    StepGrown(g1, g1.Emit(Dup).Emit(Ir.UnaryOp(ToBoolean)).Emit(jump), Pop);
    EmitExprGrown(r, true, gd);
    CodeTrans(g1, gd, g2);
    CodeTrans(g0, g1, gd);
    CodeTrans(g, g0, gd);
    PopUnlessGrown(g2.Mark(after), leave);
    LogicalEnd(g, g0, g1, g2, g', after);
    LogicalEnd(g, gd, g2, g2, g', after) by {
      OnlyCodeSelf(g2);
      LabelCount(g0, gd);
    }
    PlacedPart(g, g0, g1, g', f);
    PlacedPart(g, gd, g2, g', f);
    LogicalGrown(e, leave, g);
    LabelCount(g0, g2) by { CodeTrans(g0, gd, g2); }
    OwnLabel(g, g2, after, g', f) by { KeptReturn(g, g'); }
    LabelCount(gd, g2);
  }

  lemma KeptReturn(a: Gen, b: Gen)
    requires OnlyCode(a, b)
    ensures b.ret == a.ret
  {
  }

  lemma LabelCount(a: Gen, b: Gen)
    requires OnlyCode(a, b)
    ensures |a.labels| <= |b.labels| && |a.ir| <= |b.ir| && a.locals <= b.locals && a.ir <= b.ir
  {
  }

  /** Marking a label older than `y` does not disturb the labels made since. */
  lemma LogicalEnd(g: Gen, y: Gen, z: Gen, g2: Gen, g': Gen, after: nat)
    requires OnlyCode(z, g2) && OnlyCode(g2.Mark(after), g') && after < |y.labels|
    ensures Grown(z, g', |y.labels|)
  {
    hide OnlyCode, Grown;
    OnlyIsGrown(z, g2, |y.labels|);
    MarkEarlier(z, g2, after, |y.labels|);
    OnlyIsGrown(g2.Mark(after), g', |y.labels|);
    GrownTrans(z, g2.Mark(after), g', |y.labels|);
  }

  lemma {:induction false} SimLogical(x: Ctx, e: Expr, leave: bool, g: Gen, st: Store, c: Config) returns (n: nat,
          d: Config)
    requires (e.And? || e.Or?) && Generator.EmitExpr(e, leave, g).Ok? && ExprSlots(e, x.slots)
    requires Ready(x, g, Generator.After(Generator.EmitExpr(e, leave, g), g), st, c)
    ensures ExprRuns(x, g, |Generator.After(Generator.EmitExpr(e, leave, g), g).ir|, leave, c, Eval(x.ops, e, st), n, d)
    decreases e, 0
  {
    hide Run, CallStmt, OnlyCode, Placed, Match, Grown, Fails, Arrives, KeepsTemps, Generator.EmitLogical;
    var after := |g.labels|;
    var g' := Generator.EmitLogical(e, leave, g).value;
    var g1, gd, g2 := LogicalParts(e, e.left, e.right, after, leave, g, x.final);
    var gm := g2.Mark(after);
    assert gm.ir == g2.ir;
    var n1, d1 := SimExpr(x, e.left, true, g.NewLabel(), st, c);
    match Eval(x.ops, e.left, st)
    case Thrown(v, st1) =>
      n, d := n1, d1;
      RunsWider(x, g, |g1.ir|, |g'.ir|, leave, c, v, st1, n1, d1);
    case Value(a, st1) =>
      var jump := if e.And? then JumpFalse(after) else JumpTrue(after);
      var d2 := SimDecide(x, g1, jump, after, g2, d1, c.stack, a);
      ArrivesTrans(x, c, n1, d1, 3, d2);
      SameTemps(x, g.NewLabel(), g, c, d1);
      MatchIp(x, g, st1, c, d1, d2);
      if x.ops.ToBoolean(a) == jump.JumpTrue? {
        n, d := PopTail(x, g, gm, leave, c, Value(a, st1), n1 + 3, d2);
      } else {
        n, d := SimOtherSide(x, e.right, leave, g, g1, jump, gd, g2, c, a, st1, n1 + 3, d2);
      }
  }

  lemma MatchIp(x: Ctx, g: Gen, st: Store, c: Config, d: Config, d': Config)
    requires Match(x, st, d) && KeepsTemps(x, g, c, d) && d' == d.(ip := d'.ip)
    ensures Match(x, st, d') && KeepsTemps(x, g, c, d')
  {
  }

  /** The left operand did not decide: it is dropped and the right one evaluated. */
  lemma {:induction false} SimOtherSide(x: Ctx, right: Expr, leave: bool, g: Gen, g1: Gen, jump: Ir, gd: Gen, g2: Gen,
          c: Config, a: Val, st: Store,
                     n2: nat, d2: Config) returns (n: nat, d: Config)
    requires ExprSlots(right, x.slots) && Generator.EmitExpr(right, true, gd) == Generator.Ok(g2)
    requires gd == g1.Emit(Dup).Emit(Ir.UnaryOp(ToBoolean)).Emit(jump).Emit(Pop) && gd.ir <= g2.ir <= x.final.ir
    requires Placed(gd, g2, x.final) && x.slots <= g.locals <= gd.locals && |g.ir| <= |g1.ir|
    requires Arrives(x, c, n2, d2) && d2.ip == |g1.ir| + 3 && Match(x, st, d2) && d2.thrown == c.thrown
    requires KeepsTemps(x, g, c, d2)
    requires d2.stack == c.stack + [a] && Generator.PopUnless(leave, g2.Mark(|g.labels|)).ir <= x.final.ir
    ensures ExprRuns(x, g, |Generator.PopUnless(leave, g2.Mark(|g.labels|)).ir|, leave, c, Eval(x.ops, right, st), n, d)
    decreases right, 5
  {
    hide Run, CallStmt, OnlyCode, Placed, Grown, Fails, Arrives;
    var gm := g2.Mark(|g.labels|);
    assert gm.ir == g2.ir;
    PopStep(x, g1.Emit(Dup).Emit(Ir.UnaryOp(ToBoolean)).Emit(jump), g2, d2, c.stack, a);
    var d3 := d2.(ip := d2.ip + 1, stack := c.stack);
    ArrivesTrans(x, c, n2, d2, 1, d3);
    var n4, d4 := SimExpr(x, right, true, gd, st, d3);
    RunsLater(x, g, c, n2 + 1, d3, gd, |g2.ir|, true, Eval(x.ops, right, st), n4, d4);
    n, d := n2 + 1 + n4, d4;
    n, d := PopTail(x, g, gm, leave, c, Eval(x.ops, right, st), n, d);
  }

  lemma {:induction false} SimExprs(x: Ctx, es: Exprs, leave: bool, g: Gen, st: Store, c: Config) returns (n: nat,
          d: Config)
    requires Generator.EmitExprs(es, leave, g).Ok? && ExprsSlots(es, x.slots)
    requires Ready(x, g, Generator.After(Generator.EmitExprs(es, leave, g), g), st, c)
    ensures ExprRuns(x, g, |Generator.After(Generator.EmitExprs(es, leave, g), g).ir|, leave, c, EvalSeq(x.ops, es, st), n, d)
    decreases es, 3
  {
    hide Run, CallStmt, OnlyCode, Placed, Match, Grown, Fails, Arrives, KeepsTemps, Generator.EmitExpr, Eval;
    match es
    case Last(e) =>
      n, d := SimExpr(x, e, leave, g, st, c);
    case More(e, rest) =>
      var g1 := Generator.EmitExpr(e, false, g).value;
      var g' := Generator.EmitExprs(rest, leave, g1).value;
      EmitExprGrown(e, false, g);
      EmitExprsGrown(rest, leave, g1);
      TwoParts(g, g1, g', x.final);
      var n1, d1 := SimExpr(x, e, false, g, st, c);
      match Eval(x.ops, e, st)
      case Thrown(v, st1) =>
        n, d := n1, d1;
        RunsWider(x, g, |g1.ir|, |g'.ir|, leave, c, v, st1, n1, d1);
      case Value(v, st1) =>
        var n2, d2 := SimExprs(x, rest, leave, g1, st1, d1);
        RunsLater(x, g, c, n1, d1, g1, |g'.ir|, leave, EvalSeq(x.ops, rest, st1), n2, d2);
        n, d := n1 + n2, d2;
  }

  /** Two pieces of code in sequence. */
  lemma TwoParts(g: Gen, g1: Gen, g': Gen, f: Gen)
    requires OnlyCode(g, g1) && OnlyCode(g1, g') && Placed(g, g', f)
    ensures Placed(g, g1, f) && Placed(g1, g', f)
    ensures |g.ir| <= |g1.ir| <= |g'.ir| && g.locals <= g1.locals <= g'.locals && g1.ir <= g'.ir <= f.ir
  {
    hide Placed, OnlyCode, Grown;
    OnlyCodeSelf(g);
    OnlyCodeSelf(g');
    OnlyIsGrown(g1, g', |g.labels|);
    OnlyIsGrown(g', g', |g1.labels|);
    PlacedPart(g, g, g1, g', f);
    PlacedPart(g, g1, g', g', f) by { }
  }

  // ---- Tests ----

  /** A test jumps when the value's truth differs from `inverse` and falls through otherwise, leaving nothing. */
  ghost predicate Tested(x: Ctx, g: Gen, end: int, at: int, inverse: bool, c: Config, r: EvalResult, n: int,
          d: Config) {
    match r
    case Value(v, st) =>
      && n > 0 && Computes(x, g, d.ip, false, c, v, st, n, d)
      && d.ip == if x.ops.ToBoolean(v) != inverse then LabelAt(x.final.labels, at) else end
    case Thrown(v, st) => ThrowsIn(x, |g.ir|, end, c.stack, c, v, st, n, d)
  }

  lemma {:induction false} SimTest(x: Ctx, e: Expr, at: nat, inverse: bool, g: Gen, st: Store,
          c: Config) returns (n: nat, d: Config)
    requires Generator.EmitTest(e, at, inverse, g).Ok? && ExprSlots(e, x.slots)
    requires Ready(x, g, Generator.After(Generator.EmitTest(e, at, inverse, g), g), st, c)
    ensures Tested(x, g, |Generator.After(Generator.EmitTest(e, at, inverse, g), g).ir|, at, inverse, c, Eval(x.ops, e, st), n, d)
    decreases e, 2
  {
    hide Run, CallStmt, OnlyCode, Placed, Grown, Fails, Generator.EmitExpr, Eval;
    var g1 := Generator.EmitExpr(e, true, g).value;
    var jump := if inverse then JumpFalse(at) else JumpTrue(at);
    var g' := g1.Emit(jump);
    EmitExprGrown(e, true, g);
    EmitGrown(g1, jump);
    TwoParts(g, g1, g', x.final);
    n, d := SimExpr(x, e, true, g, st, c);
    match Eval(x.ops, e, st)
    case Thrown(v, st1) =>
      RunsWider(x, g, |g1.ir|, |g'.ir|, true, c, v, st1, n, d);
    case Value(v, st1) =>
      BranchStep(x, g1, jump, g', d, c.stack, v);
      var d' := Branched(x, jump, d, c.stack, v);
      ArrivesTrans(x, c, n, d, 1, d');
      n, d := n + 1, d';
  }

  lemma {:induction false} SimTests(x: Ctx, es: Exprs, at: nat, inverse: bool, g: Gen, st: Store,
          c: Config) returns (n: nat, d: Config)
    requires Generator.EmitTests(es, at, inverse, g).Ok? && ExprsSlots(es, x.slots)
    requires Ready(x, g, Generator.After(Generator.EmitTests(es, at, inverse, g), g), st, c)
    ensures Tested(x, g, |Generator.After(Generator.EmitTests(es, at, inverse, g), g).ir|, at, inverse, c, EvalSeq(x.ops, es, st), n, d)
    decreases es, 3
  {
    hide Run, CallStmt, OnlyCode, Placed, Match, Grown, Fails, Arrives, KeepsTemps, Generator.EmitExpr, Eval,
      Generator.EmitTest;
    match es
    case Last(e) =>
      n, d := SimTest(x, e, at, inverse, g, st, c);
    case More(e, rest) =>
      var g1 := Generator.EmitExpr(e, false, g).value;
      var g' := Generator.EmitTests(rest, at, inverse, g1).value;
      EmitExprGrown(e, false, g);
      EmitTestsGrown(rest, at, inverse, g1);
      TwoParts(g, g1, g', x.final);
      var n1, d1 := SimExpr(x, e, false, g, st, c);
      match Eval(x.ops, e, st)
      case Thrown(v, st1) =>
        n, d := n1, d1;
        RunsWider(x, g, |g1.ir|, |g'.ir|, true, c, v, st1, n1, d1);
      case Value(v, st1) =>
        var n2, d2 := SimTests(x, rest, at, inverse, g1, st1, d1);
        TestedLater(x, g, c, n1, d1, g1, |g'.ir|, at, inverse, EvalSeq(x.ops, rest, st1), n2, d2);
        n, d := n1 + n2, d2;
  }

  lemma TestedLater(x: Ctx, g: Gen, c: Config, n: nat, d: Config, g1: Gen, end: nat, at: nat, inverse: bool,
          r: EvalResult, n1: nat, d1: Config)
    requires Arrives(x, c, n, d) && d.thrown == c.thrown && KeepsTemps(x, g, c, d) && d.stack == c.stack
    requires Tested(x, g1, end, at, inverse, d, r, n1, d1) && g.locals <= g1.locals && |g.ir| <= |g1.ir|
    ensures Tested(x, g, end, at, inverse, c, r, n + n1, d1)
  {
    hide Run, Fails, Match, KeepsTemps, Arrives;
    RunsLater(x, g, c, n, d, g1, if r.Value? then d1.ip else end, false, r, n1, d1);
  }

  // ---- The conditional operator ----

  lemma TernaryParts(e: Expr, t: Expr, a: Expr, b: Expr, els: nat, after: nat, leave: bool, g: Gen,
          f: Gen) returns (g1: Gen, g2: Gen, gj: Gen, g3: Gen)
    requires e == Ternary(t, a, b) && els == |g.labels| && after == els + 1
    requires Generator.EmitExpr(e, leave, g).Ok? && Placed(g, Generator.After(Generator.EmitExpr(e, leave, g), g), f)
    ensures Generator.EmitTest(t, els, true, g.NewLabel().NewLabel()) == Generator.Ok(g1)
    ensures Generator.EmitExpr(a, leave, g1) == Generator.Ok(g2)
    ensures Generator.EmitExpr(b, leave, gj) == Generator.Ok(g3)
    ensures gj == g2.Emit(Jump(after)).Mark(|g.labels|)
    ensures Generator.After(Generator.EmitExpr(e, leave, g), g) == g3.Mark(|g.labels| + 1)
    ensures Placed(g.NewLabel().NewLabel(), g1, f) && Placed(g1, g2, f) && Placed(gj, g3, f)
    ensures LabelAt(f.labels, |g.labels|) == |gj.ir| && LabelAt(f.labels, |g.labels| + 1) == |g3.ir|
    ensures g.locals <= g1.locals <= gj.locals && |g.ir| <= |g1.ir| <= |g2.ir| <= |g3.ir|
    ensures gj.ir <= g3.ir <= f.ir && gj.ir == g2.ir + [Jump(after)]
    ensures Generator.After(Generator.EmitExpr(e, leave, g), g).ir == g3.ir
  {
    hide Placed, OnlyCode, Grown;
    var g0 := g.NewLabel().NewLabel();
    g1 := Generator.EmitTest(t, els, true, g0).value;
    g2 := Generator.EmitExpr(a, leave, g1).value;
    var ge := g2.Emit(Jump(after));
    gj := ge.Mark(els);
    g3 := Generator.EmitExpr(b, leave, gj).value;
    var g' := g3.Mark(els + 1);
    TernaryGrown(e, leave, g);
    LabelGrown(g);
    LabelGrown(g.NewLabel());
    CodeTrans(g, g.NewLabel(), g0);
    TestGrown(t, els, true, g0);
    EmitExprGrown(a, leave, g1);
    EmitGrown(g2, Jump(after));
    EmitExprGrown(b, leave, gj);
    CodeTrans(g0, g1, g2);
    CodeTrans(g, g0, g2);
    CodeTrans(g, g2, ge);
    MarkLater(g, ge, els);
    LabelCount(g0, g1);
    LabelCount(g1, g2);
    LabelCount(g2, ge);
    LabelCount(gj, g3);
    TernaryEnd(els, after, g, g0, g1, g2, ge, gj, g3, g');
    PlacedPart(g, g0, g1, g', f) by { CodeTrans(g, g0, g1); }
    PlacedPart(g, g1, g2, g', f) by { CodeTrans(g, g0, g1); }
    PlacedPart(g, gj, g3, g', f);
    KeptReturn(g, g');
    ElseLabel(g, ge, g3, g', f, els);
    OnlyCodeSelf(g');
    OwnLabel(g, g3, els + 1, g', f);
  }

  /** The first label: marked before the second branch, which leaves it alone. */
  lemma ElseLabel(g: Gen, ge: Gen, g3: Gen, g': Gen, f: Gen, els: nat)
    requires Placed(g, g', f) && |g.labels| <= els < |ge.labels| && OnlyCode(ge.Mark(els), g3) && g' == g3.Mark(els + 1)
    requires g'.ret == g.ret
    ensures LabelAt(f.labels, els) == |ge.ir|
  {
    hide Grown, OnlyCode;
    MarkedHere(ge, els);
    KeptLabel(ge.Mark(els), g3, els);
    FinalLabel(g, g', f, els);
  }

  lemma TernaryEnd(els: nat, after: nat, g: Gen, g0: Gen, g1: Gen, g2: Gen, ge: Gen, gj: Gen, g3: Gen, g': Gen)
    requires g0 == g.NewLabel().NewLabel() && els == |g.labels| && after == els + 1 && ge == g2.Emit(Jump(after))
    requires gj == ge.Mark(|g.labels|)
    requires g' == g3.Mark(|g.labels| + 1)
    requires OnlyCode(g0, g1) && OnlyCode(g1, g2) && OnlyCode(g2, ge) && OnlyCode(gj, g3)
    ensures Grown(g1, g', |g0.labels|) && Grown(g2, g', |g1.labels|) && Grown(g3, g', |gj.labels|)
  {
    hide OnlyCode, Grown;
    var lo := |g0.labels|;
    LabelCount(g0, g1);
    LabelCount(g1, g2);
    LabelCount(g2, ge);
    LabelCount(gj, g3);
    OnlyIsGrown(g2, ge, lo);
    MarkEarlier(g2, ge, |g.labels|, lo);
    OnlyIsGrown(gj, g3, lo);
    GrownTrans(g2, gj, g3, lo);
    MarkEarlier(g2, g3, |g.labels| + 1, lo);
    OnlyIsGrown(g1, g2, lo);
    GrownTrans(g1, g2, g', lo);
    GrownFrom(g2, g', lo, |g1.labels|);
    OnlyCodeSelf(g3);
    OnlyIsGrown(g3, g3, |gj.labels|);
    MarkEarlier(g3, g3, |g.labels| + 1, |gj.labels|);
  }

  lemma {:induction false} SimTernary(x: Ctx, e: Expr, leave: bool, g: Gen, st: Store, c: Config) returns (n: nat,
          d: Config)
    requires e.Ternary? && Generator.EmitExpr(e, leave, g).Ok? && ExprSlots(e, x.slots)
    requires Ready(x, g, Generator.After(Generator.EmitExpr(e, leave, g), g), st, c)
    ensures ExprRuns(x, g, |Generator.After(Generator.EmitExpr(e, leave, g), g).ir|, leave, c, Eval(x.ops, e, st), n, d)
    decreases e, 0
  {
    hide Run, CallStmt, OnlyCode, Placed, Match, Grown, Fails, Arrives, KeepsTemps, Generator.EmitExpr;
    var g1, g2, gj, g3 := TernaryParts(e, e.test, e.thn, e.els, |g.labels|, |g.labels| + 1, leave, g, x.final);
    var g0 := g.NewLabel().NewLabel();
    var end := |g3.ir|;
    var n1, d1 := SimTest(x, e.test, |g.labels|, true, g0, st, c);
    match Eval(x.ops, e.test, st)
    case Thrown(v, st1) =>
      n, d := n1, d1;
      RunsWider(x, g, |g1.ir|, end, leave, c, v, st1, n1, d1);
    case Value(v, st1) =>
      SameTemps(x, g0, g, c, d1);
      if x.ops.ToBoolean(v) {
        var n2, d2 := SimExpr(x, e.thn, leave, g1, st1, d1);
        RunsLater(x, g, c, n1, d1, g1, |g2.ir|, leave, Eval(x.ops, e.thn, st1), n2, d2);
        n, d := n1 + n2, d2;
        n, d := SkipElse(x, g, g2, gj, end, leave, c, Eval(x.ops, e.thn, st1), |g.labels| + 1, n, d);
      } else {
        var n2, d2 := SimExpr(x, e.els, leave, gj, st1, d1);
        RunsLater(x, g, c, n1, d1, gj, end, leave, Eval(x.ops, e.els, st1), n2, d2);
        n, d := n1 + n2, d2;
      }
  }

  lemma SameTemps(x: Ctx, g0: Gen, g: Gen, c: Config, d: Config)
    requires KeepsTemps(x, g0, c, d) && g0.locals == g.locals
    ensures KeepsTemps(x, g, c, d)
  {
  }

  /** After the first branch, the jump over the second. */
  lemma SkipElse(x: Ctx, g: Gen, g2: Gen, gj: Gen, end: nat, leave: bool, c: Config, r: EvalResult, after: nat,
          n1: nat, d1: Config)
    returns (n: nat, d: Config)
    requires ExprRuns(x, g, |g2.ir|, leave, c, r, n1, d1) && |g2.ir| <= end
    requires gj.ir == g2.ir + [Jump(after)] && gj.ir <= x.final.ir && LabelAt(x.final.labels, after) == end
    ensures ExprRuns(x, g, end, leave, c, r, n, d)
  {
    hide Run, CallStmt, Fails;
    n, d := n1, d1;
    if r.Value? {
      JumpStep(x, g2, after, gj, d1);
      n, d := n1 + 1, d1.(ip := end);
      ArrivesTrans(x, c, n1, d1, 1, d);
    }
  }
}
