/** Statements: running the emitted code has the outcome the structured semantics prescribes. */
module ItemCorrect {
  import opened Ast
  import opened Semantics
  import opened ExceptionTable
  import opened IrBuilder
  import Generator
  import opened GeneratorFacts
  import opened Interpreter
  import opened ExprCorrect
  import opened Pieces
  import opened ItemParts
  import opened SwitchParts
  import opened TryParts
  import opened Wrappers

  // ---- Declarations ----

  lemma {:induction false} SimVars(x: Ctx, vars: seq<Var>, g: Gen, st: Store, c: Config, fuel: nat) returns (n: nat,
          d: Config)
    requires Generator.EmitVars(vars, g).Ok? && VarsSlots(vars, x.slots)
    requires Ready(x, g, Generator.After(Generator.EmitVars(vars, g), g), st, c)
    ensures Ends(x, g, Generator.After(Generator.EmitVars(vars, g), g), c, ExecVars(x.ops, vars, st), fuel, n, d)
    ensures ExecVars(x.ops, vars, st).o.Normal? || ExecVars(x.ops, vars, st).o.Raised?
    decreases vars
  {
    hide Run, CallStmt, OnlyCode, Placed, Grown, Fails, Arrives, KeepsTemps, Generator.EmitExpr, Eval, Match;
    if vars == [] {
      n, d := 0, c;
      ArrivesNow(x, c);
    } else if vars[0].init.None? {
      n, d := SimVars(x, vars[1..], g, st, c, fuel);
    } else {
      n, d := SimInitialiser(x, vars, g, st, c, fuel);
    }
  }

  lemma {:induction false} SimInitialiser(x: Ctx, vars: seq<Var>, g: Gen, st: Store, c: Config,
          fuel: nat) returns (n: nat, d: Config)
    requires vars != [] && vars[0].init.Some?
    requires Generator.EmitVars(vars, g).Ok? && VarsSlots(vars, x.slots)
    requires Ready(x, g, Generator.After(Generator.EmitVars(vars, g), g), st, c)
    ensures Ends(x, g, Generator.After(Generator.EmitVars(vars, g), g), c, ExecVars(x.ops, vars, st), fuel, n, d)
    ensures ExecVars(x.ops, vars, st).o.Normal? || ExecVars(x.ops, vars, st).o.Raised?
    decreases vars, 0
  {
    hide Run, CallStmt, OnlyCode, Placed, Grown, Fails, Arrives, Generator.EmitExpr, Eval, Match, Ends;
    var e, slot := vars[0].init.value, vars[0].slot;
    var g1 := Generator.EmitExpr(e, true, g).value;
    var g2 := g1.Emit(StoreLocal(slot));
    var g' := Generator.EmitVars(vars[1..], g2).value;
    VarParts(vars, g, g1, g2, g', x.final);
    var n1, d1 := SimExpr(x, e, true, g, st, c);
    match Eval(x.ops, e, st)
    case Thrown(v, st1) =>
      n, d := n1, d1;
      RaisedEnds(x, g, |g.ir|, |g1.ir|, g', c, 0, c, c.stack, v, st1, fuel, n1, d1) by { ArrivesNow(x, c); }
    case Value(v, st1) =>
      var d2 := StoreVar(x, g1, slot, g', d1, c.stack, v, st1);
      ArrivesTrans(x, c, n1, d1, 1, d2);
      var n3, d3 := SimVars(x, vars[1..], g2, Write(st1, slot, v), d2, fuel);
      n, d := n1 + 1 + n3, d3;
      VarsLater(x, g, g2, g', c, n1 + 1, d2, ExecVars(x.ops, vars[1..], Write(st1, slot, v)), fuel, n3, d3);
  }

  lemma VarParts(vars: seq<Var>, g: Gen, g1: Gen, g2: Gen, g': Gen, f: Gen)
    requires vars != [] && vars[0].init.Some? && Generator.EmitExpr(vars[0].init.value, true, g) == Generator.Ok(g1)
    requires g2 == g1.Emit(StoreLocal(vars[0].slot)) && Generator.EmitVars(vars[1..], g2) == Generator.Ok(g')
    requires Placed(g, g', f)
    ensures OnlyCode(g, g1) && Placed(g, g1, f) && Placed(g2, g', f) && g.locals <= g2.locals && g2.ir <= g'.ir <= f.ir
    ensures |g.ir| <= |g1.ir|
    ensures OnlyCode(g, g') && OnlyCode(g2, g') && OnlyCode(g, g2)
  {
    hide OnlyCode, Placed, Grown;
    EmitExprGrown(vars[0].init.value, true, g);
    EmitGrown(g1, StoreLocal(vars[0].slot));
    EmitVarsGrown(vars[1..], g2);
    CodeTrans(g1, g2, g');
    CodeTrans(g, g1, g2);
    CodeTrans(g, g1, g');
    TwoParts(g, g1, g', f);
    TwoParts(g, g2, g', f);
  }

  /** An error between `lo` and `hi` of code without exception blocks. */
  lemma RaisedEnds(x: Ctx, g: Gen, lo: nat, hi: nat, g': Gen, c: Config, i: nat, c1: Config, base: seq<Val>, v: Val,
          st: Store, fuel: nat, n: nat, d: Config)
    requires OnlyCode(g, g') && Arrives(x, c, i, c1) && ThrowsIn(x, lo, hi, base, c1, v, st, n, d) && |g.ir| <= lo
    requires hi <= |g'.ir|
    ensures Ends(x, g, g', c, Done(Raised(v), st), fuel, i + n, d)
  {
    hide Grown;
    assert [] <= base;
    ThrowsLater(x, |g.ir|, |g'.ir|, [], c, i, c1, lo, hi, base, v, st, n, d);
  }

  lemma VarsLater(x: Ctx, g: Gen, g2: Gen, g': Gen, c: Config, i: nat, c1: Config, r: Done, fuel: nat, n: nat,
          d: Config)
    requires OnlyCode(g, g') && OnlyCode(g, g2) && Arrives(x, c, i, c1) && Ends(x, g2, g', c1, r, fuel, n, d) && (r.o.Normal? || r.o.Raised?)
    ensures Ends(x, g, g', c, r, fuel, i + n, d)
  {
    hide Run, Match, CallStmt, Fails, Grown;
    LabelCount(g, g2) by { hide OnlyCode; }
    if r.o.Normal? {
      ReachesLater(x, c, i, c1, n, d, |g'.ir|, r.st);
    } else {
      RaisedEnds(x, g, |g2.ir|, |g'.ir|, g', c, i, c1, [], r.o.v, r.st, fuel, n, d);
    }
  }

  lemma StoreVar(x: Ctx, g: Gen, slot: nat, b: Gen, c: Config, base: seq<Val>, v: Val, st: Store) returns (d: Config)
    requires g.Emit(StoreLocal(slot)).ir <= b.ir <= x.final.ir && c.ip == |g.ir| && c.stack == base + [v]
    requires slot < x.slots && Match(x, st, c)
    ensures Reaches(x, c, 1, d, |g.ir| + 1, Write(st, slot, v))
  {
    StoreStep(x, g, slot, b, c, base, v);
    d := c.(ip := c.ip + 1, stack := base, locals := c.locals[slot := v]);
    assert d.locals[..x.slots] == c.locals[..x.slots][slot := v];
  }

  // ---- Jumps ----

  lemma {:induction false} TargetIn(targets: seq<NamedLabel>, name: Option<Label>)
    requires Generator.GetTarget(targets, name).Ok?
    ensures Generator.GetTarget(targets, name).value in targets
    decreases targets
  {
    var last := targets[|targets| - 1];
    if !(name.None? || last.name == name) {
      TargetIn(targets[..|targets| - 1], name);
    }
  }

  /** A break or continue reaches its target, leaving exception blocks with a Leave. */
  lemma SimJump(x: Ctx, targets: seq<NamedLabel>, name: Option<Label>, g: Gen, st: Store, c: Config) returns (d: Config)
    requires (targets == g.breaks || targets == g.continues) && Generator.EmitJumpTo(targets, name, g).Ok? && Finished(x)
    requires At(x, g, Generator.After(Generator.EmitJumpTo(targets, name, g), g)) && Match(x, st, c) && c.ip == |g.ir|
    ensures ReachesTarget(x, c, 1, d, targets, name, st)
  {
    hide Run, CallStmt, Placed, Sheltered, TableBefore, Finished, Generator.GetTarget;
    var t := Generator.GetTarget(targets, name).value;
    TargetIn(targets, name);
    var g' := Generator.EmitJumpTo(targets, name, g).value;
    PlacedCode(g, g', x.final);
    if t.depth == g.depth {
      d := c.(ip := LabelAt(x.final.labels, t.at));
      JumpStep(x, g, t.at, g', c);
    } else {
      d := c.(ip := LabelAt(x.final.labels, t.at), thrown := None);
      CoveredPart(x.final, |g.ir|, |g'.ir|, c.ip, c.ip + 1);
      LeaveStep(x, g, t.at, g', c);
    }
  }

  lemma PlacedCode(a: Gen, b: Gen, f: Gen)
    requires Placed(a, b, f)
    ensures b.ir <= f.ir && b.locals <= f.locals
  {
  }

  // ---- Return and throw ----

  lemma AnswerNow(x: Ctx, c: Config, base: seq<Val>, v: Val, st: Store)
    requires c.ip < |x.final.ir| && x.final.ir[c.ip] == ReturnIr && c.stack == base + [v] && Match(x, st, c)
    ensures Finishes(x, c, 1, v, st)
  {
    RunOne(Mach(x), c);
  }

  /** The return slot is loaded and answered. */
  lemma AnswerSlot(x: Ctx, slot: nat, c: Config, v: Val, st: Store)
    requires ReturnCode(x, c.ip, slot) && InSlot(c, slot, v) && Match(x, st, c)
    ensures Finishes(x, c, 2, v, st)
  {
    hide Run, CallStmt;
    LoadsLocal(x.ops, c, slot, v);
    ArrivesStep(x, c, LoadLocal(slot), c.Push(v));
    AnswerNow(x, c.Push(v), c.stack, v, st);
    FinishesLater(x, c, 1, c.Push(v), 1, v, st);
  }

  lemma KeepInSlot(x: Ctx, g: Gen, slot: nat, b: Gen, c: Config, base: seq<Val>, v: Val, st: Store) returns (d: Config)
    requires g.Emit(StoreLocal(slot)).ir <= b.ir <= x.final.ir && c.ip == |g.ir| && c.stack == base + [v]
    requires Match(x, st, c)
    requires x.slots <= slot < x.final.locals
    ensures Arrives(x, c, 1, d) && d.ip == |g.ir| + 1 && Match(x, st, d) && InSlot(d, slot, v)
  {
    hide Run, CallStmt;
    StoreStep(x, g, slot, b, c, base, v);
    d := c.(ip := c.ip + 1, stack := base, locals := c.locals[slot := v]);
    assert d.locals[..x.slots] == c.locals[..x.slots];
  }

  /** With the value on the stack: returned at once, or kept in the return slot while exception blocks are left. */
  lemma SimReturn(x: Ctx, g: Gen, c: Config, base: seq<Val>, v: Val, st: Store) returns (n: nat)
    requires Placed(g, Generator.EmitReturn(g), x.final) && (g.depth > 0 ==> Covered(x.final, |g.ir|, |Generator.EmitReturn(g).ir|)) && Finished(x)
    requires c.ip == |g.ir| && c.stack == base + [v] && Match(x, st, c)
    ensures Finishes(x, c, n, v, st)
  {
    hide Run, CallStmt, Covered, ReturnCode, Match, Arrives, Finishes;
    var g' := Generator.EmitReturn(g);
    if g.depth == 0 {
      n := 1;
      assert x.final.ir[|g.ir|] == g'.ir[|g.ir|];
      AnswerNow(x, c, base, v, st);
    } else {
      n := SimReturnAcross(x, g, c, base, v, st);
    }
  }

  lemma SimReturnAcross(x: Ctx, g: Gen, c: Config, base: seq<Val>, v: Val, st: Store) returns (n: nat)
    requires g.depth > 0 && Placed(g, Generator.EmitReturn(g), x.final)
    requires Covered(x.final, |g.ir|, |Generator.EmitReturn(g).ir|) && Finished(x)
    requires c.ip == |g.ir| && c.stack == base + [v] && Match(x, st, c)
    ensures Finishes(x, c, n, v, st)
  {
    hide Run, CallStmt, Covered, Arrives, Finishes;
    var g' := Generator.EmitReturn(g);
    var t := g'.ret.value;
    var g1 := if g.ret.Some? then g else g.NewLabel().NewLocal().(ret := Some(t));
    assert g' == g1.Emit(StoreLocal(t.slot)).Emit(Leave(t.at)) && x.final.ret == Some(t);
    assert ReturnCode(x, LabelAt(x.final.labels, t.at), t.slot);
    var c1 := KeepInSlot(x, g1, t.slot, g', c, base, v, st);
    CoveredPart(x.final, |g.ir|, |g'.ir|, c1.ip, c1.ip + 1);
    LeaveStep(x, g1.Emit(StoreLocal(t.slot)), t.at, g', c1);
    var c2 := c1.(ip := LabelAt(x.final.labels, t.at), thrown := None);
    ArrivesTrans(x, c, 1, c1, 1, c2);
    AnswerSlot(x, t.slot, c2, v, st);
    FinishesLater(x, c, 2, c2, 2, v, st);
    n := 4;
  }

  lemma SimThrow(x: Ctx, g: Gen, g': Gen, st: Store, v: Val, c: Config, base: seq<Val>)
    requires g'.ir == g.ir + [ThrowIr] && g'.ir <= x.final.ir && c.ip == |g.ir| && c.stack == base + [v]
    requires Match(x, st, c)
    ensures ThrowsIn(x, |g.ir|, |g'.ir|, base, c, v, st, 0, c)
  {
    assert g'.ir == g.Emit(ThrowIr).ir;
    CodeAt(g, ThrowIr, g', x.final);
    assert c.Drop(1) == base;
  }

  /** Return with its expression. */
  lemma SimReturnItem(x: Ctx, s: Item, g: Gen, st: Store, c: Config, fuel: nat) returns (n: nat, d: Config)
    requires s.Return? && Generator.EmitItem(s, g).Ok? && ItemSlots(s, x.slots) && Finished(x)
    requires At(x, g, Generator.After(Generator.EmitItem(s, g), g)) && Match(x, st, c) && c.ip == |g.ir|
    ensures Ends(x, g, Generator.After(Generator.EmitItem(s, g), g), c, Exec(x.ops, Engine, s, st, fuel), fuel, n, d)
  {
    hide Run, CallStmt, OnlyCode, Placed, Grown, Fails, Arrives, Match, Sheltered, Covered, Targets, TableBefore,
      Finished, Finishes, Within, KeepsTemps,
      Generator.EmitExprs, EvalSeq;
    var g1 := if s.result.Some? then Generator.EmitExprs(s.result.value, true, g).value else g.Emit(LoadUndefined);
    var g' := Generator.EmitReturn(g1);
    ReturnParts(x, s, g, g1);
    n, d := 0, c;
    if s.result.None? {
      assert ExprCorrect.Next(x, g, LoadUndefined, g');
      PushStep(x, g, LoadUndefined, g', c, Undefined) by { PushesUndefined(x, c); }
      var c1 := c.Push(Undefined);
      MatchPush(x, st, c, Undefined);
      n := SimReturn(x, g1, c1, c.stack, Undefined, st);
      FinishesLater(x, c, 1, c1, n, Undefined, st);
      n := 1 + n;
    } else {
      var n1, d1 := SimExprs(x, s.result.value, true, g, st, c);
      match EvalSeq(x.ops, s.result.value, st)
      case Thrown(v, st1) =>
        ArrivesNow(x, c);
        ErrorEnds(x, g, g, g1, g', |g.labels|, c, 0, c, c.stack, v, st1, fuel, n1, d1);
        n, d := n1, d1;
      case Value(v, st1) =>
        n := SimReturn(x, g1, d1, c.stack, v, st1);
        FinishesLater(x, c, n1, d1, n, v, st1);
        n := n1 + n;
    }
  }

  lemma PushesUndefined(x: Ctx, c: Config)
    ensures CallStmt(x.ops, FixupLabel(LoadUndefined, x.final.labels), c) == Advance(c.Push(Undefined))
  {
  }

  lemma MatchPush(x: Ctx, st: Store, c: Config, v: Val)
    requires Match(x, st, c)
    ensures Match(x, st, c.Push(v))
  {
  }

  lemma ReturnGrows(g: Gen, lo: nat)
    ensures Grown(g, Generator.EmitReturn(g), lo)
  {
    GrownSelf(g);
    ReturnGrown(g, g);
    GrownFrom(g, Generator.EmitReturn(g), 0, lo);
  }

  lemma ReturnParts(x: Ctx, s: Item, g: Gen, g1: Gen)
    requires s.Return? && (s.result.Some? ==> Generator.EmitExprs(s.result.value, true, g).Ok?)
    requires g1 == (if s.result.Some? then Generator.After(Generator.EmitExprs(s.result.value, true, g), g) else g.Emit(LoadUndefined))
    requires At(x, g, Generator.EmitReturn(g1))
    ensures OnlyCode(g, g1) && Placed(g, g1, x.final) && Placed(g1, Generator.EmitReturn(g1), x.final)
    ensures g1.depth == g.depth
    ensures g1.depth > 0 ==> Covered(x.final, |g1.ir|, |Generator.EmitReturn(g1).ir|)
    ensures Within(g, g, g1, Generator.EmitReturn(g1), |g.labels|) && g1.ir <= Generator.EmitReturn(g1).ir <= x.final.ir
  {
    hide OnlyCode, Placed, Grown, Sheltered, Covered, Targets, TableBefore, Within, Generator.EmitExprs,
      Generator.EmitReturn;
    var g' := Generator.EmitReturn(g1);
    EmitGrown(g, LoadUndefined);
    if s.result.Some? {
      EmitExprsGrown(s.result.value, true, g);
    }
    CodeIsGrown(g, g1);
    LabelCount(g, g1);
    SameGrown(g, |g.labels|);
    OnlyIsGrown(g, g1, |g.labels|);
    ReturnGrows(g1, |g.labels|);
    LabelsGrow(g1, g', |g.labels|);
    WithinFrom(g, g, g1, g', |g.labels|);
    WithinPlaced(g, g, g1, g', |g.labels|, x.final);
    SameGrown(g', |g.labels|);
    WithinFrom(g, g1, g', g', |g.labels|);
    WithinPlaced(g, g1, g', g', |g.labels|, x.final);
    if g.depth > 0 {
      CoveredPart(x.final, |g.ir|, |g'.ir|, |g1.ir|, |g'.ir|);
    }
  }

  lemma SimThrowItem(x: Ctx, s: Item, g: Gen, st: Store, c: Config, fuel: nat) returns (n: nat, d: Config)
    requires s.Throw? && Generator.EmitItem(s, g).Ok? && ItemSlots(s, x.slots)
    requires At(x, g, Generator.After(Generator.EmitItem(s, g), g)) && Match(x, st, c) && c.ip == |g.ir|
    ensures Ends(x, g, Generator.After(Generator.EmitItem(s, g), g), c, Exec(x.ops, Engine, s, st, fuel), fuel, n, d)
  {
    hide Run, CallStmt, OnlyCode, Placed, Grown, Fails, Arrives, Match, Sheltered, Covered, Targets, TableBefore,
      KeepsTemps, Generator.EmitExprs, EvalSeq, Ends;
    var g1 := Generator.EmitExprs(s.exprs, true, g).value;
    var g' := g1.Emit(ThrowIr);
    EmitExprsGrown(s.exprs, true, g);
    EmitGrown(g1, ThrowIr);
    CodeTrans(g, g1, g');
    TwoParts(g, g1, g', x.final);
    ArrivesNow(x, c);
    var n1, d1 := SimExprs(x, s.exprs, true, g, st, c);
    n, d := n1, d1;
    match EvalSeq(x.ops, s.exprs, st)
    case Thrown(v, st1) =>
      RaisedEnds(x, g, |g.ir|, |g1.ir|, g', c, 0, c, c.stack, v, st1, fuel, n1, d1);
    case Value(v, st1) =>
      SimThrow(x, g1, g', st1, v, d1, c.stack);
      RaisedEnds(x, g, |g1.ir|, |g'.ir|, g', c, n1, d1, c.stack, v, st1, fuel, 0, d1);
  }

  // ---- Statements ----

  ghost predicate Entered(x: Ctx, g: Gen, g': Gen, st: Store, c: Config) {
    Finished(x) && At(x, g, g') && Match(x, st, c) && c.ip == |g.ir|
  }

  lemma EndsPrefix(x: Ctx, g: Gen, g': Gen, c: Config, i: nat, c1: Config, r: Done, fuel': nat, fuel: nat, n: nat,
          d: Config)
    requires Arrives(x, c, i, c1) && Ends(x, g, g', c1, r, fuel', n, d) && fuel <= i + fuel'
    ensures Ends(x, g, g', c, r, fuel, i + n, d)
  {
    hide Run, Match, Generator.GetTarget, Fails;
    match r.o
    case Normal => ReachesLater(x, c, i, c1, n, d, |g'.ir|, r.st);
    case Broke(name) => ReachesLater(x, c, i, c1, n, d, LabelAt(x.final.labels, Generator.GetTarget(g.breaks, name).value.at), r.st);
    case Continued(name) => ReachesLater(x, c, i, c1, n, d, LabelAt(x.final.labels, Generator.GetTarget(g.continues, name).value.at), r.st);
    case Returned(v) => FinishesLater(x, c, i, c1, n, v, r.st);
    case Raised(v) => ThrowsLater(x, |g.ir|, |g'.ir|, [], c, i, c1, |g.ir|, |g'.ir|, [], v, r.st, n, d);
    case Timeout => ArrivesTrans(x, c, i, c1, n, d);
  }

  lemma EndsHere(x: Ctx, g: Gen, g': Gen, c: Config, st: Store, fuel: nat, n: nat, d: Config)
    requires Reaches(x, c, n, d, |g'.ir|, st)
    ensures Ends(x, g, g', c, Done(Normal, st), fuel, n, d)
  {
  }

  /** Running the code of a statement has the outcome of executing it, in the engine's dialect. */
  lemma {:induction false} SimItem(x: Ctx, s: Item, g: Gen, st: Store, c: Config, fuel: nat) returns (n: nat, d: Config)
    requires Generator.EmitItem(s, g).Ok? && ItemSlots(s, x.slots)
    requires Entered(x, g, Generator.After(Generator.EmitItem(s, g), g), st, c)
    ensures Ends(x, g, Generator.After(Generator.EmitItem(s, g), g), c, Exec(x.ops, Engine, s, st, fuel), fuel, n, d)
    decreases fuel, s, 5
  {
    hide Run, CallStmt, At, Match, Finished, Eval, EvalSeq, ExecAll, Reaches, ThrowsIn, Finishes, Arrives, Uncaught,
      OnlyCode,
      Generator.EmitExprs, Generator.EmitItems, Generator.EmitVars, Generator.GetTarget;
    match s
    case Block(_, _) => n, d := SimBlock(x, s, g, st, c, fuel);
    case Break(name) =>
      n := 1;
      d := SimJump(x, g.breaks, name, g, st, c);
    case Continue(name) =>
      n := 1;
      d := SimJump(x, g.continues, name, g, st, c);
    case Debugger => n, d := SimNop(x, g, st, c);
    case Do(_, _, _) => n, d := SimDo(x, s, g, st, c, fuel);
    case Empty => n, d := SimEmpty(x, g, st, c);
    case ExprStmt(es) => n, d := SimExprStmt(x, es, g, st, c, fuel);
    case For(_, _, _, _, _) => n, d := SimFor(x, s, g, st, c, fuel);
    case If(_, _, _) => n, d := SimIf(x, s, g, st, c, fuel);
    case Return(_) => n, d := SimReturnItem(x, s, g, st, c, fuel);
    case Switch(_, _, _) => n, d := SimSwitch(x, s, g, st, c, fuel);
    case Throw(_) => n, d := SimThrowItem(x, s, g, st, c, fuel);
    case Try(_, _, _) => n, d := SimTry(x, s, g, st, c, fuel);
    case VarDecl(vars) => n, d := SimVars(x, vars, g, st, c, fuel) by { AtReady(x, g, Generator.EmitItem(s, g).value, st, c); }
    case While(_, _, _) => n, d := SimWhile(x, s, g, st, c, fuel);
  }

  lemma AtReady(x: Ctx, g: Gen, g': Gen, st: Store, c: Config)
    requires Entered(x, g, g', st, c)
    ensures Ready(x, g, g', st, c)
  {
    hide Placed, Match;
  }

  lemma SimEmpty(x: Ctx, g: Gen, st: Store, c: Config) returns (n: nat, d: Config)
    requires Match(x, st, c) && c.ip == |g.ir|
    ensures Reaches(x, c, n, d, |g.ir|, st)
  {
    n, d := 0, c;
  }

  lemma SimNop(x: Ctx, g: Gen, st: Store, c: Config) returns (n: nat, d: Config)
    requires Match(x, st, c) && c.ip == |g.ir| && At(x, g, g.Emit(Nop))
    ensures Reaches(x, c, n, d, |g.ir| + 1, st)
  {
    hide Run, Sheltered, TableBefore, Covered, Targets;
    n, d := 1, c.(ip := c.ip + 1);
    CodeAt(g, Nop, g.Emit(Nop), x.final);
    ArrivesStep(x, c, Nop, d);
  }

  lemma SimExprStmt(x: Ctx, es: Exprs, g: Gen, st: Store, c: Config, fuel: nat) returns (n: nat, d: Config)
    requires Generator.EmitExprs(es, false, g).Ok? && ExprsSlots(es, x.slots)
    requires Entered(x, g, Generator.After(Generator.EmitExprs(es, false, g), g), st, c)
    ensures Ends(x, g, Generator.After(Generator.EmitExprs(es, false, g), g), c, OfEval(EvalSeq(x.ops, es, st)), fuel, n, d)
  {
    hide Run, Match, At, ExprRuns, OnlyCode, EvalSeq, Generator.EmitExprs;
    var g' := Generator.EmitExprs(es, false, g).value;
    AtReady(x, g, g', st, c);
    EmitExprsGrown(es, false, g);
    n, d := SimExprs(x, es, false, g, st, c);
    ExprEnds(x, g, g', c, EvalSeq(x.ops, es, st), fuel, n, d);
  }

  lemma {:induction false} SimItems(x: Ctx, ss: Items, g: Gen, st: Store, c: Config, fuel: nat) returns (n: nat,
          d: Config)
    requires Generator.EmitItems(ss, g).Ok? && ItemsSlots(ss, x.slots)
    requires Entered(x, g, Generator.After(Generator.EmitItems(ss, g), g), st, c)
    ensures Ends(x, g, Generator.After(Generator.EmitItems(ss, g), g), c, ExecAll(x.ops, Engine, ss, st, fuel), fuel, n, d)
    decreases fuel, ss, 0
  {
    hide Run, At, Match, Finished, Exec, ThrowsIn, Finishes, Arrives, Uncaught, Grown, Within, Generator.EmitItem,
      Generator.GetTarget;
    match ss
    case Nil => n, d := SimEmpty(x, g, st, c);
    case Cons(s, rest) =>
      var g1 := Generator.EmitItem(s, g).value;
      var g' := Generator.EmitItems(rest, g1).value;
      SequenceParts(x, s, rest, g, g1, g');
      var n1, d1 := SimItem(x, s, g, st, c, fuel);
      var r := Exec(x.ops, Engine, s, st, fuel);
      ArrivesNow(x, c);
      if r.o == Normal {
        var n2, d2 := SimItems(x, rest, g1, r.st, d1, fuel);
        EndsLater(x, g, g1, g', g', |g.labels|, c, n1, d1, ExecAll(x.ops, Engine, rest, r.st, fuel), fuel, fuel, n2, d2);
        n, d := n1 + n2, d2;
      } else {
        EndsLater(x, g, g, g1, g', |g.labels|, c, 0, c, r, fuel, fuel, n1, d1);
        n, d := n1, d1;
      }
  }

  lemma SequenceParts(x: Ctx, s: Item, rest: Items, g: Gen, g1: Gen, g': Gen)
    requires Generator.EmitItem(s, g) == Generator.Ok(g1) && Generator.EmitItems(rest, g1) == Generator.Ok(g')
    requires At(x, g, g')
    ensures At(x, g, g1) && At(x, g1, g') && Within(g, g, g1, g', |g.labels|) && Within(g, g1, g', g', |g.labels|)
    ensures g1.breaks == g.breaks && g1.continues == g.continues
  {
    hide At, Grown, Within, Targets, Generator.EmitItem, Generator.EmitItems;
    var lo := |g.labels|;
    ItemGrown(s, g, lo);
    ItemsGrown(rest, g1, lo);
    SameGrown(g, lo);
    SameGrown(g', lo);
    LabelsGrow(g, g1, lo);
    WithinFrom(g, g, g1, g', lo);
    WithinFrom(g, g1, g', g', lo);
    AtTargets(x, g, g');
    TargetsKept(g, g1);
    Piece(x, g, g, g1, g', lo);
    Piece(x, g, g1, g', g', lo);
  }

  lemma AtTargets(x: Ctx, g: Gen, g': Gen)
    requires At(x, g, g')
    ensures Targets(g)
  {
    hide Placed, Sheltered, TableBefore, Covered, Targets;
  }

  lemma {:induction false} SimBlock(x: Ctx, s: Item, g: Gen, st: Store, c: Config, fuel: nat) returns (n: nat,
          d: Config)
    requires s.Block? && Generator.EmitItem(s, g).Ok? && ItemSlots(s, x.slots)
    requires Entered(x, g, Generator.After(Generator.EmitItem(s, g), g), st, c)
    ensures Ends(x, g, Generator.After(Generator.EmitItem(s, g), g), c, Exec(x.ops, Engine, s, st, fuel), fuel, n, d)
    decreases fuel, s, 4
  {
    hide Run, At, Match, Finished, ExecAll, Finishes, Arrives, Uncaught, Grown, Within, ThrowsIn, Generator.EmitItems,
      Generator.GetTarget;
    if s.tag.None? {
      n, d := SimItems(x, s.stmts, g, st, c, fuel);
    } else {
      var g' := Generator.EmitItem(s, g).value;
      var a, b := BlockParts(x, s, g);
      n, d := SimItems(x, s.stmts, a, st, c, fuel);
      var r := ExecAll(x.ops, Engine, s.stmts, st, fuel);
      if r.o.Broke? {
        PushedTarget(g.breaks, s.tag, |g.labels|, g.depth, r.o.tag);
      }
      if !LeavesBlock(Engine, r.o, s.tag) {
        ArrivesNow(x, c);
        EndsLater(x, g, a, b, g', |g.labels| + 1, c, 0, c, r, fuel, fuel, n, d);
      }
    }
  }

  lemma {:induction false} SimIf(x: Ctx, s: Item, g: Gen, st: Store, c: Config, fuel: nat) returns (n: nat, d: Config)
    requires s.If? && Generator.EmitItem(s, g).Ok? && ItemSlots(s, x.slots)
    requires Entered(x, g, Generator.After(Generator.EmitItem(s, g), g), st, c)
    ensures Ends(x, g, Generator.After(Generator.EmitItem(s, g), g), c, Exec(x.ops, Engine, s, st, fuel), fuel, n, d)
    decreases fuel, s, 4
  {
    hide Run, At, Match, Finished, Finishes, Arrives, Uncaught, Grown, OnlyCode, Placed, Within, ThrowsIn, EvalSeq,
      KeepsTemps, Ends,
      Generator.EmitTests, Generator.GetTarget;
    var g' := Generator.EmitItem(s, g).value;
    var h, i, a, e, b := IfStates(s, g);
    IfParts(x, s, g, h, i, a, e, b, g');
    var n1, d1 := SimTests(x, s.cond, |g.labels|, true, h, st, c);
    ArrivesNow(x, c);
    match EvalSeq(x.ops, s.cond, st)
    case Thrown(v, st1) =>
      n, d := n1, d1;
      ErrorEnds(x, g, h, i, g', |h.labels|, c, 0, c, c.stack, v, st1, fuel, n1, d1);
    case Value(v, st1) =>
      if x.ops.ToBoolean(v) {
        n, d := SimItem(x, s.thn, i, st1, d1, fuel);
        n, d := ThenEnds(x, s, g, h, i, a, e, b, g', c, n1, d1, Exec(x.ops, Engine, s.thn, st1, fuel), fuel, n, d);
      } else if s.els.Some? {
        n, d := SimItem(x, s.els.value, e, st1, d1, fuel);
        IfTargets(s, g, h, i, a, e, b, g');
        EndsLater(x, g, e, b, g', |h.labels|, c, n1, d1, Exec(x.ops, Engine, s.els.value, st1, fuel), fuel, fuel, n, d);
        n := n1 + n;
      } else {
        n, d := n1, d1;
        EndsHere(x, g, g', c, st1, fuel, n1, d1);
      }
  }

  lemma IfTargets(s: Item, g: Gen, h: Gen, i: Gen, a: Gen, e: Gen, b: Gen, g': Gen)
    requires IfLaidOut(s, g, h, i, a, e, b, g')
    ensures i.breaks == e.breaks == g.breaks && i.continues == e.continues == g.continues
  {
    hide Grown, Generator.EmitTests, Generator.EmitItem;
    IfHead(s, g, h, i, a, e, b, g');
  }

  /** After the first branch: past the second one. */
  lemma ThenEnds(x: Ctx, s: Item, g: Gen, h: Gen, i: Gen, a: Gen, e: Gen, b: Gen, g': Gen, c: Config, n1: nat,
          d1: Config, r: Done, fuel: nat,
                 n2: nat, d2: Config) returns (n: nat, d: Config)
    requires IfLaidOut(s, g, h, i, a, e, b, g') && IfInPlace(x, s, g, h, i, a, e, b, g') && At(x, g, g')
    requires Arrives(x, c, n1, d1) && Ends(x, i, a, d1, r, fuel, n2, d2)
    ensures Ends(x, g, g', c, r, fuel, n, d)
  {
    hide Run, At, Match, Finishes, Uncaught, Grown, OnlyCode, Placed, Within, ThrowsIn, CallStmt, Generator.EmitTests,
      Generator.GetTarget, Generator.EmitItem;
    IfTargets(s, g, h, i, a, e, b, g');
    n, d := n1 + n2, d2;
    if r.o.Normal? {
      ArrivesTrans(x, c, n1, d1, n2, d2);
      if s.els.Some? {
        d := d2.(ip := |b.ir|);
        n := n + 1;
        WithinPlaced(g, e, b, g', |h.labels|, x.final) by { AtPlaced(x, g, g'); }
        EntryCode(e, b, g', |h.labels|, g);
        JumpStep(x, a, |g.labels| + 1, e, d2);
        ArrivesTrans(x, c, n1 + n2, d2, 1, d);
        MatchIp(x, g, r.st, d2, d2, d) by { SelfTemps(x, g, d2); }
      }
      EndsHere(x, g, g', c, r.st, fuel, n, d);
    } else {
      EndsLater(x, g, i, a, g', |h.labels|, c, n1, d1, r, fuel, fuel, n2, d2);
    }
  }

  lemma AtPlaced(x: Ctx, g: Gen, g': Gen)
    requires At(x, g, g')
    ensures Placed(g, g', x.final)
  {
  }

  lemma EntryCode(e: Gen, b: Gen, g': Gen, lo: nat, g: Gen)
    requires Within(g, e, b, g', lo)
    ensures e.ir <= b.ir <= g'.ir
  {
  }

  // ---- Loops ----

  /** What is left of a loop when it comes to its test, of a do loop when it comes to its body. */
  function Again(ops: Ops, s: Item, st: Store, fuel: nat): Done {
    match s
    case Do(tag, test, body) => ExecDo(ops, Engine, tag, test, body, st, fuel)
    case For(tag, _, test, incr, body) => ExecFor(ops, Engine, tag, test, incr, body, st, fuel)
    case While(tag, test, body) => ExecWhile(ops, Engine, tag, test, body, st, fuel)
    case _ => Done(Normal, st)
  }

  /** One run of a loop's body. */
  function Once(ops: Ops, s: Item, st: Store, fuel: nat): Done {
    if s.Do? || s.For? || s.While? then Exec(ops, Engine, s.body, st, fuel) else Done(Normal, st)
  }

  /** What the outcome of a loop's body means for the loop. */
  lemma BodyEnds(x: Ctx, tag: Option<Label>, g: Gen, a: Gen, b: Gen, g': Gen, lo: nat, c: Config, i: nat, c1: Config,
          r: Done, fuel: nat, n: nat, d: Config)
    requires At(x, g, g') && Within(g, a, b, g', lo) && LoopTargets(g, a, tag) && Arrives(x, c, i, c1)
    requires Ends(x, a, b, c1, r, fuel, n, d)
    requires LabelAt(x.final.labels, |g.labels|) == |g'.ir| && LabelAt(x.final.labels, |g.labels| + 1) == |b.ir|
    ensures LeavesLoop(r.o, tag) ==> Reaches(x, c, i + n, d, |g'.ir|, r.st)
    ensures ContinuesLoop(r.o, tag) ==> Reaches(x, c, i + n, d, |b.ir|, r.st)
    ensures !LeavesLoop(r.o, tag) && !ContinuesLoop(r.o, tag) ==> Ends(x, g, g', c, r, fuel, i + n, d)
  {
    hide At, Within, Reaches, Finishes, ThrowsIn, Arrives, Uncaught, Generator.GetTarget;
    if r.o.Broke? {
      PushedTarget(g.breaks, tag, |g.labels|, g.depth, r.o.tag);
    }
    if r.o.Continued? {
      PushedTarget(g.continues, tag, |g.labels| + 1, g.depth, r.o.tag);
    }
    if LeavesLoop(r.o, tag) {
      ReachesLater(x, c, i, c1, n, d, |g'.ir|, r.st);
    } else if ContinuesLoop(r.o, tag) {
      ReachesLater(x, c, i, c1, n, d, |b.ir|, r.st);
    } else {
      EndsLater(x, g, a, b, g', lo, c, i, c1, r, fuel, fuel, n, d);
    }
  }

  lemma OutOfFuel(x: Ctx, g: Gen, g': Gen, c: Config, st: Store)
    ensures Ends(x, g, g', c, Done(Timeout, st), 0, 0, c)
  {
    ArrivesNow(x, c);
  }

  lemma LoopBodyTargets(s: Item, g: Gen)
    ensures LoopTargets(g, LoopBody(s, g), TagOf(s))
  {
    hide Grown;
    LoopBodyFacts(s, g);
  }

  lemma {:induction false} SimWhile(x: Ctx, s: Item, g: Gen, st: Store, c: Config, fuel: nat) returns (n: nat,
          d: Config)
    requires s.While? && Generator.EmitItem(s, g).Ok? && ItemSlots(s, x.slots)
    requires Entered(x, g, Generator.After(Generator.EmitItem(s, g), g), st, c)
    ensures Ends(x, g, Generator.After(Generator.EmitItem(s, g), g), c, Exec(x.ops, Engine, s, st, fuel), fuel, n, d)
    decreases fuel, s, 4
  {
    hide Run, CallStmt, At, Match, Finished, Ends, Arrives, Grown, OnlyCode, Placed, Within, ExecWhile,
      Generator.EmitItem, Generator.EmitTest;
    var g' := Generator.EmitItem(s, g).value;
    var a, b, t, u := LoopParts(x, s, g);
    AtPlaced(x, g, g');
    var c1 := EnterWhile(x, s, g, a, b, g', st, c);
    n, d := SimWhileLoop(x, s, g, a, b, t, u, g', st, c1, fuel);
    EndsPrefix(x, g, g', c, 1, c1, Again(x.ops, s, st, fuel), fuel, fuel, n, d);
    n := 1 + n;
  }

  /** A while loop starts with its test. */
  lemma EnterWhile(x: Ctx, s: Item, g: Gen, a: Gen, b: Gen, g': Gen, st: Store, c: Config) returns (d: Config)
    requires s.While? && a == LoopBody(s, g) && Within(g, a, b, g', |g.labels| + 3) && Placed(g, g', x.final)
    requires Match(x, st, c) && c.ip == |g.ir|
    ensures Arrives(x, c, 1, d) && d.ip == LabelAt(x.final.labels, |g.labels| + 1) && Match(x, st, d)
  {
    hide Run, CallStmt, Grown, Placed, Within;
    LoopBodyFacts(s, g);
    EntryCode(a, b, g', |g.labels| + 3, g);
    PlacedCode(g, g', x.final);
    assert g.Emit(Jump(|g.labels| + 1)).ir == a.ir;
    JumpStep(x, g, |g.labels| + 1, g', c);
    d := c.(ip := LabelAt(x.final.labels, |g.labels| + 1));
  }

  lemma {:induction false} SimWhileLoop(x: Ctx, s: Item, g: Gen, a: Gen, b: Gen, t: Gen, u: Gen, g': Gen, st: Store,
          c: Config, fuel: nat) returns (n: nat, d: Config)
    requires s.While? && ItemSlots(s, x.slots) && LoopLaidOut(x, s, g, a, b, t, u, g') && Finished(x) && At(x, g, g')
    requires Match(x, st, c) && c.ip == |t.ir|
    ensures Ends(x, g, g', c, Again(x.ops, s, st, fuel), fuel, n, d)
    decreases fuel, s, 2
  {
    hide Run, CallStmt, At, Match, Finished, Ends, Arrives, Grown, OnlyCode, Placed, Within, ThrowsIn, KeepsTemps,
      Exec, Eval,
      Generator.EmitItem, Generator.EmitTest;
    n, d := 0, c;
    if fuel == 0 {
      OutOfFuel(x, g, g', c, st);
    } else {
      var n1, d1 := SimTest(x, s.test, |g.labels| + 2, false, t, st, c);
      ArrivesNow(x, c);
      match Eval(x.ops, s.test, st)
      case Thrown(v, st1) =>
        n, d := n1, d1;
        ErrorEnds(x, g, t, u, g', |g.labels| + 3, c, 0, c, c.stack, v, st1, fuel, n1, d1);
      case Value(v, st1) =>
        if !x.ops.ToBoolean(v) {
          n, d := n1, d1;
          EndsHere(x, g, g', c, st1, fuel, n1, d1);
        } else {
          var r := Exec(x.ops, Engine, s.body, st1, fuel);
          var n2, d2 := SimItem(x, s.body, a, st1, d1, fuel);
          LoopBodyTargets(s, g);
          BodyEnds(x, s.tag, g, a, b, g', |g.labels| + 3, c, n1, d1, r, fuel, n2, d2);
          n, d := n1 + n2, d2;
          if LeavesLoop(r.o, s.tag) {
            EndsHere(x, g, g', c, r.st, fuel, n, d);
          } else if ContinuesLoop(r.o, s.tag) {
            var n3, d3 := SimWhileLoop(x, s, g, a, b, t, u, g', r.st, d2, fuel - 1);
            EndsPrefix(x, g, g', c, n, d2, Again(x.ops, s, r.st, fuel - 1), fuel - 1, fuel, n3, d3);
            n, d := n + n3, d3;
          }
        }
    }
  }

  lemma {:induction false} SimDo(x: Ctx, s: Item, g: Gen, st: Store, c: Config, fuel: nat) returns (n: nat, d: Config)
    requires s.Do? && Generator.EmitItem(s, g).Ok? && ItemSlots(s, x.slots)
    requires Entered(x, g, Generator.After(Generator.EmitItem(s, g), g), st, c)
    ensures Ends(x, g, Generator.After(Generator.EmitItem(s, g), g), c, Exec(x.ops, Engine, s, st, fuel), fuel, n, d)
    decreases fuel, s, 4
  {
    hide Run, CallStmt, At, Match, Finished, Ends, Arrives, Grown, OnlyCode, Placed, Within, ExecDo,
      Generator.EmitItem, Generator.EmitTest;
    var g' := Generator.EmitItem(s, g).value;
    var a, b, t, u := LoopParts(x, s, g);
    LoopBodyFacts(s, g);
    n, d := SimDoLoop(x, s, g, a, b, t, u, g', st, c, fuel);
  }

  lemma {:induction false} SimDoLoop(x: Ctx, s: Item, g: Gen, a: Gen, b: Gen, t: Gen, u: Gen, g': Gen, st: Store,
          c: Config, fuel: nat) returns (n: nat, d: Config)
    requires s.Do? && ItemSlots(s, x.slots) && LoopLaidOut(x, s, g, a, b, t, u, g') && Finished(x) && At(x, g, g')
    requires Match(x, st, c) && c.ip == |a.ir|
    ensures Ends(x, g, g', c, Again(x.ops, s, st, fuel), fuel, n, d)
    decreases fuel, s, 2
  {
    hide Run, CallStmt, At, Match, Finished, Ends, Arrives, Grown, OnlyCode, Placed, Within, ThrowsIn, KeepsTemps,
      Exec, Eval,
      Generator.EmitItem, Generator.EmitTest;
    n, d := 0, c;
    if fuel == 0 {
      OutOfFuel(x, g, g', c, st);
    } else {
      var r := Exec(x.ops, Engine, s.body, st, fuel);
      var n1, d1 := SimItem(x, s.body, a, st, c, fuel);
      LoopBodyTargets(s, g);
      ArrivesNow(x, c);
      BodyEnds(x, s.tag, g, a, b, g', |g.labels| + 3, c, 0, c, r, fuel, n1, d1);
      n, d := n1, d1;
      if LeavesLoop(r.o, s.tag) {
        EndsHere(x, g, g', c, r.st, fuel, n, d);
      } else if ContinuesLoop(r.o, s.tag) {
        n, d := SimDoTest(x, s, g, a, b, t, u, g', st, r.st, c, n1, d1, fuel);
      }
    }
  }

  lemma {:induction false} SimDoTest(x: Ctx, s: Item, g: Gen, a: Gen, b: Gen, t: Gen, u: Gen, g': Gen, st0: Store,
          st: Store, c: Config, n1: nat, d1: Config,
                                     fuel: nat) returns (n: nat, d: Config)
    requires s.Do? && ItemSlots(s, x.slots) && LoopLaidOut(x, s, g, a, b, t, u, g') && Finished(x) && At(x, g, g')
    requires fuel > 0
    requires Arrives(x, c, n1, d1) && Match(x, st, d1) && d1.ip == |t.ir|
    requires Once(x.ops, s, st0, fuel).st == st && ContinuesLoop(Once(x.ops, s, st0, fuel).o, TagOf(s))
    ensures Ends(x, g, g', c, Again(x.ops, s, st0, fuel), fuel, n, d)
    decreases fuel, s, 1
  {
    hide Run, CallStmt, At, Match, Finished, Ends, Arrives, Grown, OnlyCode, Placed, Within, ThrowsIn, KeepsTemps,
      Exec, Eval,
      Generator.EmitItem, Generator.EmitTest;
    var n2, d2 := SimTest(x, s.test, |g.labels| + 2, false, t, st, d1);
    n, d := n1 + n2, d2;
    match Eval(x.ops, s.test, st)
    case Thrown(v, st1) =>
      ErrorEnds(x, g, t, u, g', |g.labels| + 3, c, n1, d1, d1.stack, v, st1, fuel, n2, d2);
    case Value(v, st1) =>
      ArrivesTrans(x, c, n1, d1, n2, d2);
      if x.ops.ToBoolean(v) {
        var n3, d3 := SimDoLoop(x, s, g, a, b, t, u, g', st1, d2, fuel - 1);
        EndsPrefix(x, g, g', c, n, d2, Again(x.ops, s, st1, fuel - 1), fuel - 1, fuel, n3, d3);
        n, d := n + n3, d3;
      } else {
        EndsHere(x, g, g', c, st1, fuel, n, d);
      }
  }

  // ---- For ----

  function ExecInit(ops: Ops, init: ForInit, st: Store): Done {
    match init
    case NoInit => Done(Normal, st)
    case ExprInit(es) => OfEval(EvalSeq(ops, es, st))
    case VarInit(vars) => ExecVars(ops, vars, st)
  }

  lemma SimInit(x: Ctx, init: ForInit, g: Gen, st: Store, c: Config, fuel: nat) returns (n: nat, d: Config)
    requires Generator.EmitInit(init, g).Ok? && Entered(x, g, Generator.After(Generator.EmitInit(init, g), g), st, c)
    requires match init case NoInit => true case ExprInit(es) => ExprsSlots(es, x.slots) case VarInit(vars) => VarsSlots(vars, x.slots)
    ensures Ends(x, g, Generator.After(Generator.EmitInit(init, g), g), c, ExecInit(x.ops, init, st), fuel, n, d)
    ensures ExecInit(x.ops, init, st).o.Normal? || ExecInit(x.ops, init, st).o.Raised?
  {
    hide Run, At, Match, Finished, Reaches, ThrowsIn, Arrives, Uncaught, EvalSeq, ExecVars, Generator.EmitExprs,
      Generator.EmitVars, VarsSlots;
    match init
    case NoInit => n, d := SimEmpty(x, g, st, c);
    case ExprInit(es) => n, d := SimExprStmt(x, es, g, st, c, fuel);
    case VarInit(vars) => n, d := SimVars(x, vars, g, st, c, fuel) by { AtReady(x, g, Generator.EmitInit(init, g).value, st, c); }
  }

  lemma {:induction false} SimFor(x: Ctx, s: Item, g: Gen, st: Store, c: Config, fuel: nat) returns (n: nat, d: Config)
    requires s.For? && Generator.EmitItem(s, g).Ok? && ItemSlots(s, x.slots)
    requires Entered(x, g, Generator.After(Generator.EmitItem(s, g), g), st, c)
    ensures Ends(x, g, Generator.After(Generator.EmitItem(s, g), g), c, Exec(x.ops, Engine, s, st, fuel), fuel, n, d)
    decreases fuel, s, 4
  {
    hide Run, CallStmt, At, Match, Finished, Arrives, Grown, OnlyCode, Placed, Within, ThrowsIn, Uncaught, ExecFor,
      ExecVars, EvalSeq, VarsSlots,
      Generator.EmitItem, Generator.EmitInit, Generator.EmitTests, Generator.EmitExprs;
    var g' := Generator.EmitItem(s, g).value;
    var h, i, a, b, m, p, q, r := ForStates(s, g);
    ForParts(x, s, g, h, i, a, b, m, p, q, r, g');
    ForHeadFacts(s.tag, s.init, g, h, i, a);
    var n1, d1 := SimInit(x, s.init, h, st, c, fuel);
    var r0 := ExecInit(x.ops, s.init, st);
    ArrivesNow(x, c);
    if r0.o.Raised? {
      n, d := n1, d1;
      EndsLater(x, g, h, i, g', |g.labels| + 4, c, 0, c, r0, fuel, fuel, n1, d1);
    } else {
      var d2 := d1.(ip := |q.ir|);
      EntryCode(a, b, g', |g.labels| + 4, g);
      AtPlaced(x, g, g');
      PlacedCode(g, g', x.final);
      assert i.Emit(Jump(|g.labels| + 2)).ir == a.ir;
      JumpStep(x, i, |g.labels| + 2, a, d1);
      ArrivesTrans(x, c, n1, d1, 1, d2);
      MatchIp(x, g, r0.st, d1, d1, d2) by { SelfTemps(x, g, d1); }
      var n3, d3 := SimForLoop(x, s, g, h, i, a, b, m, p, q, r, g', r0.st, d2, fuel);
      EndsPrefix(x, g, g', c, n1 + 1, d2, Again(x.ops, s, r0.st, fuel), fuel, fuel, n3, d3);
      n, d := n1 + 1 + n3, d3;
    }
  }

  ghost function ForTest(ops: Ops, s: Item, st: Store): EvalResult {
    if s.For? && s.ftest.Some? then EvalSeq(ops, s.ftest.value, st) else Value(Bool(true), st)
  }

  /** The test of a for loop, or the jump that stands for it. */
  lemma SimForTest(x: Ctx, s: Item, start: nat, q: Gen, r: Gen, st: Store, c: Config) returns (n: nat, d: Config)
    requires s.For? && ItemSlots(s, x.slots) && Ready(x, q, r, st, c)
    requires TestCode(s, start, q) == Generator.Ok(r)
    ensures Tested(x, q, |r.ir|, start, false, c, ForTest(x.ops, s, st), n, d)
  {
    hide Run, CallStmt, Fails, Arrives, EvalSeq, Generator.EmitTests;
    if s.ftest.Some? {
      n, d := SimTests(x, s.ftest.value, start, false, q, st, c);
    } else {
      n, d := 1, c.(ip := LabelAt(x.final.labels, start));
      JumpStep(x, q, start, r, c);
    }
  }

  lemma {:induction false} SimForLoop(x: Ctx, s: Item, g: Gen, h: Gen, i: Gen, a: Gen, b: Gen, m: Gen, p: Gen, q: Gen,
          r: Gen, g': Gen,
                                      st: Store, c: Config, fuel: nat) returns (n: nat, d: Config)
    requires ItemSlots(s, x.slots) && ForLaidOut(s, g, h, i, a, b, m, p, q, r, g')
    requires ForInPlace(x, g, h, i, a, b, m, p, q, r, g')
    requires Finished(x) && At(x, g, g') && Match(x, st, c) && c.ip == |q.ir|
    ensures Ends(x, g, g', c, Again(x.ops, s, st, fuel), fuel, n, d)
    decreases fuel, s, 3
  {
    hide Run, CallStmt, At, Match, Finished, Ends, Arrives, Grown, OnlyCode, Placed, Within, ThrowsIn, KeepsTemps,
      Exec, EvalSeq, VarsSlots,
      Generator.EmitItem, Generator.EmitTests, Generator.EmitExprs, Generator.EmitInit;
    n, d := 0, c;
    if fuel == 0 {
      OutOfFuel(x, g, g', c, st);
    } else {
      var lo := |g.labels| + 4;
      var n1, d1 := SimForTest(x, s, |g.labels| + 3, q, r, st, c);
      ArrivesNow(x, c);
      match ForTest(x.ops, s, st)
      case Thrown(v, st1) =>
        n, d := n1, d1;
        ErrorEnds(x, g, q, r, g', lo, c, 0, c, c.stack, v, st1, fuel, n1, d1);
      case Value(v, st1) =>
        if !x.ops.ToBoolean(v) {
          n, d := n1, d1;
          EndsHere(x, g, g', c, st1, fuel, n1, d1);
        } else {
          n, d := SimForBody(x, s, g, h, i, a, b, m, p, q, r, g', st, st1, c, n1, d1, v, fuel);
        }
    }
  }

  lemma {:induction false} SimForBody(x: Ctx, s: Item, g: Gen, h: Gen, i: Gen, a: Gen, b: Gen, m: Gen, p: Gen, q: Gen,
          r: Gen, g': Gen,
                                      st0: Store, st: Store, c: Config, n1: nat, d1: Config, v: Val, fuel: nat) returns (n: nat, d: Config)
    requires ItemSlots(s, x.slots) && ForLaidOut(s, g, h, i, a, b, m, p, q, r, g')
    requires ForInPlace(x, g, h, i, a, b, m, p, q, r, g')
    requires Finished(x) && At(x, g, g') && fuel > 0 && Arrives(x, c, n1, d1) && Match(x, st, d1) && d1.ip == |a.ir|
    requires n1 > 0
    requires ForTest(x.ops, s, st0) == Value(v, st) && x.ops.ToBoolean(v)
    ensures Ends(x, g, g', c, Again(x.ops, s, st0, fuel), fuel, n, d)
    decreases fuel, s, 2
  {
    hide Run, CallStmt, At, Match, Finished, Ends, Arrives, Grown, OnlyCode, Placed, Within, ThrowsIn, KeepsTemps,
      Exec, EvalSeq, VarsSlots,
      Generator.EmitItem, Generator.EmitTests, Generator.EmitExprs, Generator.EmitInit;
    var r1 := Exec(x.ops, Engine, s.body, st, fuel);
    var n2, d2 := SimItem(x, s.body, a, st, d1, fuel);
    ForHeadFacts(s.tag, s.init, g, h, i, a);
    BodyEnds(x, s.tag, g, a, b, g', |g.labels| + 4, c, n1, d1, r1, fuel, n2, d2);
    n, d := n1 + n2, d2;
    if LeavesLoop(r1.o, s.tag) {
      EndsHere(x, g, g', c, r1.st, fuel, n, d);
    } else if ContinuesLoop(r1.o, s.tag) {
      n, d := SimForStep(x, s, g, h, i, a, b, m, p, q, r, g', st0, st, r1, c, n, d, v, fuel);
    }
  }

  lemma {:induction false} SimForStep(x: Ctx, s: Item, g: Gen, h: Gen, i: Gen, a: Gen, b: Gen, m: Gen, p: Gen, q: Gen,
          r: Gen, g': Gen,
                                      st0: Store, st: Store, r1: Done, c: Config, n2: nat, d2: Config, v: Val, fuel: nat) returns (n: nat, d: Config)
    requires ItemSlots(s, x.slots) && ForLaidOut(s, g, h, i, a, b, m, p, q, r, g')
    requires ForInPlace(x, g, h, i, a, b, m, p, q, r, g')
    requires Finished(x) && At(x, g, g') && fuel > 0 && Reaches(x, c, n2, d2, |b.ir|, r1.st) && n2 > 0
    requires ForTest(x.ops, s, st0) == Value(v, st) && x.ops.ToBoolean(v)
    requires r1 == Once(x.ops, s, st, fuel) && !LeavesLoop(r1.o, TagOf(s)) && ContinuesLoop(r1.o, TagOf(s))
    ensures Ends(x, g, g', c, Again(x.ops, s, st0, fuel), fuel, n, d)
    decreases fuel, s, 1
  {
    hide Run, CallStmt, At, Match, Finished, Ends, Arrives, Grown, OnlyCode, Placed, Within, ThrowsIn, KeepsTemps,
      Exec, EvalSeq, VarsSlots,
      Generator.EmitItem, Generator.EmitTests, Generator.EmitExprs, Generator.EmitInit;
    if s.incr.None? {
      var n3, d3 := SimForLoop(x, s, g, h, i, a, b, m, p, q, r, g', r1.st, d2, fuel - 1);
      EndsPrefix(x, g, g', c, n2, d2, Again(x.ops, s, r1.st, fuel - 1), fuel - 1, fuel, n3, d3);
      n, d := n2 + n3, d3;
    } else {
      var n3, d3 := SimExprs(x, s.incr.value, false, m, r1.st, d2);
      n, d := n2 + n3, d3;
      match EvalSeq(x.ops, s.incr.value, r1.st)
      case Thrown(e, st2) =>
        ErrorEnds(x, g, m, p, g', |g.labels| + 4, c, n2, d2, d2.stack, e, st2, fuel, n3, d3);
      case Value(_, st2) =>
        ArrivesTrans(x, c, n2, d2, n3, d3);
        var n4, d4 := SimForLoop(x, s, g, h, i, a, b, m, p, q, r, g', st2, d3, fuel - 1);
        EndsPrefix(x, g, g', c, n, d3, Again(x.ops, s, st2, fuel - 1), fuel - 1, fuel, n4, d4);
        n, d := n + n4, d4;
    }
  }

  // ---- Switch ----

  lemma {:induction false} SimSwitch(x: Ctx, s: Item, g: Gen, st: Store, c: Config, fuel: nat) returns (n: nat,
          d: Config)
    requires s.Switch? && Generator.EmitItem(s, g).Ok? && ItemSlots(s, x.slots)
    requires Entered(x, g, Generator.After(Generator.EmitItem(s, g), g), st, c)
    ensures Ends(x, g, Generator.After(Generator.EmitItem(s, g), g), c, Exec(x.ops, Engine, s, st, fuel), fuel, n, d)
    decreases fuel, s, 4
  {
    hide Run, CallStmt, At, Match, Finished, Ends, Arrives, Grown, OnlyCode, Placed, Within, ThrowsIn, KeepsTemps,
      EvalSeq, ExecClauses, Select,
      GuardsPlace, ClausesPlace, Reaches, Generator.EmitItem, Generator.EmitExprs, Generator.EmitGuards, Generator.EmitClauses;
    var g' := Generator.EmitItem(s, g).value;
    var h, i, t, g2, all, dflt, jump, u, g3 := SwitchStates(s, g);
    SwitchParts.SwitchParts(x, s, s.disc, s.clauses, g, h, i, t, g2, all, dflt, jump, u, g3, g');
    AtReach(x, g, g');
    var n1, d1 := SimExprs(x, s.disc, true, h, st, c);
    ArrivesNow(x, c);
    match EvalSeq(x.ops, s.disc, st)
    case Thrown(v, st1) =>
      n, d := n1, d1;
      ErrorEnds(x, g, h, i, g', |h.labels|, c, 0, c, c.stack, v, st1, fuel, n1, d1);
    case Value(v, st1) =>
      var d2 := KeepInSlot(x, i, g.locals, u, d1, c.stack, v, st1);
      ArrivesTrans(x, c, n1, d1, 1, d2);
      var n3, d3 := SimGuards(x, g, g', s.clauses, all, 0, s.clauses, g.locals, None, t, g2, jump, g3, dflt, v, None, st1, d2, fuel);
      BreakAt(x, g, g', u, g3, s.tag, s.clauses, all, u);
      n, d := SimSelected(x, s.tag, s.clauses, g, g', u, g3, all, v, st1, c, n1 + 1, d2, n3, d3, fuel);
  }

  lemma AtReach(x: Ctx, g: Gen, g': Gen)
    requires At(x, g, g')
    ensures x.slots <= g.locals && Placed(g, g', x.final)
  {
  }

  /** From the selected clause on. */
  lemma {:induction false} SimSelected(x: Ctx, tag: Option<Label>, cs: Clauses, g: Gen, g': Gen, u: Gen, g3: Gen,
          all: seq<nat>, v: Val,
          st: Store, c: Config, n2: nat, d2: Config,
                                       n3: nat, d3: Config, fuel: nat) returns (n: nat, d: Config)
    requires ClausesSlots(cs, x.slots) && Finished(x) && At(x, g, g') && ClausesPlace(g, g', u, g3, tag, cs, all, u)
    requires Arrives(x, c, n2, d2) && Selects(x, g, g', all, d2, Selected(x.ops, cs, v, st), fuel, n3, d3)
    requires LabelAt(x.final.labels, |g.labels|) == |g'.ir|
    ensures Ends(x, g, g', c, ExecSwitch(x.ops, Engine, tag, cs, v, st, fuel), fuel, n, d)
    decreases fuel, cs, 2
  {
    hide Run, CallStmt, At, Match, Finished, Ends, Arrives, ExecClauses, Selected, ClausesPlace, Reaches;
    match Selected(x.ops, cs, v, st)
    case NoClause(st1) =>
      n, d := n2 + n3, d3;
      ReachesLater(x, c, n2, d2, n3, d3, |g'.ir|, st1);
      EndsHere(x, g, g', c, st1, fuel, n, d);
    case SelectThrew(e, st1) =>
      n, d := n2 + n3, d3;
      EndsPrefix(x, g, g', c, n2, d2, Done(Raised(e), st1), fuel, fuel, n3, d3);
    case Chosen(k, st1) =>
      var l := ClauseLabel(all, k);
      ReachesLater(x, c, n2, d2, n3, d3, LabelAt(x.final.labels, l), st1);
      n, d := SimClauses(x, tag, cs, all, k, g, g', u, g3, u, st1, d3, fuel) by {
        ReachedClause(x, c, n2 + n3, d3, l, st1);
        if k == 0 {
          FirstClause(x, g, g', u, g3, tag, cs, all, u);
        }
      }
      var r := ExecClauses(x.ops, Engine, cs, k, st1, fuel);
      ReachedArrives(x, c, n2 + n3, d3, LabelAt(x.final.labels, l), st1);
      EndsPrefix(x, g, g', c, n2 + n3, d3, SwitchEnds(tag, r), fuel, fuel, n, d);
      n := n2 + n3 + n;
  }

  lemma ReachedClause(x: Ctx, c: Config, n: nat, d: Config, l: nat, st: Store)
    requires Reaches(x, c, n, d, LabelAt(x.final.labels, l), st)
    ensures d.ip == LabelAt(x.final.labels, l) && Match(x, st, d)
  {
  }

  lemma ReachedArrives(x: Ctx, c: Config, n: nat, d: Config, ip: nat, st: Store)
    requires Reaches(x, c, n, d, ip, st)
    ensures Arrives(x, c, n, d)
  {
  }

  lemma FirstClause(x: Ctx, g: Gen, g': Gen, h: Gen, g3: Gen, tag: Option<Label>, cs: Clauses, ts: seq<nat>, cur: Gen)
    requires ClausesPlace(g, g', h, g3, tag, cs, ts, cur) && At(x, g, g') && ts != []
    ensures LabelAt(x.final.labels, ClauseLabel(ts, 0)) == |cur.ir|
  {
    hide At, Grown, Within, Increasing, Generator.EmitItems;
    var a, b := ClauseParts(x, g, g', h, g3, tag, cs, ts, cur);
  }

  /** The clauses from the k-th on run in order until one ends the switch. */
  lemma {:induction false} SimClauses(x: Ctx, tag: Option<Label>, cs: Clauses, ts: seq<nat>, k: nat, g: Gen, g': Gen,
          h: Gen, g3: Gen, cur: Gen,
                                      st: Store, c: Config, fuel: nat) returns (n: nat, d: Config)
    requires ClausesPlace(g, g', h, g3, tag, cs, ts, cur) && At(x, g, g') && Finished(x) && ClausesSlots(cs, x.slots)
    requires Match(x, st, c)
    requires if k == 0 then c.ip == |cur.ir| else k < |ts| && c.ip == LabelAt(x.final.labels, ClauseLabel(ts, k))
    ensures Ends(x, g, g', c, SwitchEnds(tag, ExecClauses(x.ops, Engine, cs, k, st, fuel)), fuel, n, d)
    decreases fuel, cs, 1
  {
    hide Run, CallStmt, At, Match, Finished, Ends, Arrives, Grown, Within, ThrowsIn, Increasing, ExecAll,
      Generator.EmitItems;
    if cs.NoClauses? {
      ClausesEnd(g, g', h, g3, tag, cs, ts, cur);
      n, d := 0, c;
      ArrivesNow(x, c);
      EndsHere(x, g, g', c, st, fuel, 0, c);
    } else {
      var a, b := ClauseParts(x, g, g', h, g3, tag, cs, ts, cur);
      if k > 0 {
        if k == 1 && ts[1..] != [] {
          FirstClause(x, g, g', h, g3, tag, cs.rest, ts[1..], b);
        }
        n, d := SimClauses(x, tag, cs.rest, ts[1..], k - 1, g, g', h, g3, b, st, c, fuel);
      } else {
        var r := ExecAll(x.ops, Engine, cs.stmts, st, fuel);
        var n1, d1 := SimItems(x, cs.stmts, a, st, c, fuel);
        n, d := SimClauseEnd(x, tag, cs, ts, g, g', h, g3, cur, a, b, st, c, r, n1, d1, fuel);
      }
    }
  }

  lemma {:induction false} SimClauseEnd(x: Ctx, tag: Option<Label>, cs: Clauses, ts: seq<nat>, g: Gen, g': Gen,
          h: Gen, g3: Gen, cur: Gen, a: Gen, b: Gen,
                                        st: Store, c: Config, r: Done, n1: nat, d1: Config, fuel: nat) returns (n: nat, d: Config)
    requires cs != NoClauses && At(x, g, g') && Finished(x) && ClausesSlots(cs, x.slots)
    requires ClausesPlace(g, g', h, g3, tag, cs, ts, cur)
    requires ClausesPlace(g, g', h, g3, tag, RestOf(cs), Others(ts), b) && Within(g, a, b, g', |h.labels|)
    requires a.breaks == cur.breaks && a.continues == cur.continues
    requires r == ExecAll(x.ops, Engine, StmtsOf(cs), st, fuel) && Ends(x, a, b, c, r, fuel, n1, d1)
    ensures Ends(x, g, g', c, SwitchEnds(tag, ExecClauses(x.ops, Engine, cs, 0, st, fuel)), fuel, n, d)
    decreases fuel, cs, 0
  {
    hide Run, CallStmt, At, Match, Finished, Grown, Within, ThrowsIn, Increasing, ExecAll, Uncaught, Finishes, Arrives,
      Generator.EmitItems, Generator.EmitClauses, Generator.GetTarget;
    n, d := n1, d1;
    ArrivesNow(x, c);
    if r.o.Normal? {
      var n2, d2 := SimClauses(x, tag, cs.rest, ts[1..], 0, g, g', h, g3, b, r.st, d1, fuel);
      var r2 := ExecClauses(x.ops, Engine, cs.rest, 0, r.st, fuel);
      EndsPrefix(x, g, g', c, n1, d1, SwitchEnds(tag, r2), fuel, fuel, n2, d2);
      n, d := n1 + n2, d2;
    } else {
      if r.o.Broke? {
        PushedTarget(g.breaks, tag, |g.labels|, g.depth, r.o.tag);
      }
      if LeavesLoop(r.o, tag) {
        AtReach(x, g, g');
        BreakAt(x, g, g', h, g3, tag, cs, ts, cur);
      } else {
        EndsLater(x, g, a, b, g', |h.labels|, c, 0, c, r, fuel, fuel, n1, d1);
      }
    }
  }

  // ---- Try ----

  lemma {:induction false} SimTry(x: Ctx, s: Item, g: Gen, st: Store, c: Config, fuel: nat) returns (n: nat, d: Config)
    requires s.Try? && Generator.EmitItem(s, g).Ok? && ItemSlots(s, x.slots)
    requires Entered(x, g, Generator.After(Generator.EmitItem(s, g), g), st, c)
    ensures Ends(x, g, Generator.After(Generator.EmitItem(s, g), g), c, Exec(x.ops, Engine, s, st, fuel), fuel, n, d)
    decreases fuel, s, 4
  {
    hide Run, CallStmt, At, Match, Finished, Ends, Arrives, TryShape, ThrowsIn, ExecAll, Generator.EmitItem,
      Generator.EmitItems, TryStart, CatchStart;
    var g' := Generator.EmitItem(s, g).value;
    var h, i, k, m, e := TryStates(s, g);
    TryShapes(s, |g.labels|, s.catchSlot, g, h, i, k, m, e, g');
    TryInPlace(x, g, h, i, k, m, e, g');
    TryOrder(g, h, i, k, m, e, g');
    TryHead(g, h, i, k, m, e, g');
    var r := ExecAll(x.ops, Engine, s.stmts, st, fuel);
    var n1, d1 := SimItems(x, s.stmts, h, st, c, fuel);
    ArrivesNow(x, c);
    if r.o.Normal? {
      NormalReaches(x, h, i, c, r, fuel, n1, d1);
      n, d := LeaveTry(x, i, k, |g.labels|, c, r.st, n1, d1) by { AtCode(x, k, m); }
      EndsHere(x, g, g', c, r.st, fuel, n, d);
    } else if r.o.Raised? {
      var d2 := CatchHere(x, g, h, i, k, m, e, g', c, r, fuel, n1, d1);
      var d3 := EnterHandler(x, g, i, k, m, |g.labels|, s.catchSlot, r.o.v, r.st, d2) by { AtCode(x, k, m); }
      ReachesLater(x, c, n1 + 1, d2, 2, d3, |k.ir|, Write(r.st, s.catchSlot, r.o.v));
      var r2 := ExecAll(x.ops, Engine, s.handler, Write(r.st, s.catchSlot, r.o.v), fuel);
      var n4, d4 := SimItems(x, s.handler, k, Write(r.st, s.catchSlot, r.o.v), d3, fuel);
      n, d := HandlerEnds(x, g, h, i, k, m, e, g', c, n1 + 3, d3, r2, fuel, n4, d4);
    } else {
      n, d := n1, d1;
      EscapeEnds(x, g, h, i, g', c, 0, c, r, fuel, n1, d1);
    }
  }

  lemma TryHead(g: Gen, h: Gen, i: Gen, k: Gen, m: Gen, e: Gen, g': Gen)
    requires TryShape(g, h, i, k, m, e, g')
    ensures h.ir == g.ir && h.breaks == k.breaks == g.breaks && h.continues == k.continues == g.continues
    ensures |k.ir| == |i.ir| + 3
    ensures |g.ir| <= |h.ir| && |g'.ir| == |e.ir|
  {
  }

  lemma AtCode(x: Ctx, k: Gen, m: Gen)
    requires At(x, k, m)
    ensures m.ir <= x.final.ir
  {
  }

  lemma NormalReaches(x: Ctx, g: Gen, g': Gen, c: Config, r: Done, fuel: nat, n: nat, d: Config)
    requires Ends(x, g, g', c, r, fuel, n, d) && r.o.Normal?
    ensures Reaches(x, c, n, d, |g'.ir|, r.st)
  {
  }

  /** The Leave at the end of a body or a handler. */
  lemma LeaveTry(x: Ctx, i: Gen, k: Gen, after: nat, c: Config, st: Store, n1: nat, d1: Config) returns (n: nat,
          d: Config)
    requires Reaches(x, c, n1, d1, |i.ir|, st) && i.Emit(Leave(after)).ir <= k.ir <= x.final.ir && Finished(x)
    requires Covered(x.final, |i.ir|, |i.ir| + 1)
    ensures Reaches(x, c, n, d, LabelAt(x.final.labels, after), st)
  {
    hide Run, CallStmt, Finished, Covered;
    LeaveStep(x, i, after, k, d1);
    d := d1.(ip := LabelAt(x.final.labels, after), thrown := None);
    n := n1 + 1;
    ArrivesTrans(x, c, n1, d1, 1, d);
  }

  /** An error that escaped the body arrives at the handler. */
  lemma CatchHere(x: Ctx, g: Gen, h: Gen, i: Gen, k: Gen, m: Gen, e: Gen, g': Gen, c: Config, r: Done, fuel: nat,
          n1: nat, d1: Config) returns (d: Config)
    requires TryShape(g, h, i, k, m, e, g') && Finished(x) && At(x, g, g') && r.o.Raised?
    requires Ends(x, h, i, c, r, fuel, n1, d1)
    ensures Arrives(x, c, n1 + 1, d) && d.ip == |i.ir| + 1 && d.thrown == Some(r.o.v) && Match(x, r.st, d)
  {
    hide Run, CallStmt, Finished, Covered, Placed, TryShape, Uncaught, TableBefore, Sheltered, Targets, IsBest, Fails,
      Match, Entry;
    OwnIsBest(x, g, h, i, k, m, e, g', d1.ip);
    d := ThrowStep(x, [], d1, r.o.v, r.st, Own(g, i, e));
    ArrivesTrans(x, c, n1, d1, 1, d);
  }

  /** How the handler ends the statement. */
  lemma HandlerEnds(x: Ctx, g: Gen, h: Gen, i: Gen, k: Gen, m: Gen, e: Gen, g': Gen, c: Config, n3: nat, d3: Config,
          r: Done, fuel: nat, n4: nat, d4: Config)
    returns (n: nat, d: Config)
    requires TryShape(g, h, i, k, m, e, g') && Finished(x) && At(x, g, g') && Arrives(x, c, n3, d3)
    requires Ends(x, k, m, d3, r, fuel, n4, d4)
    requires e.ir == m.Emit(Leave(|g.labels|)).ir && Covered(x.final, |m.ir|, |m.ir| + 1)
    requires LabelAt(x.final.labels, |g.labels|) == |g'.ir|
    ensures Ends(x, g, g', c, r, fuel, n, d)
  {
    hide Run, CallStmt, Finished, Covered, Placed, TryShape, Uncaught, TableBefore, Sheltered, Targets, Fails, Match,
      Finishes, Arrives, Generator.GetTarget;
    TryOrder(g, h, i, k, m, e, g');
    TryHead(g, h, i, k, m, e, g');
    n, d := n3 + n4, d4;
    if r.o.Normal? {
      ReachesLater(x, c, n3, d3, n4, d4, |m.ir|, r.st);
      n, d := LeaveTry(x, m, e, |g.labels|, c, r.st, n3 + n4, d4) by { TryCode(x, g, h, i, k, m, e, g'); }
    } else if r.o.Raised? {
      HandlerUncaught(x, g, h, i, k, m, e, g', d4.ip);
      ThrowsLater(x, |g.ir|, |g'.ir|, [], c, n3, d3, |k.ir|, |m.ir|, [], r.o.v, r.st, n4, d4);
    } else {
      EscapeEnds(x, g, k, m, g', c, n3, d3, r, fuel, n4, d4);
    }
  }

  lemma TryCode(x: Ctx, g: Gen, h: Gen, i: Gen, k: Gen, m: Gen, e: Gen, g': Gen)
    requires TryShape(g, h, i, k, m, e, g') && Placed(g, g', x.final)
    ensures e.ir <= x.final.ir
  {
  }
}
