/** The engine lets an unlabelled break end an enclosing labelled block, the standard does not. Where the two agree,
    and a program on which they do not. */
module Dialects {
  import opened Ast
  import opened Semantics
  import Generator
  import IrBuilder
  import opened Interpreter
  import opened CompilerCorrect
  import opened Wrappers

  /** No unlabelled break has a labelled block as its nearest target; `inBlock` says whether the surroundings'
      nearest target is one. */
  ghost predicate Clean(s: Item, inBlock: bool) {
    match s
    case Block(tag, stmts) => AllClean(stmts, inBlock || tag.Some?)
    case Break(tag) => tag.Some? || !inBlock
    case Do(_, _, body) => Clean(body, false)
    case For(_, _, _, _, body) => Clean(body, false)
    case If(_, a, b) => Clean(a, inBlock) && (b.Some? ==> Clean(b.value, inBlock))
    case Switch(_, _, clauses) => ClausesClean(clauses)
    case Try(stmts, _, handler) => AllClean(stmts, inBlock) && AllClean(handler, inBlock)
    case While(_, _, body) => Clean(body, false)
    case _ => true
  }

  ghost predicate AllClean(ss: Items, inBlock: bool) {
    ss.Cons? ==> Clean(ss.head, inBlock) && AllClean(ss.tail, inBlock)
  }

  ghost predicate ClausesClean(cs: Clauses) {
    !cs.NoClauses? ==> AllClean(cs.stmts, false) && ClausesClean(cs.rest)
  }

  // ---- Writing the targets out ----

  /** The same statement with every unlabelled break whose nearest target is a labelled block made explicit; `near` is
      the label of the surroundings' nearest target if that is a block. */
  ghost function Explicit(s: Item, near: Option<Label>): Item {
    match s
    case Block(tag, stmts) => Block(tag, ExplicitAll(stmts, if tag.Some? then tag else near))
    case Break(tag) => Break(if tag.None? then near else tag)
    case Do(tag, test, body) => Do(tag, test, Explicit(body, None))
    case For(tag, init, test, incr, body) => For(tag, init, test, incr, Explicit(body, None))
    case If(cond, a, b) => If(cond, Explicit(a, near), if b.Some? then Option.Some(Explicit(b.value, near)) else None)
    case Switch(tag, disc, clauses) => Switch(tag, disc, ExplicitClauses(clauses))
    case Try(stmts, slot, handler) => Try(ExplicitAll(stmts, near), slot, ExplicitAll(handler, near))
    case While(tag, test, body) => While(tag, test, Explicit(body, None))
    case _ => s
  }

  ghost function ExplicitAll(ss: Items, near: Option<Label>): Items {
    match ss
    case Nil => Nil
    case Cons(s, rest) => Cons(Explicit(s, near), ExplicitAll(rest, near))
  }

  ghost function ExplicitClauses(cs: Clauses): Clauses {
    match cs
    case NoClauses => NoClauses
    case Default(stmts, rest) => Default(ExplicitAll(stmts, None), ExplicitClauses(rest))
    case Case(guard, stmts, rest) => Case(guard, ExplicitAll(stmts, None), ExplicitClauses(rest))
  }

  /** Nothing has to be written out exactly if the statement is clean. */
  lemma {:induction false} ExplicitExactly(s: Item, near: Option<Label>)
    ensures Explicit(s, near) == s <==> Clean(s, near.Some?)
    ensures Clean(Explicit(s, near), near.Some?)
    decreases s, 0
  {
    match s
    case Block(tag, stmts) => ExplicitAllExactly(stmts, if tag.Some? then tag else near);
    case Do(_, _, body) => ExplicitExactly(body, None);
    case For(_, _, _, _, body) => ExplicitExactly(body, None);
    case If(_, a, b) =>
      ExplicitExactly(a, near);
      if b.Some? {
        ExplicitExactly(b.value, near);
      }
    case Switch(_, _, clauses) => ExplicitClausesExactly(clauses);
    case Try(stmts, _, handler) =>
      ExplicitAllExactly(stmts, near);
      ExplicitAllExactly(handler, near);
    case While(_, _, body) => ExplicitExactly(body, None);
    case _ =>
  }

  lemma {:induction false} ExplicitAllExactly(ss: Items, near: Option<Label>)
    ensures ExplicitAll(ss, near) == ss <==> AllClean(ss, near.Some?)
    ensures AllClean(ExplicitAll(ss, near), near.Some?)
    decreases ss, 0
  {
    if ss.Cons? {
      ExplicitExactly(ss.head, near);
      ExplicitAllExactly(ss.tail, near);
    }
  }

  lemma {:induction false} ExplicitClausesExactly(cs: Clauses)
    ensures ExplicitClauses(cs) == cs <==> ClausesClean(cs)
    ensures ClausesClean(ExplicitClauses(cs))
    decreases cs, 0
  {
    if !cs.NoClauses? {
      ExplicitAllExactly(cs.stmts, None);
      ExplicitClausesExactly(cs.rest);
    }
  }

  /** An unlabelled break as the explicit form has it. */
  ghost function Named(r: Done, near: Option<Label>): Done {
    if r.o == Broke(None) then Done(Broke(near), r.st) else r
  }

  /** In the standard the explicit statement means what the statement means in the engine. */
  lemma {:induction false} ExplicitMeans(ops: Ops, s: Item, near: Option<Label>, st: Store, fuel: nat)
    ensures Exec(ops, Standard, Explicit(s, near), st, fuel) == Named(Exec(ops, Engine, s, st, fuel), near)
    decreases fuel, s, 1
  {
    hide Eval, EvalSeq, Select, ExecWhile, ExecDo, ExecFor, ExecAll, ExecClauses, ExecVars, ExplicitAll,
      ExplicitClauses;
    match s
    case Block(tag, stmts) => AllMean(ops, stmts, if tag.Some? then tag else near, st, fuel);
    case Do(tag, test, body) => DoMeans(ops, tag, test, body, st, fuel);
    case For(tag, init, test, incr, body) =>
      var r := match init
        case NoInit => Done(Normal, st)
        case ExprInit(es) => OfEval(EvalSeq(ops, es, st))
        case VarInit(vars) => ExecVars(ops, vars, st);
      if init.VarInit? {
        VarsKind(ops, init.vars, st);
      }
      if r.o.Normal? {
        ForMeans(ops, tag, test, incr, body, r.st, fuel);
      }
    case If(cond, a, b) =>
      var r := EvalSeq(ops, cond, st);
      if r.Value? {
        ExplicitMeans(ops, a, near, r.st, fuel);
        if b.Some? {
          ExplicitMeans(ops, b.value, near, r.st, fuel);
        }
      }
    case Switch(tag, disc, clauses) =>
      var r := EvalSeq(ops, disc, st);
      if r.Value? {
        SameSelection(ops, clauses, r.v, 0, None, r.st);
        var k := Selected(ops, clauses, r.v, r.st);
        if k.Chosen? {
          ClausesMean(ops, clauses, k.k, k.st, fuel);
        }
      }
    case Try(stmts, slot, handler) =>
      AllMean(ops, stmts, near, st, fuel);
      var r := ExecAll(ops, Engine, stmts, st, fuel);
      if r.o.Raised? {
        AllMean(ops, handler, near, Write(r.st, slot, r.o.v), fuel);
      }
    case While(tag, test, body) => WhileMeans(ops, tag, test, body, st, fuel);
    case VarDecl(vars) => VarsKind(ops, vars, st);
    case _ =>
  }

  lemma {:induction false} SameSelection(ops: Ops, cs: Clauses, v: Val, k: nat, default: Option<nat>, st: Store)
    ensures Select(ops, ExplicitClauses(cs), v, k, default, st) == Select(ops, cs, v, k, default, st)
    decreases cs
  {
    hide EvalSeq, ExplicitAll;
    match cs
    case NoClauses =>
    case Default(_, rest) => SameSelection(ops, rest, v, k + 1, Option.Some(k), st);
    case Case(guard, _, rest) => SameSelection(ops, rest, v, k + 1, default, EvalSeq(ops, guard, st).st);
  }

  lemma {:induction false} VarsKind(ops: Ops, vars: seq<Var>, st: Store)
    ensures ExecVars(ops, vars, st).o.Normal? || ExecVars(ops, vars, st).o.Raised?
    decreases vars
  {
    hide Eval;
    if vars == [] {
    } else if vars[0].init.None? {
      VarsKind(ops, vars[1..], st);
    } else {
      var r := Eval(ops, vars[0].init.value, st);
      if r.Value? {
        VarsKind(ops, vars[1..], Write(r.st, vars[0].slot, r.v));
      }
    }
  }

  lemma {:induction false} AllMean(ops: Ops, ss: Items, near: Option<Label>, st: Store, fuel: nat)
    ensures ExecAll(ops, Standard, ExplicitAll(ss, near), st, fuel) == Named(ExecAll(ops, Engine, ss, st, fuel), near)
    decreases fuel, ss, 0
  {
    hide Exec, Explicit;
    if ss.Cons? {
      ExplicitMeans(ops, ss.head, near, st, fuel);
      AllMean(ops, ss.tail, near, Exec(ops, Engine, ss.head, st, fuel).st, fuel);
    }
  }

  /** A loop's outcome from that of one iteration's parts. */
  ghost function Iterate(ops: Ops, tag: Option<Label>, v: EvalResult, r: Done, rest: Done): Done {
    match v
    case Thrown(e, st) => Done(Raised(e), st)
    case Value(b, st) =>
      if !ops.ToBoolean(b) then Done(Normal, st)
      else if LeavesLoop(r.o, tag) then Done(Normal, r.st)
      else if ContinuesLoop(r.o, tag) then rest
      else r
  }

  lemma WhileStep(ops: Ops, d: Dialect, tag: Option<Label>, test: Expr, body: Item, st: Store, fuel: nat,
          less: nat)
    requires fuel == less + 1
    ensures var v := Eval(ops, test, st);
      var r := Exec(ops, d, body, v.st, fuel);
      ExecWhile(ops, d, tag, test, body, st, fuel) == Iterate(ops, tag, v, r, ExecWhile(ops, d, tag, test, body, r.st, less))
  {
    hide Exec, Eval;
  }

  lemma {:induction false} WhileMeans(ops: Ops, tag: Option<Label>, test: Expr, body: Item, st: Store, fuel: nat)
    ensures ExecWhile(ops, Standard, tag, test, Explicit(body, None), st, fuel) == ExecWhile(ops, Engine, tag, test, body, st, fuel)
    ensures ExecWhile(ops, Engine, tag, test, body, st, fuel).o != Broke(None)
    decreases fuel, body, 2
  {
    hide Exec, Eval, ExecWhile;
    if fuel == 0 {
      NoFuel(ops, tag, test, None, None, body, st, fuel);
      NoFuel(ops, tag, test, None, None, Explicit(body, None), st, fuel);
    } else {
      var v := Eval(ops, test, st);
      WhileStep(ops, Standard, tag, test, Explicit(body, None), st, fuel, fuel - 1);
      WhileStep(ops, Engine, tag, test, body, st, fuel, fuel - 1);
      ExplicitMeans(ops, body, None, v.st, fuel);
      WhileMeans(ops, tag, test, body, Exec(ops, Engine, body, v.st, fuel).st, fuel - 1);
    }
  }

  lemma NoFuel(ops: Ops, tag: Option<Label>, test: Expr, ftest: Option<Exprs>, incr: Option<Exprs>, body: Item,
          st: Store, fuel: nat)
    requires fuel == 0
    ensures forall d :: ExecWhile(ops, d, tag, test, body, st, fuel) == Done(Timeout, st)
    ensures forall d :: ExecDo(ops, d, tag, test, body, st, fuel) == Done(Timeout, st)
    ensures forall d :: ExecFor(ops, d, tag, ftest, incr, body, st, fuel) == Done(Timeout, st)
  {
  }

  ghost function DoAgain(ops: Ops, tag: Option<Label>, r: Done, v: EvalResult, rest: Done): Done {
    if LeavesLoop(r.o, tag) then Done(Normal, r.st)
    else if !ContinuesLoop(r.o, tag) then r
    else
      match v
      case Thrown(e, st) => Done(Raised(e), st)
      case Value(b, st) => if ops.ToBoolean(b) then rest else Done(Normal, st)
  }

  lemma DoStep(ops: Ops, d: Dialect, tag: Option<Label>, test: Expr, body: Item, st: Store, fuel: nat,
          less: nat)
    requires fuel == less + 1
    ensures var r := Exec(ops, d, body, st, fuel);
      var v := Eval(ops, test, r.st);
      ExecDo(ops, d, tag, test, body, st, fuel) == DoAgain(ops, tag, r, v, ExecDo(ops, d, tag, test, body, v.st, less))
  {
    hide Exec, Eval;
  }

  lemma {:induction false} DoMeans(ops: Ops, tag: Option<Label>, test: Expr, body: Item, st: Store, fuel: nat)
    ensures ExecDo(ops, Standard, tag, test, Explicit(body, None), st, fuel) == ExecDo(ops, Engine, tag, test, body, st, fuel)
    ensures ExecDo(ops, Engine, tag, test, body, st, fuel).o != Broke(None)
    decreases fuel, body, 2
  {
    hide Exec, Eval, ExecDo;
    if fuel == 0 {
      NoFuel(ops, tag, test, None, None, body, st, fuel);
      NoFuel(ops, tag, test, None, None, Explicit(body, None), st, fuel);
    } else {
      ExplicitMeans(ops, body, None, st, fuel);
      DoStep(ops, Standard, tag, test, Explicit(body, None), st, fuel, fuel - 1);
      DoStep(ops, Engine, tag, test, body, st, fuel, fuel - 1);
      DoMeans(ops, tag, test, body, Eval(ops, test, Exec(ops, Engine, body, st, fuel).st).st, fuel - 1);
    }
  }

  ghost function AfterIncr(v: EvalResult, rest: Done): Done {
    match v
    case Thrown(e, st) => Done(Raised(e), st)
    case Value(_, _) => rest
  }

  ghost function ForStepResult(ops: Ops, incr: Option<Exprs>, st: Store): EvalResult {
    if incr.None? then Value(Undefined, st) else EvalSeq(ops, incr.value, st)
  }

  ghost function ForTestResult(ops: Ops, test: Option<Exprs>, st: Store): EvalResult {
    if test.None? then Value(Bool(true), st) else EvalSeq(ops, test.value, st)
  }

  lemma ForStep(ops: Ops, d: Dialect, tag: Option<Label>, test: Option<Exprs>, incr: Option<Exprs>, body: Item,
          st: Store, fuel: nat, less: nat)
    requires fuel == less + 1
    ensures var v := ForTestResult(ops, test, st);
      var r := Exec(ops, d, body, v.st, fuel);
      var i := ForStepResult(ops, incr, r.st);
      ExecFor(ops, d, tag, test, incr, body, st, fuel)
        == Iterate(ops, tag, v, r, AfterIncr(i, ExecFor(ops, d, tag, test, incr, body, i.st, less)))
  {
    hide Exec, EvalSeq;
  }

  lemma {:induction false} ForMeans(ops: Ops, tag: Option<Label>, test: Option<Exprs>, incr: Option<Exprs>, body: Item,
          st: Store, fuel: nat)
    ensures ExecFor(ops, Standard, tag, test, incr, Explicit(body, None), st, fuel) == ExecFor(ops, Engine, tag, test, incr, body, st, fuel)
    ensures ExecFor(ops, Engine, tag, test, incr, body, st, fuel).o != Broke(None)
    decreases fuel, body, 2
  {
    hide Exec, EvalSeq, ExecFor, ForStepResult;
    if fuel == 0 {
      NoFuel(ops, tag, Literal(LitNull), test, incr, body, st, fuel);
      NoFuel(ops, tag, Literal(LitNull), test, incr, Explicit(body, None), st, fuel);
    } else {
      var v := ForTestResult(ops, test, st);
      ForStep(ops, Standard, tag, test, incr, Explicit(body, None), st, fuel, fuel - 1);
      ForStep(ops, Engine, tag, test, incr, body, st, fuel, fuel - 1);
      ExplicitMeans(ops, body, None, v.st, fuel);
      ForMeans(ops, tag, test, incr, body, ForStepResult(ops, incr, Exec(ops, Engine, body, v.st, fuel).st).st, fuel - 1);
    }
  }

  lemma {:induction false} ClausesMean(ops: Ops, cs: Clauses, k: nat, st: Store, fuel: nat)
    ensures ExecClauses(ops, Standard, ExplicitClauses(cs), k, st, fuel) == ExecClauses(ops, Engine, cs, k, st, fuel)
    decreases fuel, cs, 0
  {
    hide ExecAll, ExplicitAll;
    if cs.NoClauses? {
    } else if k > 0 {
      ClausesMean(ops, cs.rest, k - 1, st, fuel);
    } else {
      AllMean(ops, cs.stmts, None, st, fuel);
      ClausesMean(ops, cs.rest, 0, ExecAll(ops, Engine, cs.stmts, st, fuel).st, fuel);
    }
  }

  /** What any function means in the engine, the function with its targets written out means in the standard, and it
      is the function itself exactly if that is clean. */
  lemma EngineIsExplicit(ops: Ops, slots: nat, body: Items, w: World, fuel: nat)
    ensures ExecFunction(ops, Engine, slots, body, w, fuel) == ExecFunction(ops, Standard, slots, ExplicitAll(body, None), w, fuel)
    ensures ExplicitAll(body, None) == body <==> AllClean(body, false)
  {
    hide ExecAll, ExplicitAll, AllClean;
    AllMean(ops, body, None, AtEntry(slots, w), fuel);
    ExplicitAllExactly(body, None);
  }

  /** For a function without such a break, the compiled code does what the standard says. */
  lemma StandardPreserved(ops: Ops, slots: nat, body: Items, w: World, fuel: nat, n: nat)
    requires Generator.Compile(slots, body).Ok? && ItemsSlots(body, slots) && AllClean(body, false)
    requires !ExecFunction(ops, Standard, slots, body, w, fuel).o.Timeout?
    requires !After(ops, slots, body, w, n).Running?
    ensures Agrees(slots, ExecFunction(ops, Standard, slots, body, w, fuel), After(ops, slots, body, w, n))
  {
    hide After, ExecAll, Generator.Compile, Agrees;
    EngineIsExplicit(ops, slots, body, w, fuel);
    CompilerPreserves(ops, slots, body, w, fuel, n);
  }

  /** while (true) { L: { break; } return 1; } */
  ghost function BareBreak(): Items {
    var inner := Block(Some(0), Cons(Break(None), Nil));
    var answer := Return(Option.Some(Last(Literal(LitLong(1)))));
    Cons(While(None, Literal(LitBoolean(true)), Block(None, Cons(inner, Cons(answer, Nil)))), Nil)
  }

  /** The break is meant to end the loop; in the engine it ends the block, and the function answers 1. */
  lemma BareBreakDiffers(ops: Ops, slots: nat, w: World, fuel: nat)
    requires fuel > 0
    ensures Generator.Compile(slots, BareBreak()).Ok? && !AllClean(BareBreak(), false)
    ensures ExecFunction(ops, Standard, slots, BareBreak(), w, fuel).o == Returned(Undefined)
    ensures ExecFunction(ops, Engine, slots, BareBreak(), w, fuel).o == Returned(Num(1.0))
  {
    hide ExecAll, BareBreak, Generator.Compile, AllClean;
    BareBreakCompiles(slots);
    BareBreakIsNotClean();
    BareBreakRuns(ops, Standard, AtEntry(slots, w), fuel);
    BareBreakRuns(ops, Engine, AtEntry(slots, w), fuel);
  }

  lemma BareBreakIsNotClean()
    ensures !AllClean(BareBreak(), false)
  {
    var s := BareBreak().head;
    assert !Clean(s, false) by {
      assert !Clean(s.body.stmts.head, false) by {
        assert !Clean(s.body.stmts.head.stmts.head, true);
      }
    }
  }

  lemma BareBreakRuns(ops: Ops, d: Dialect, st: Store, fuel: nat)
    requires fuel > 0
    ensures ExecAll(ops, d, BareBreak(), st, fuel) == Done(if d.Standard? then Normal else Returned(Num(1.0)), st)
  {
    var s := BareBreak().head;
    var inner := s.body.stmts.head;
    var answer := s.body.stmts.tail.head;
    assert ExecAll(ops, d, inner.stmts, st, fuel) == Done(Broke(None), st) by {
      assert Exec(ops, d, inner.stmts.head, st, fuel) == Done(Broke(None), st);
    }
    assert Exec(ops, d, inner, st, fuel) == if d.Standard? then Done(Broke(None), st) else Done(Normal, st);
    assert Exec(ops, d, answer, st, fuel) == Done(Returned(Num(1.0)), st) by {
      assert EvalSeq(ops, answer.result.value, st) == Eval(ops, Literal(LitLong(1)), st) == Value(Num(1.0), st);
    }
    assert ExecAll(ops, d, s.body.stmts.tail, st, fuel) == Done(Returned(Num(1.0)), st);
    var r := if d.Standard? then Done(Broke(None), st) else Done(Returned(Num(1.0)), st);
    assert Exec(ops, d, s.body, st, fuel) == ExecAll(ops, d, s.body.stmts, st, fuel) == r;
    assert Exec(ops, d, s, st, fuel) == ExecWhile(ops, d, None, s.test, s.body, st, fuel);
    assert Eval(ops, s.test, st) == Value(Bool(true), st);
  }

  lemma BareBreakCompiles(slots: nat)
    ensures Generator.Compile(slots, BareBreak()).Ok?
  {
    var g := Generator.Prolog(slots, Generator.Start(slots));
    var s := BareBreak().head;
    var inner, answer := s.body.stmts.head, s.body.stmts.tail.head;
    var g1 := g.PushBreak(None).PushContinue(None).NewLabel().Emit(IrBuilder.Jump(|g.labels| + 1)).Mark(|g.labels| + 2);
    var a := g1.PushBreak(Some(0));
    assert Generator.EmitItem(inner.stmts.head, a).Ok?;
    assert Generator.EmitItems(inner.stmts, a).Ok?;
    assert Generator.EmitItem(inner, g1).Ok?;
    var g2 := Generator.EmitItem(inner, g1).value;
    assert Generator.EmitExpr(Literal(LitLong(1)), true, g2).Ok?;
    assert Generator.EmitItem(answer, g2).Ok?;
    assert Generator.EmitItems(s.body.stmts.tail, g2).Ok?;
    assert Generator.EmitItem(s.body, g1).Ok?;
    assert Generator.EmitItem(s, g).Ok?;
  }
}
