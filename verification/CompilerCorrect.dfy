/** Whole functions: a compiled function run by the interpreter does what the structured semantics says, no more and
    no less, and runs forever exactly if the source does. */
module CompilerCorrect {
  import opened Ast
  import opened Semantics
  import opened ExceptionTable
  import opened IrBuilder
  import Generator
  import opened GeneratorFacts
  import opened Interpreter
  import opened ExprCorrect
  import opened Pieces
  import opened ItemParts
  import opened ItemCorrect
  import opened Wrappers

  /** A run of the machine ended the way a function body ended: same kind of end, same value, same variables, same
      world. */
  ghost predicate Agrees(slots: nat, r: Done, s: Status) {
    match r.o
    case Returned(v) => s.Returns? && s.v == v && s.w == r.st.w && slots <= |s.locals| && s.locals[..slots] == r.st.vars
    case Raised(v) => s.Throws? && s.v == v && s.w == r.st.w && slots <= |s.locals| && s.locals[..slots] == r.st.vars
    case _ => false
  }

  // ---- The finished function ----

  lemma {:induction false} PrologFacts(k: nat, slots: nat)
    ensures var p := Generator.Prolog(k, Generator.Start(slots));
      |p.ir| == 2 * k && p == Generator.Start(slots).(ir := p.ir)
  {
    if k > 0 {
      PrologFacts(k - 1, slots);
    }
  }

  lemma EpilogPlaced(p: Gen, g: Gen, f: Gen)
    requires p.ret.None? && Grown(p, g, 0) && f == Generator.Epilog(g)
    ensures Placed(p, g, f) && f.table == g.table && f.locals == g.locals
    ensures g.ir + [LoadUndefined, ReturnIr] <= f.ir
  {
  }

  lemma EpilogReturn(x: Ctx, p: Gen, g: Gen)
    requires p.ret.None? && p.locals == x.slots && Grown(p, g, 0) && x.final == Generator.Epilog(g) && g.ret.Some?
    ensures ReturnAnswers(x)
  {
    var t := g.ret.value;
    assert x.final.labels[t.at] == |g.ir| + 2;
    assert x.final.ir == g.ir + [LoadUndefined, ReturnIr, LoadLocal(t.slot), ReturnIr];
  }

  lemma EpilogFinished(x: Ctx, p: Gen, g: Gen)
    requires p.ret.None? && p.table == [] && p.locals == x.slots && Grown(p, g, 0) && x.final == Generator.Epilog(g)
    ensures Finished(x)
  {
    EpilogPlaced(p, g, x.final);
    if g.ret.Some? {
      EpilogReturn(x, p, g);
    }
  }

  lemma BodyAt(x: Ctx, body: Items, p: Gen, g: Gen)
    requires p == Generator.Prolog(x.slots, Generator.Start(x.slots)) && Generator.EmitItems(body, p) == Generator.Ok(g)
    requires x.final == Generator.Epilog(g)
    ensures Finished(x) && At(x, p, g) && p.table == [] && p.breaks == [] && p.continues == []
    ensures x.final.table == g.table
    ensures g.ir + [LoadUndefined, ReturnIr] <= x.final.ir
  {
    hide Grown, Placed, Finished, Generator.EmitItems, Generator.Epilog;
    PrologFacts(x.slots, x.slots);
    ItemsGrown(body, p, 0);
    EpilogPlaced(p, g, x.final);
    EpilogFinished(x, p, g);
  }

  // ---- Entry and end ----

  /** The frame after `k` variables have been set. */
  ghost function Begun(x: Ctx, k: nat, w: World): Config {
    Initial(Build(x.final), w).(ip := 2 * k)
  }

  /** The prolog sets the variables to undefined, which the locals already are. */
  lemma {:induction false} SimProlog(x: Ctx, k: nat, w: World)
    requires k <= x.slots <= x.final.locals && Generator.Prolog(k, Generator.Start(x.slots)).ir <= x.final.ir
    ensures Arrives(x, Initial(Build(x.final), w), 2 * k, Begun(x, k, w))
  {
    hide Run, CallStmt, Build;
    var c0 := Initial(Build(x.final), w);
    if k == 0 {
      ArrivesNow(x, c0);
    } else {
      SimProlog(x, k - 1, w);
      PrologFacts(k - 1, x.slots);
      UndefinedLocals(x, w);
      var c1 := Begun(x, k - 1, w);
      assert InSlot(c0, k - 1, Undefined);
      SimClear(x, Generator.Prolog(k - 1, Generator.Start(x.slots)), k - 1, c1, Begun(x, k, w));
      ArrivesTrans(x, c0, 2 * (k - 1), c1, 2, Begun(x, k, w));
    }
  }

  lemma UndefinedLocals(x: Ctx, w: World)
    ensures var c := Initial(Build(x.final), w);
      |c.locals| == x.final.locals && (forall k: nat {:trigger InSlot(c, k, Undefined)} :: k < |c.locals| ==> InSlot(c, k, Undefined)) && c.stack == []
  {
  }

  lemma SimClear(x: Ctx, p: Gen, slot: nat, c: Config, d: Config)
    requires p.Emit(LoadUndefined).Emit(StoreLocal(slot)).ir <= x.final.ir && c.ip == |p.ir|
    requires InSlot(c, slot, Undefined)
    requires d.ip == c.ip + 2 && d == c.(ip := d.ip)
    ensures Arrives(x, c, 2, d)
  {
    hide Run, CallStmt;
    var q := p.Emit(LoadUndefined);
    PushStep(x, p, LoadUndefined, q.Emit(StoreLocal(slot)), c, Undefined) by { PushesUndefined(x, c); }
    var c1 := c.Push(Undefined);
    StoreStep(x, q, slot, q.Emit(StoreLocal(slot)), c1, c.stack, Undefined);
    var c2 := c1.(ip := c1.ip + 1, stack := c.stack, locals := c1.locals[slot := Undefined]);
    ArrivesTrans(x, c, 1, c1, 1, c2);
    assert c2 == d;
  }

  lemma FallOff(x: Ctx, g: Gen, c: Config, st: Store)
    requires g.ir + [LoadUndefined, ReturnIr] <= x.final.ir
    requires c.ip == |g.ir| && Match(x, st, c)
    ensures Finishes(x, c, 2, Undefined, st)
  {
    hide Run, CallStmt;
    assert g.Emit(LoadUndefined).ir <= x.final.ir;
    PushStep(x, g, LoadUndefined, x.final, c, Undefined) by { PushesUndefined(x, c); }
    MatchPush(x, st, c, Undefined);
    AnswerNow(x, c.Push(Undefined), c.stack, Undefined, st);
    FinishesLater(x, c, 1, c.Push(Undefined), 1, Undefined, st);
  }

  lemma NothingCatches(x: Ctx, ip: nat)
    requires Finished(x) && Uncaught(x, 0, |x.final.table|, ip)
    ensures NoneCatches(x.final.table, ip)
  {
    forall y | y in x.final.table
      ensures !Catches(y, ip)
    {
      var k: nat :| k < |x.final.table| && x.final.table[k] == y;
    }
  }

  /** The outcome of the body decides how the call ends. */
  lemma BodyEndsCall(x: Ctx, p: Gen, g: Gen, c: Config, r: Done, fuel: nat, n: nat, d: Config) returns (n': nat)
    requires Ends(x, p, g, c, r, fuel, n, d) && Finished(x) && p.breaks == [] && p.continues == [] && p.table == []
    requires x.final.table == g.table && g.ir + [LoadUndefined, ReturnIr] <= x.final.ir
    ensures r.o.Timeout? ==> n' >= fuel && Run(Mach(x), c, n').Running?
    ensures !r.o.Timeout? ==> Agrees(x.slots, if r.o.Normal? then Done(Returned(Undefined), r.st) else r, Run(Mach(x), c, n'))
  {
    hide Run, CallStmt, Finished, Fails;
    n' := n;
    match r.o
    case Normal =>
      FallOff(x, g, d, r.st);
      FinishesLater(x, c, n, d, 2, Undefined, r.st);
      n' := n + 2;
    case Broke(name) =>
      assert false;
    case Continued(name) =>
      assert false;
    case Returned(v) =>
    case Raised(v) =>
      NothingCatches(x, d.ip);
      ThrowLeaves(x, [], d, v, r.st);
      RunOne(Mach(x), d);
      RunAdd(Mach(x), c, n, d, 1);
      n' := n + 1;
    case Timeout =>
  }

  // ---- The theorem ----

  /** The machine that runs the compiled function, after `n` steps. */
  ghost function After(ops: Ops, slots: nat, body: Items, w: World, n: nat): Status {
    var block := Generator.Compiled(slots, body);
    Run(Machine(ops, block), Initial(block, w), n)
  }

  /** Where the machine is after enough steps: it has ended the way the semantics with that much fuel says, or the
      fuel was too little and the machine is still running after as many steps. */
  lemma Simulates(ops: Ops, slots: nat, body: Items, w: World, fuel: nat) returns (n: nat)
    requires Generator.Compile(slots, body).Ok? && ItemsSlots(body, slots)
    ensures var s := After(ops, slots, body, w, n);
      var r := ExecFunction(ops, Engine, slots, body, w, fuel);
      if r.o.Timeout? then n >= fuel && s.Running? else Agrees(slots, r, s)
  {
    hide Run, CallStmt, Finished, At, Match, Ends, ExecAll, Agrees, Build, Generator.EmitItems, Generator.Epilog,
      Generator.Prolog;
    var p := Generator.Prolog(slots, Generator.Start(slots));
    var g := Generator.EmitItems(body, p).value;
    var x := Ctx(ops, slots, Generator.Epilog(g));
    var c := Initial(Build(x.final), w);
    var st := AtEntry(slots, w);
    BodyAt(x, body, p, g);
    ItemsGrown(body, p, 0);
    LabelsGrow(p, g, 0);
    var c1 := Begun(x, slots, w);
    EnterBody(x, p, g, w, c1);
    var n1, d := SimItems(x, body, p, st, c1, fuel);
    EndsPrefix(x, p, g, c, 2 * slots, c1, ExecAll(ops, Engine, body, st, fuel), fuel, fuel, n1, d);
    n := BodyEndsCall(x, p, g, c, ExecAll(ops, Engine, body, st, fuel), fuel, 2 * slots + n1, d);
  }

  lemma EnterBody(x: Ctx, p: Gen, g: Gen, w: World, c: Config)
    requires p == Generator.Prolog(x.slots, Generator.Start(x.slots)) && At(x, p, g)
    requires c == Begun(x, x.slots, w)
    requires p.ir <= g.ir && p.locals <= g.locals
    ensures Arrives(x, Initial(Build(x.final), w), 2 * x.slots, c)
    ensures Match(x, AtEntry(x.slots, w), c) && c.ip == |p.ir|
  {
    hide Run, CallStmt, Generator.Prolog;
    AtReach(x, p, g);
    PlacedCode(p, g, x.final);
    PrologFacts(x.slots, x.slots);
    SimProlog(x, x.slots, w);
    assert c.locals[..x.slots] == seq(x.slots, i => Undefined);
  }

  /** If both the structured execution and the machine come to an end, they end alike. */
  lemma CompilerPreserves(ops: Ops, slots: nat, body: Items, w: World, fuel: nat, n: nat)
    requires Generator.Compile(slots, body).Ok? && ItemsSlots(body, slots)
    requires !ExecFunction(ops, Engine, slots, body, w, fuel).o.Timeout?
    requires !After(ops, slots, body, w, n).Running?
    ensures Agrees(slots, ExecFunction(ops, Engine, slots, body, w, fuel), After(ops, slots, body, w, n))
  {
    hide Run, Step, ExecFunction, Generator.Compile;
    var block := Generator.Compiled(slots, body);
    var m, c := Machine(ops, block), Initial(block, w);
    var n' := Simulates(ops, slots, body, w, fuel);
    if n <= n' {
      RunLonger(m, c, n, n');
    } else {
      RunLonger(m, c, n', n);
    }
  }

  /** The machine comes to an end exactly if the structured execution does. */
  lemma TerminatesAlike(ops: Ops, slots: nat, body: Items, w: World)
    requires Generator.Compile(slots, body).Ok? && ItemsSlots(body, slots)
    ensures (exists fuel: nat :: !ExecFunction(ops, Engine, slots, body, w, fuel).o.Timeout?)
        <==> (exists n: nat :: !After(ops, slots, body, w, n).Running?)
  {
    hide Run, Step, ExecFunction, Generator.Compile;
    var block := Generator.Compiled(slots, body);
    var m, c := Machine(ops, block), Initial(block, w);
    if fuel: nat :| !ExecFunction(ops, Engine, slots, body, w, fuel).o.Timeout? {
      var n := Simulates(ops, slots, body, w, fuel);
      assert !After(ops, slots, body, w, n).Running?;
    }
    if n: nat :| !After(ops, slots, body, w, n).Running? {
      var n' := Simulates(ops, slots, body, w, n);
      if ExecFunction(ops, Engine, slots, body, w, n).o.Timeout? {
        RunShorter(m, c, n, n');
      }
    }
  }

  /** The machine never panics: no operand is missing, no local out of range, no instruction past the end and no
      Leave outside an exception block. */
  lemma NeverPanics(ops: Ops, slots: nat, body: Items, w: World, n: nat)
    requires Generator.Compile(slots, body).Ok? && ItemsSlots(body, slots)
    ensures !After(ops, slots, body, w, n).Panicked?
  {
    hide After, ExecFunction, Generator.Compile;
    if After(ops, slots, body, w, n).Panicked? {
      TerminatesAlike(ops, slots, body, w);
      var fuel: nat :| !ExecFunction(ops, Engine, slots, body, w, fuel).o.Timeout?;
      CompilerPreserves(ops, slots, body, w, fuel, n);
    }
  }
}
