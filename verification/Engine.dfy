/** Compiling a function and running it, against the meaning of its source. */
module Engine {
  import opened Ast
  import opened Semantics
  import Generator
  import Interpreter
  import CodeEmitter
  import CallFrame
  import Compilable
  import CompilerCorrect
  import Dialects
  import opened Wrappers

  /** Compiles a function body and runs it for at most `budget` instructions. It fails to compile exactly if a break
      or continue has no target or something else than a name is assigned to; a run that ends has ended as the
      source says, by the standard's rules if no unlabelled break sits in a labelled block. */
  method RunFunction(ops: Ops, slots: nat, body: Items, w: World,
          budget: nat) returns (r: Generator.Result<Interpreter.Status>)
    ensures r.Ok? <==> Compilable.AllTargeted(body, [], [])
    ensures r.Ok? && ItemsSlots(body, slots) && !r.value.Running? ==>
              exists fuel: nat :: CompilerCorrect.Agrees(slots, ExecFunction(ops, Dialect.Engine, slots, body, w, fuel), r.value)
    ensures r.Ok? && ItemsSlots(body, slots) && Dialects.AllClean(body, false) && !r.value.Running? ==>
              exists fuel: nat :: CompilerCorrect.Agrees(slots, ExecFunction(ops, Dialect.Standard, slots, body, w, fuel), r.value)
  {
    hide Compilable.AllTargeted, Interpreter.Run, Generator.Compile, ItemsSlots, Dialects.AllClean, ExecFunction,
      CompilerCorrect.Agrees;
    Compilable.FunctionCompiles(slots, body);
    var block := CodeEmitter.CompileFunction(slots, body);
    if block.Fatal? {
      return Generator.Fatal;
    }
    var frame := new CallFrame.Frame(ops, block.value, w);
    var status := frame.CallBlock(budget);
    r := Generator.Ok(status);
    if ItemsSlots(body, slots) && !status.Running? {
      Ended(ops, slots, body, w, budget);
    }
  }

  lemma Ended(ops: Ops, slots: nat, body: Items, w: World, n: nat)
    requires Generator.Compile(slots, body).Ok? && ItemsSlots(body, slots)
    requires !CompilerCorrect.After(ops, slots, body, w, n).Running?
    ensures var s := CompilerCorrect.After(ops, slots, body, w, n);
      && (exists fuel: nat :: CompilerCorrect.Agrees(slots, ExecFunction(ops, Dialect.Engine, slots, body, w, fuel), s))
      && (Dialects.AllClean(body, false) ==>
            exists fuel: nat :: CompilerCorrect.Agrees(slots, ExecFunction(ops, Dialect.Standard, slots, body, w, fuel), s))
  {
    hide CompilerCorrect.After, Generator.Compile, ItemsSlots, Dialects.AllClean, ExecFunction, CompilerCorrect.Agrees;
    var s := CompilerCorrect.After(ops, slots, body, w, n);
    CompilerCorrect.TerminatesAlike(ops, slots, body, w);
    var fuel: nat :| !ExecFunction(ops, Dialect.Engine, slots, body, w, fuel).o.Timeout?;
    CompilerCorrect.CompilerPreserves(ops, slots, body, w, fuel, n);
    assert CompilerCorrect.Agrees(slots, ExecFunction(ops, Dialect.Engine, slots, body, w, fuel), s);
    if Dialects.AllClean(body, false) {
      Dialects.EngineIsExplicit(ops, slots, body, w, fuel);
      assert CompilerCorrect.Agrees(slots, ExecFunction(ops, Dialect.Standard, slots, body, w, fuel), s);
    }
  }
}
