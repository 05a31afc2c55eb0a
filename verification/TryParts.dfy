/** Try statements: where body and handler lie, and that an error the body's own blocks do not catch goes to this
    handler and to no other. */
module TryParts {
  import opened Ast
  import opened Semantics
  import opened ExceptionTable
  import opened IrBuilder
  import Generator
  import opened GeneratorFacts
  import opened Interpreter
  import opened ExprCorrect
  import opened Pieces
  import opened ItemParts
  import opened Wrappers

  /** The body from `h` to `i`, the handler from `k` to `m`; `e` is the state before the block is closed. */
  ghost predicate TryLaidOut(s: Item, g: Gen, h: Gen, i: Gen, k: Gen, m: Gen, e: Gen, g': Gen) {
    && s.Try? && h == TryStart(g) && Generator.EmitItems(s.stmts, h) == Generator.Ok(i) && k == CatchStart(i, |g.labels|, s.catchSlot)
    && Generator.EmitItems(s.handler, k) == Generator.Ok(m) && e == m.Emit(Leave(|g.labels|))
    && g' == e.EndExceptionBlock().Mark(|g.labels|).Exit()
  }

  lemma TryStates(s: Item, g: Gen) returns (h: Gen, i: Gen, k: Gen, m: Gen, e: Gen)
    requires s.Try? && Generator.EmitItem(s, g).Ok?
    ensures TryLaidOut(s, g, h, i, k, m, e, Generator.After(Generator.EmitItem(s, g), g))
  {
    hide Generator.EmitItems;
    h := TryStart(g);
    i, m := TryBody(s, s.stmts, s.catchSlot, s.handler, |g.labels|, g);
    k := CatchStart(i, |g.labels|, s.catchSlot);
    e := m.Emit(Leave(|g.labels|));
  }

  /** The record the statement adds. */
  ghost function Own(g: Gen, i: Gen, e: Gen): TryCatch {
    TryCatch(IrRange(|g.ir|, |i.ir| + 1), Some(IrRange(|i.ir| + 1, |e.ir|)), None)
  }

  /** The states in order, and what the last steps add. */
  ghost predicate TryShape(g: Gen, h: Gen, i: Gen, k: Gen, m: Gen, e: Gen, g': Gen) {
    && h.ir == g.ir && h.table == g.table && h.locals == g.locals && |h.labels| == |g.labels| + 1 && h.ret == g.ret
    && h.depth == k.depth == g.depth + 1 && h.breaks == k.breaks == g.breaks && h.continues == k.continues == g.continues
    && Grown(h, i, 0) && Grown(i, k, 0) && Grown(k, m, 0) && Grown(m, e, 0) && k.table == i.table && e.table == m.table
    && |k.ir| == |i.ir| + 3 && |e.ir| == |m.ir| + 1 && g'.table == e.table + [Own(g, i, e)]
    && g'.ir == e.ir && g'.locals == e.locals && g'.ret == e.ret && |g'.labels| == |e.labels|
    && LabelAt(g'.labels, |g.labels|) == |e.ir|
    && (forall l: nat {:trigger g'.labels[l]} :: |h.labels| <= l < |e.labels| ==> g'.labels[l] == e.labels[l])
    && g'.depth == g.depth
  }

  lemma TryShapes(s: Item, after: nat, slot: nat, g: Gen, h: Gen, i: Gen, k: Gen, m: Gen, e: Gen, g': Gen)
    requires TryLaidOut(s, g, h, i, k, m, e, g') && after == |g.labels| && slot == CatchSlotOf(s)
    ensures TryShape(g, h, i, k, m, e, g') && k.ir == i.ir + [Leave(after), LoadException, StoreLocal(slot)]
  {
    hide Grown, TryStart, CatchStart, Generator.EmitItems;
    TryStartGrown(g);
    ItemsGrown(s.stmts, h, 0);
    TryStartSame(g);
    GrownTrans(g, h, i, 0);
    CatchStartGrown(g, i, |g.labels|, s.catchSlot);
    CatchGrown(i, |g.labels|, s.catchSlot);
    ItemsGrown(s.handler, k, 0);
    EmitsGrown(m, Leave(|g.labels|), 0);
    LabelsGrow(h, i, 0);
    LabelsGrow(k, m, 0);
    LabelsGrow(i, k, 0);
    var top := |e.open| - 1;
    assert e.open == g.open + [TryCatch(IrRange(|g.ir|, |i.ir| + 1), Some(IrRange(|i.ir| + 1, 0)), None)];
    assert e.open[top] == TryCatch(IrRange(|g.ir|, |i.ir| + 1), Some(IrRange(|i.ir| + 1, 0)), None);
  }

  lemma TryStartSame(g: Gen)
    ensures TryStart(g).table == g.table && TryStart(g).locals == g.locals && TryStart(g).ret == g.ret
  {
  }

  lemma CatchGrown(i: Gen, after: nat, slot: nat)
    ensures Grown(i, CatchStart(i, after, slot), 0)
  {
    hide Grown;
    GrownSelf(i);
    GrownEmit(i, i, Leave(after));
    GrownPops(i, i.Emit(Leave(after)));
    GrownEmit(i, i.Emit(Leave(after)).StartCatch(), LoadException);
    GrownEmit(i, i.Emit(Leave(after)).StartCatch().Emit(LoadException), StoreLocal(slot));
  }

  lemma TryOrder(g: Gen, h: Gen, i: Gen, k: Gen, m: Gen, e: Gen, g': Gen)
    requires TryShape(g, h, i, k, m, e, g')
    ensures |h.labels| <= |i.labels| <= |k.labels| <= |m.labels| <= |e.labels|
    ensures |h.ir| <= |i.ir| < |k.ir| <= |m.ir| < |e.ir|
    ensures i.locals <= k.locals <= m.locals <= e.locals && g.locals <= i.locals && i.ir <= k.ir <= m.ir <= e.ir
    ensures h.table <= i.table <= m.table && |g'.table| == |m.table| + 1
  {
  }

  lemma InnerPlaced(g: Gen, h: Gen, i: Gen, k: Gen, m: Gen, e: Gen, g': Gen, f: Gen)
    requires TryShape(g, h, i, k, m, e, g') && Placed(g, g', f)
    ensures Placed(h, e, f)
  {
  }

  lemma PartsPlaced(g: Gen, h: Gen, i: Gen, k: Gen, m: Gen, e: Gen, g': Gen, f: Gen)
    requires TryShape(g, h, i, k, m, e, g') && Placed(g, g', f)
    ensures Placed(h, i, f) && Placed(k, m, f)
  {
    hide Grown, Placed;
    InnerPlaced(g, h, i, k, m, e, g', f);
    TryOrder(g, h, i, k, m, e, g');
    SameGrown(h, 0);
    GrownTrans(i, k, m, 0);
    GrownTrans(i, m, e, 0);
    GrownTrans(h, i, k, 0);
    WithinFrom(h, h, i, e, 0);
    WithinFrom(h, k, m, e, 0);
    WithinPlaced(h, h, i, e, 0, f);
    WithinPlaced(h, k, m, e, 0, f);
  }

  lemma BodySheltered(g: Gen, h: Gen, i: Gen, k: Gen, m: Gen, e: Gen, g': Gen, f: Gen)
    requires TryShape(g, h, i, k, m, e, g') && g'.table <= f.table && Sheltered(f, |g'.table|, |g.ir|, |g'.ir|)
    ensures Sheltered(f, |i.table|, |g.ir|, |i.ir|)
  {
    TryOrder(g, h, i, k, m, e, g');
    forall j: nat {:trigger f.table[j]} | |i.table| <= j < |f.table|
      ensures Apart(f.table[j].body, |g.ir|, |i.ir|)
    {
      if j < |m.table| {
        assert f.table[j] == g'.table[j] == m.table[j];
      } else if j == |m.table| {
        assert f.table[j] == g'.table[j] == Own(g, i, e);
      }
    }
  }

  lemma HandlerSheltered(g: Gen, h: Gen, i: Gen, k: Gen, m: Gen, e: Gen, g': Gen, f: Gen)
    requires TryShape(g, h, i, k, m, e, g') && g'.table <= f.table && Sheltered(f, |g'.table|, |g.ir|, |g'.ir|)
    ensures Sheltered(f, |m.table|, |k.ir|, |m.ir|)
  {
    TryOrder(g, h, i, k, m, e, g');
    forall j: nat {:trigger f.table[j]} | |m.table| <= j < |f.table|
      ensures Apart(f.table[j].body, |k.ir|, |m.ir|)
    {
      if j == |m.table| {
        assert f.table[j] == g'.table[j] == Own(g, i, e);
      }
    }
  }

  lemma OwnCovers(g: Gen, h: Gen, i: Gen, k: Gen, m: Gen, e: Gen, g': Gen, f: Gen, lo: nat, hi: nat)
    requires TryShape(g, h, i, k, m, e, g') && g'.table <= f.table
    requires (|g.ir| <= lo && hi <= |i.ir| + 1) || (|i.ir| + 1 <= lo && hi <= |e.ir|)
    ensures Covered(f, lo, hi)
  {
    assert f.table[|m.table|] == g'.table[|m.table|] == Own(g, i, e);
    assert Holds(f.table[|m.table|], lo, hi);
  }

  lemma TablesBefore(g: Gen, h: Gen, i: Gen, k: Gen, m: Gen, e: Gen, g': Gen)
    requires TryShape(g, h, i, k, m, e, g') && TableBefore(g)
    ensures TableBefore(h) && TableBefore(i) && TableBefore(k)
  {
    forall j: nat {:trigger i.table[j]} | j < |i.table|
      ensures i.table[j].body.end <= |i.ir|
    {
      if j < |h.table| {
        assert i.table[j] == h.table[j] == g.table[j];
      }
    }
  }

  lemma TryInPlace(x: Ctx, g: Gen, h: Gen, i: Gen, k: Gen, m: Gen, e: Gen, g': Gen)
    requires TryShape(g, h, i, k, m, e, g') && At(x, g, g')
    ensures At(x, h, i) && At(x, k, m)
    ensures Covered(x.final, |i.ir|, |i.ir| + 1) && Covered(x.final, |m.ir|, |m.ir| + 1)
    ensures LabelAt(x.final.labels, |g.labels|) == |g'.ir| == |e.ir|
  {
    hide Grown, Placed, TableBefore, Sheltered, Covered;
    TryOrder(g, h, i, k, m, e, g');
    PartsPlaced(g, h, i, k, m, e, g', x.final);
    TablesBefore(g, h, i, k, m, e, g');
    BodySheltered(g, h, i, k, m, e, g', x.final);
    HandlerSheltered(g, h, i, k, m, e, g', x.final);
    OwnCovers(g, h, i, k, m, e, g', x.final, |h.ir|, |i.ir|);
    OwnCovers(g, h, i, k, m, e, g', x.final, |k.ir|, |m.ir|);
    OwnCovers(g, h, i, k, m, e, g', x.final, |i.ir|, |i.ir| + 1);
    OwnCovers(g, h, i, k, m, e, g', x.final, |m.ir|, |m.ir| + 1);
    AfterLabel(g, h, i, k, m, e, g', x.final);
  }

  lemma AfterLabel(g: Gen, h: Gen, i: Gen, k: Gen, m: Gen, e: Gen, g': Gen, f: Gen)
    requires TryShape(g, h, i, k, m, e, g') && Placed(g, g', f)
    ensures LabelAt(f.labels, |g.labels|) == |e.ir|
  {
    assert KeepsReturn(h, e) by {
      hide Grown;
      GrownTrans(h, i, k, 0);
      GrownTrans(h, k, m, 0);
      GrownTrans(h, m, e, 0);
      ReturnKept(h, e);
    }
  }

  lemma ReturnKept(a: Gen, b: Gen)
    requires Grown(a, b, 0)
    ensures KeepsReturn(a, b)
  {
  }

  /** An error in the body that no block inside catches: this handler is the best match. */
  lemma OwnIsBest(x: Ctx, g: Gen, h: Gen, i: Gen, k: Gen, m: Gen, e: Gen, g': Gen, ip: nat)
    requires TryShape(g, h, i, k, m, e, g') && Finished(x) && TableBefore(g) && g'.table <= x.final.table
    requires Sheltered(x.final, |g'.table|, |g.ir|, |g'.ir|)
    requires Uncaught(x, |h.table|, |i.table|, ip) && |h.ir| <= ip < |i.ir|
    ensures IsBest(x.final.table, ip, Own(g, i, e)) && Entry(Own(g, i, e), ip) == |i.ir| + 1
  {
    var own := Own(g, i, e);
    TryOrder(g, h, i, k, m, e, g');
    assert x.final.table[|m.table|] == g'.table[|m.table|] == own;
    forall y | y in x.final.table && Catches(y, ip)
      ensures y == own || Before(own, y)
    {
      var j: nat :| j < |x.final.table| && x.final.table[j] == y;
      OthersBehind(x, g, h, i, k, m, e, g', ip, j);
    }
  }

  lemma OthersBehind(x: Ctx, g: Gen, h: Gen, i: Gen, k: Gen, m: Gen, e: Gen, g': Gen, ip: nat, j: nat)
    requires TryShape(g, h, i, k, m, e, g') && Finished(x) && TableBefore(g) && g'.table <= x.final.table
    requires Sheltered(x.final, |g'.table|, |g.ir|, |g'.ir|)
    requires Uncaught(x, |h.table|, |i.table|, ip) && |h.ir| <= ip < |i.ir|
    requires j < |x.final.table| && Catches(x.final.table[j], ip)
    ensures x.final.table[j] == Own(g, i, e) || Before(Own(g, i, e), x.final.table[j])
  {
    TryOrder(g, h, i, k, m, e, g');
    if j < |m.table| {
      EarlierMiss(x, g, h, i, k, m, e, g', ip, j);
    } else if j == |m.table| {
      assert x.final.table[j] == g'.table[j];
    } else {
      assert Apart(x.final.table[j].body, |g.ir|, |g'.ir|);
    }
  }

  /** Blocks recorded earlier do not have the instruction in their body. */
  lemma EarlierMiss(x: Ctx, g: Gen, h: Gen, i: Gen, k: Gen, m: Gen, e: Gen, g': Gen, ip: nat, j: nat)
    requires TryShape(g, h, i, k, m, e, g') && Finished(x) && TableBefore(g) && g'.table <= x.final.table
    requires Uncaught(x, |h.table|, |i.table|, ip) && |h.ir| <= ip < |i.ir| && j < |m.table| <= |x.final.table|
    ensures !Catches(x.final.table[j], ip)
  {
    TryOrder(g, h, i, k, m, e, g');
    assert x.final.table[j] == g'.table[j] == m.table[j];
    if j < |g.table| {
      assert m.table[j] == i.table[j] == g.table[j];
    }
  }

  /** An error in the handler that no block inside it catches is not caught by the statement. */
  lemma HandlerUncaught(x: Ctx, g: Gen, h: Gen, i: Gen, k: Gen, m: Gen, e: Gen, g': Gen, ip: nat)
    requires TryShape(g, h, i, k, m, e, g') && TableBefore(g) && g'.table <= x.final.table
    requires Uncaught(x, |k.table|, |m.table|, ip) && |k.ir| <= ip < |m.ir|
    ensures Uncaught(x, |g.table|, |g'.table|, ip)
  {
    TryOrder(g, h, i, k, m, e, g');
    TablesBefore(g, h, i, k, m, e, g');
    forall j: nat {:trigger x.final.table[j]} | |g.table| <= j < |g'.table| && j < |x.final.table|
      ensures !x.final.table[j].body.Contains(ip)
    {
      assert x.final.table[j] == g'.table[j];
      if j < |i.table| {
        assert g'.table[j] == m.table[j] == i.table[j];
      } else if j >= |m.table| {
        assert g'.table[j] == Own(g, i, e);
      }
    }
  }

  /** The first instructions of the handler: the error becomes the value of the catch variable. */
  lemma EnterHandler(x: Ctx, g: Gen, i: Gen, k: Gen, m: Gen, after: nat, slot: nat, v: Val, st: Store,
          c: Config) returns (d: Config)
    requires k.ir == i.ir + [Leave(after), LoadException, StoreLocal(slot)] && k.ir <= m.ir <= x.final.ir
    requires slot < x.slots
    requires c.ip == |i.ir| + 1 && c.thrown == Some(v) && Match(x, st, c)
    ensures Reaches(x, c, 2, d, |k.ir|, Write(st, slot, v))
  {
    hide Run, CallStmt;
    var j := i.Emit(Leave(after));
    var c1 := c.Push(v).(thrown := None);
    assert j.Emit(LoadException).ir <= k.ir && j.Emit(LoadException).Emit(StoreLocal(slot)).ir <= k.ir;
    CodeAt(j, LoadException, m, x.final);
    LoadsException(x.ops, c, v);
    ArrivesStep(x, c, LoadException, c1);
    assert c1.stack == c.stack + [v];
    StoreStep(x, j.Emit(LoadException), slot, m, c1, c.stack, v);
    d := c1.(ip := c1.ip + 1, stack := c.stack, locals := c1.locals[slot := v]);
    ArrivesTrans(x, c, 1, c1, 1, d);
    assert d.locals[..x.slots] == c.locals[..x.slots][slot := v];
  }

  lemma LoadsException(ops: Ops, c: Config, v: Val)
    requires c.thrown == Some(v)
    ensures CallStmt(ops, LoadException, c) == Advance(c.Push(v).(thrown := None))
  {
  }

  /** Neither finished normally nor with an error: the body's outcome is the statement's. */
  lemma EscapeEnds(x: Ctx, g: Gen, a: Gen, b: Gen, g': Gen, c: Config, i: nat, c1: Config, r: Done, fuel: nat, n: nat,
          d: Config)
    requires Arrives(x, c, i, c1) && Ends(x, a, b, c1, r, fuel, n, d) && !r.o.Normal? && !r.o.Raised?
    requires a.breaks == g.breaks && a.continues == g.continues
    ensures Ends(x, g, g', c, r, fuel, i + n, d)
  {
    hide Run, Match, Generator.GetTarget;
    match r.o
    case Broke(name) => ReachesLater(x, c, i, c1, n, d, LabelAt(x.final.labels, Generator.GetTarget(a.breaks, name).value.at), r.st);
    case Continued(name) => ReachesLater(x, c, i, c1, n, d, LabelAt(x.final.labels, Generator.GetTarget(a.continues, name).value.at), r.st);
    case Returned(v) => FinishesLater(x, c, i, c1, n, v, r.st);
    case Timeout => ArrivesTrans(x, c, i, c1, n, d);
  }
}
