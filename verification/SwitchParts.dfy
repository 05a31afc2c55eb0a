/** Switch statements: where the clauses' code lies, and that the tests select the clause the standard selects. */
module SwitchParts {
  import opened Ast
  import opened Semantics
  import opened ExceptionTable
  import opened IrBuilder
  import Generator
  import opened GeneratorFacts
  import opened Interpreter
  import opened ExprCorrect
  import opened Pieces
  import opened ItemParts
  import opened Wrappers

  // ---- The labels of the clauses ----

  /** Labels made one after another, all of them fresh at `lo` and known at `hi`. */
  ghost predicate Increasing(ts: seq<nat>, lo: int, hi: int) {
    && (forall i: nat {:trigger ts[i]} :: i < |ts| ==> lo <= ts[i] < hi)
    && (forall i: nat, j: nat {:trigger ts[i], ts[j]} :: i < j < |ts| ==> ts[i] < ts[j])
  }

  ghost function ClauseLabel(ts: seq<nat>, k: int): nat {
    if 0 <= k < |ts| then ts[k] else 0
  }

  ghost function Others(ts: seq<nat>): seq<nat> {
    if ts == [] then [] else ts[1..]
  }

  lemma IncreasingEmpty(lo: nat, hi: nat)
    ensures Increasing([], lo, hi)
  {
  }

  lemma IncreasingCons(t: nat, ts: seq<nat>, lo: nat, lo': nat, hi: nat)
    requires Increasing(ts, lo', hi) && lo <= t < lo' <= hi
    ensures Increasing([t] + ts, lo, hi)
  {
  }

  lemma IncreasingTail(ts: seq<nat>, lo: nat, hi: nat)
    requires Increasing(ts, lo, hi) && ts != []
    ensures Increasing(Others(ts), lo, hi) && lo <= ClauseLabel(ts, 0) < hi && ClauseLabel(ts, 0) !in Others(ts)
  {
  }

  lemma {:induction false} GuardTargets(cs: Clauses, slot: nat, dl: Option<nat>, g: Gen)
    requires Generator.EmitGuards(cs, slot, dl, g).Ok?
    ensures Increasing(GuardLabels(cs, slot, dl, g), |g.labels|, |GuardsEnd(cs, slot, dl, g).labels|)
    ensures |GuardLabels(cs, slot, dl, g)| == Count(cs)
    decreases cs
  {
    hide Increasing, OnlyCode, Generator.EmitExprs;
    match cs
    case NoClauses => IncreasingEmpty(|g.labels|, |g.labels|);
    case Case(guard, _, rest) =>
      var g1 := Generator.EmitExprs(guard, true, g.NewLabel().Emit(LoadLocal(slot))).value;
      var g2 := g1.Emit(JumpStrictEq(|g.labels|));
      EmitExprsGrown(guard, true, g.NewLabel().Emit(LoadLocal(slot)));
      LabelCount(g.NewLabel().Emit(LoadLocal(slot)), g1);
      GuardTargets(rest, slot, dl, g2);
      EmitGuardsGrown(rest, slot, dl, g2);
      var (g3, ts, d) := Generator.EmitGuards(rest, slot, dl, g2).value;
      LabelCount(g2, g3);
      IncreasingCons(|g.labels|, ts, |g.labels|, |g2.labels|, |g3.labels|);
    case Default(_, rest) =>
      GuardTargets(rest, slot, Some(|g.labels|), g.NewLabel());
      EmitGuardsGrown(rest, slot, Some(|g.labels|), g.NewLabel());
      var (g3, ts, d) := Generator.EmitGuards(rest, slot, Some(|g.labels|), g.NewLabel()).value;
      LabelCount(g.NewLabel(), g3);
      IncreasingCons(|g.labels|, ts, |g.labels|, |g.labels| + 1, |g3.labels|);
  }

  /** None of the labels is between `lo` and `hi`. */
  ghost predicate Beside(ts: seq<nat>, lo: int, hi: int) {
    forall i: nat {:trigger ts[i]} :: i < |ts| ==> ts[i] < lo || ts[i] >= hi
  }

  /** Emitting the clauses marks no label that is older than `a` and from `lo` on. */
  lemma {:induction false} ClausesGrown(cs: Clauses, ts: seq<nat>, a: Gen, g: Gen, lo: nat)
    requires Generator.EmitClauses(cs, ts, g).Ok? && Grown(a, g, lo) && Beside(ts, lo, |a.labels|)
    ensures Grown(a, Generator.After(Generator.EmitClauses(cs, ts, g), g), lo)
    decreases cs
  {
    hide Grown, Generator.EmitItems;
    if !cs.NoClauses? {
      MarkBeside(a, g, ts[0], lo);
      var g1 := Generator.EmitItems(cs.stmts, g.Mark(ts[0])).value;
      ItemsGrown(cs.stmts, g.Mark(ts[0]), lo);
      GrownTrans(a, g.Mark(ts[0]), g1, lo);
      ClausesGrown(cs.rest, ts[1..], a, g1, lo);
    }
  }

  lemma MarkBeside(a: Gen, g: Gen, l: nat, lo: nat)
    requires Grown(a, g, lo) && (l < lo || l >= |a.labels|)
    ensures Grown(a, g.Mark(l), lo)
  {
  }

  /** A label that belongs to no clause keeps its value. */
  lemma {:induction false} ClausesHold(cs: Clauses, ts: seq<nat>, g: Gen, l: nat)
    requires Generator.EmitClauses(cs, ts, g).Ok? && l < |g.labels| && l !in ts
    ensures LabelAt(Generator.After(Generator.EmitClauses(cs, ts, g), g).labels, l) == LabelAt(g.labels, l)
    decreases cs
  {
    hide Grown, Generator.EmitItems;
    if !cs.NoClauses? {
      assert ts[0] in ts;
      var g1 := Generator.EmitItems(cs.stmts, g.Mark(ts[0])).value;
      ItemsGrown(cs.stmts, g.Mark(ts[0]), 0);
      LabelsGrow(g.Mark(ts[0]), g1, 0);
      HeldLabel(g.Mark(ts[0]), g1, l);
      ClausesHold(cs.rest, ts[1..], g1, l);
    }
  }

  // ---- The clauses ----

  /** The clauses `cs` with labels `ts` still to be emitted in state `cur`; `h` is the state after the tests and
      `g3` the one after the clauses. */
  ghost predicate ClausesPlace(g: Gen, g': Gen, h: Gen, g3: Gen, tag: Option<Label>, cs: Clauses, ts: seq<nat>,
          cur: Gen) {
    && Generator.EmitClauses(cs, ts, cur) == Generator.Ok(g3) && g' == g3.Mark(|g.labels|).PopBreak() && |ts| == Count(cs)
    && Grown(g, cur, |h.labels|) && Grown(h, g', |h.labels|) && |g.labels| < |h.labels| <= |cur.labels| && h.ret == g.ret
    && cur.depth == g.depth && cur.breaks == g.breaks + [NamedLabel(tag, |g.labels|, g.depth)] && cur.continues == g.continues
    && Increasing(ts, |g.labels| + 1, |h.labels|)
  }

  lemma ClausesEnd(g: Gen, g': Gen, h: Gen, g3: Gen, tag: Option<Label>, cs: Clauses, ts: seq<nat>, cur: Gen)
    requires ClausesPlace(g, g', h, g3, tag, cs, ts, cur)
    ensures Grown(cur, g', |h.labels|) && Grown(cur, g3, |h.labels|) && g'.ir == g3.ir
  {
    hide Grown, Generator.EmitClauses;
    var lo := |h.labels|;
    SameGrown(cur, lo);
    assert Beside(ts, lo, |cur.labels|);
    ClausesGrown(cs, ts, cur, cur, lo);
    MarkBeside(cur, g3, |g.labels|, lo);
    PopsGrown(g3.Mark(|g.labels|), lo);
    GrownTrans(cur, g3.Mark(|g.labels|), g', lo);
  }

  lemma BreakAt(x: Ctx, g: Gen, g': Gen, h: Gen, g3: Gen, tag: Option<Label>, cs: Clauses, ts: seq<nat>, cur: Gen)
    requires ClausesPlace(g, g', h, g3, tag, cs, ts, cur) && Placed(g, g', x.final)
    ensures LabelAt(x.final.labels, |g.labels|) == |g'.ir| == |g3.ir|
  {
    hide Grown, Generator.EmitClauses, Placed, Increasing;
    ClausesEnd(g, g', h, g3, tag, cs, ts, cur);
    LabelsGrow(cur, g3, |h.labels|);
    FinalAt(g, h, |g.labels|, g', x.final);
  }

  /** The statements of the first clause that is left. */
  lemma ClauseParts(x: Ctx, g: Gen, g': Gen, h: Gen, g3: Gen, tag: Option<Label>, cs: Clauses, ts: seq<nat>,
          cur: Gen) returns (a: Gen, b: Gen)
    requires ClausesPlace(g, g', h, g3, tag, cs, ts, cur) && At(x, g, g') && !cs.NoClauses?
    ensures Generator.EmitItems(StmtsOf(cs), a) == Generator.Ok(b)
    ensures At(x, a, b) && Within(g, a, b, g', |h.labels|)
    ensures LabelAt(x.final.labels, ClauseLabel(ts, 0)) == |cur.ir| == |a.ir|
    ensures a.breaks == cur.breaks && a.continues == cur.continues
    ensures ClausesPlace(g, g', h, g3, tag, RestOf(cs), Others(ts), b)
  {
    hide Grown, Generator.EmitItems, Placed, TableBefore, Sheltered, Covered, Targets, Within, Increasing;
    var lo := |h.labels|;
    a := cur.Mark(ts[0]);
    b := Generator.EmitItems(cs.stmts, a).value;
    IncreasingTail(ts, |g.labels| + 1, lo);
    MarkGrown(cur, ts[0], lo);
    GrownTrans(g, cur, a, lo);
    ItemsGrown(cs.stmts, a, lo);
    ItemsGrown(cs.stmts, a, 0);
    GrownTrans(g, a, b, lo);
    LabelsGrow(a, b, lo);
    assert ClausesPlace(g, g', h, g3, tag, cs.rest, ts[1..], b);
    ClausesEnd(g, g', h, g3, tag, cs.rest, ts[1..], b);
    WithinFrom(g, a, b, g', lo);
    TargetsKept(g, a);
    Piece(x, g, a, b, g', lo);
    HeldLabel(a, b, ts[0]);
    ClausesHold(cs.rest, ts[1..], b, ts[0]);
    FinalAt(g, h, ts[0], g', x.final);
  }

  // ---- The tests ----

  /** The first `k` labels are older than `hi`. */
  ghost predicate Below(all: seq<nat>, k: int, hi: int) {
    forall j: nat {:trigger all[j]} :: j < k && j < |all| ==> all[j] < hi
  }

  /** The tests of `cs`, the clauses from the k-th on, still to be emitted in state `a`; `g2` is the state after
      the tests. */
  ghost predicate GuardsPlace(g: Gen, g': Gen, clauses: Clauses, all: seq<nat>, k: int, cs: Clauses, slot: nat,
          dl: Option<nat>,
                              a: Gen, g2: Gen, jump: nat, g3: Gen, d: Option<nat>) {
    && 0 <= k <= |all| && Generator.EmitGuards(cs, slot, dl, a) == Generator.Ok((g2, all[k..], d)) && jump == (if d.Some? then d.value else |g.labels|)
    && Generator.EmitClauses(clauses, all, g2.Emit(Jump(jump))) == Generator.Ok(g3) && g' == g3.Mark(|g.labels|).PopBreak()
    && Below(all, k, |a.labels|) && Grown(g, a, 0) && |g.labels| < |a.labels| && slot < a.locals
    && |all| == k + Count(cs)
  }

  /** One test: the value is loaded, the guard evaluated from `p` to `b`, and the two compared. */
  lemma GuardParts(x: Ctx, g: Gen, g': Gen, clauses: Clauses, all: seq<nat>, k: nat, cs: Clauses, guard: Exprs,
          ss: Items, slot: nat, dl: Option<nat>,
                   a: Gen, g2: Gen, jump: nat, g3: Gen, d: Option<nat>) returns (p: Gen, b: Gen, next: Gen)
    requires GuardsPlace(g, g', clauses, all, k, Case(guard, ss, cs), slot, dl, a, g2, jump, g3, d) && At(x, g, g')
    ensures p == a.NewLabel().Emit(LoadLocal(slot)) && Generator.EmitExprs(guard, true, p) == Generator.Ok(b)
    ensures k < |all| && ClauseLabel(all, k) == |a.labels| && next == b.Emit(JumpStrictEq(ClauseLabel(all, k)))
    ensures GuardsPlace(g, g', clauses, all, k + 1, cs, slot, dl, next, g2, jump, g3, d)
    ensures OnlyCode(p, b) && Within(g, p, b, g', |p.labels|) && Placed(p, b, x.final) && next.ir <= x.final.ir
    ensures a.locals == p.locals
    ensures x.slots <= p.locals
  {
    hide Grown, OnlyCode, Placed, TableBefore, Sheltered, Covered, Targets, Within, Generator.EmitExprs,
      Generator.EmitClauses;
    p := a.NewLabel().Emit(LoadLocal(slot));
    b := Generator.EmitExprs(guard, true, p).value;
    next := b.Emit(JumpStrictEq(|a.labels|));
    var (g2', ts, d') := Generator.EmitGuards(cs, slot, dl, next).value;
    assert all[k..] == [|a.labels|] + ts;
    assert all[k + 1..] == all[k..][1..] == ts;
    GuardChain(g, a, p, b, next, guard, slot);
    assert GuardsPlace(g, g', clauses, all, k + 1, cs, slot, dl, next, g2, jump, g3, d);
    GuardEnd(g, g', clauses, all, k + 1, cs, slot, dl, next, g2, jump, g3, d, b, |a.labels|, |p.labels|);
    OnlyIsGrown(p, b, |p.labels|);
    GrownFrom(g, p, 0, |p.labels|);
    WithinFrom(g, p, b, g', |p.labels|);
    WithinPlaced(g, p, b, g', |p.labels|, x.final);
  }

  lemma GuardChain(g: Gen, a: Gen, p: Gen, b: Gen, next: Gen, guard: Exprs, slot: nat)
    requires Grown(g, a, 0) && p == a.NewLabel().Emit(LoadLocal(slot))
    requires Generator.EmitExprs(guard, true, p) == Generator.Ok(b)
    requires next == b.Emit(JumpStrictEq(|a.labels|))
    ensures Grown(g, p, 0) && Grown(g, next, 0) && OnlyCode(p, b)
    ensures |a.labels| < |p.labels| <= |b.labels| == |next.labels| && a.locals <= next.locals
  {
    hide Grown, OnlyCode;
    GrownLabel(g, a);
    GrownEmit(g, a.NewLabel(), LoadLocal(slot));
    EmitExprsGrown(guard, true, p);
    GrownCode(g, p, b);
    GrownEmit(g, b, JumpStrictEq(|a.labels|));
    LabelCount(p, b);
  }

  /** From within the tests to the end of the statement: the labels marked meanwhile are those of the break, of
      clauses gone by and of clauses to come. */
  lemma GuardEnd(g: Gen, g': Gen, clauses: Clauses, all: seq<nat>, k: nat, cs: Clauses, slot: nat, dl: Option<nat>,
                 a: Gen, g2: Gen, jump: nat, g3: Gen, d: Option<nat>, b: Gen, l: nat, lo: nat)
    requires GuardsPlace(g, g', clauses, all, k, cs, slot, dl, a, g2, jump, g3, d)
    requires a == b.Emit(JumpStrictEq(l))
    requires k > 0 && |g.labels| < lo <= |a.labels| && Below(all, k, lo)
    ensures Grown(b, g', lo) && a.ir <= g'.ir
  {
    hide Grown, OnlyCode, Generator.EmitGuards, Generator.EmitClauses, Increasing;
    var h := g2.Emit(Jump(jump));
    GuardTargets(cs, slot, dl, a);
    EmitGuardsGrown(cs, slot, dl, a);
    LabelCount(a, g2);
    EmitsGrown(g2, Jump(jump), lo);
    OnlyIsGrown(a, g2, lo);
    GrownTrans(a, g2, h, lo);
    forall i: nat {:trigger all[i]} | i < |all|
      ensures all[i] < lo || all[i] >= |a.labels|
    {
      if i >= k {
        TargetFresh(all, k, |a.labels|, |g2.labels|, i);
      }
    }
    ClausesGrown(clauses, all, a, h, lo);
    MarkBeside(a, g3, |g.labels|, lo);
    PopsGrown(g3.Mark(|g.labels|), lo);
    GrownTrans(a, g3.Mark(|g.labels|), g', lo);
    EmitsGrown(b, JumpStrictEq(l), lo);
    GrownTrans(b, a, g', lo);
    LabelsGrow(a, g', lo);
  }

  lemma TargetFresh(all: seq<nat>, k: nat, lo: nat, hi: nat, i: nat)
    requires k <= i < |all| && Increasing(all[k..], lo, hi)
    ensures all[i] >= lo
  {
    assert all[k..][i - k] == all[i];
  }

  /** What a switch does once the value is in its slot: it reaches the selected clause, or the end. */
  ghost predicate Selects(x: Ctx, g: Gen, g': Gen, all: seq<nat>, c: Config, r: Selection, fuel: int, n: int,
          d: Config) {
    match r
    case NoClause(st) => Reaches(x, c, n, d, LabelAt(x.final.labels, |g.labels|), st)
    case Chosen(j, st) => j < |all| && Reaches(x, c, n, d, LabelAt(x.final.labels, all[j]), st)
    case SelectThrew(v, st) => Ends(x, g, g', c, Done(Raised(v), st), fuel, n, d)
  }

  ghost predicate DefaultIs(all: seq<nat>, k: nat, default: Option<nat>, dl: Option<nat>) {
    (default.Some? <==> dl.Some?) && (default.Some? ==> default.value < k <= |all| && all[default.value] == dl.value)
  }

  lemma SelectsLater(x: Ctx, g: Gen, g': Gen, all: seq<nat>, c: Config, i: nat, c1: Config, r: Selection, fuel: nat,
          n: nat, d: Config)
    requires At(x, g, g') && Arrives(x, c, i, c1) && Selects(x, g, g', all, c1, r, fuel, n, d)
    ensures Selects(x, g, g', all, c, r, fuel, i + n, d)
  {
    hide Arrives, Match, ThrowsIn, Uncaught, At;
    match r
    case NoClause(st) => ReachesLater(x, c, i, c1, n, d, LabelAt(x.final.labels, |g.labels|), st);
    case Chosen(j, st) => ReachesLater(x, c, i, c1, n, d, LabelAt(x.final.labels, all[j]), st);
    case SelectThrew(v, st) =>
      ThrowsLater(x, |g.ir|, |g'.ir|, [], c, i, c1, |g.ir|, |g'.ir|, [], v, st, n, d);
  }

  /** One test: past it, or at its clause, or with an error. */
  lemma SimGuard(x: Ctx, guard: Exprs, slot: nat, l: nat, a: Gen, p: Gen, b: Gen, next: Gen, v: Val, st: Store,
          c: Config) returns (n: nat, d: Config, c1: Config)
    requires p == a.NewLabel().Emit(LoadLocal(slot)) && Generator.EmitExprs(guard, true, p) == Generator.Ok(b)
    requires next == b.Emit(JumpStrictEq(l))
    requires OnlyCode(p, b) && Placed(p, b, x.final) && next.ir <= x.final.ir && ExprsSlots(guard, x.slots)
    requires x.slots <= slot < a.locals && Match(x, st, c) && c.ip == |a.ir| && InSlot(c, slot, v)
    ensures var r := EvalSeq(x.ops, guard, st);
      n >= 1 && Arrives(x, c, 1, c1) && (r.Thrown? ==> ThrowsIn(x, |p.ir|, |b.ir|, c1.stack, c1, r.v, r.st, n - 1, d))
      && (r.Value? ==> Reaches(x, c, n, d, if x.ops.strictEq(v, r.v) then LabelAt(x.final.labels, l) else |next.ir|, r.st)
                       && InSlot(d, slot, v))
  {
    hide Run, CallStmt, OnlyCode, Placed, Fails, Generator.EmitExprs, EvalSeq;
    LabelCount(p, b);
    assert p.ir == a.ir + [LoadLocal(slot)];
    LoadsLocal(x.ops, c, slot, v);
    assert ExprCorrect.Next(x, a, LoadLocal(slot), next);
    PushStep(x, a, LoadLocal(slot), next, c, v);
    c1 := c.Push(v);
    var n1, d1 := SimExprs(x, guard, true, p, st, c1);
    n, d := 1 + n1, d1;
    match EvalSeq(x.ops, guard, st)
    case Thrown(e, st1) =>
      assert ThrowsIn(x, |p.ir|, |b.ir|, c1.stack, c1, e, st1, n - 1, d);
    case Value(w, st1) =>
      ArrivesTrans(x, c, 1, c1, n1, d1);
      assert d1.stack == c.stack + [v, w];
      var to := if x.ops.strictEq(v, w) then LabelAt(x.final.labels, l) else d1.ip + 1;
      d := d1.(ip := to, stack := c.stack);
      CompareStep(x, b, l, next, d1, c.stack, v, w);
      ArrivesTrans(x, c, n, d1, 1, d);
      n := n + 1;
  }

  lemma CompareStep(x: Ctx, g: Gen, l: nat, b: Gen, c: Config, base: seq<Val>, v: Val, w: Val)
    requires ExprCorrect.Next(x, g, JumpStrictEq(l), b) && c.ip == |g.ir| && c.stack == base + [v, w]
    ensures Arrives(x, c, 1, c.(ip := if x.ops.strictEq(v, w) then LabelAt(x.final.labels, l) else c.ip + 1, stack := base))
  {
    CodeAt(g, JumpStrictEq(l), b, x.final);
    assert c.Drop(2) == base && c.Top() == w && c.stack[|c.stack| - 2] == v;
    ArrivesStep(x, c, JumpStrictEq(LabelAt(x.final.labels, l)),
      c.(ip := if x.ops.strictEq(v, w) then LabelAt(x.final.labels, l) else c.ip + 1, stack := base));
  }

  lemma {:induction false} SimGuards(x: Ctx, g: Gen, g': Gen, clauses: Clauses, all: seq<nat>, k: nat, cs: Clauses,
          slot: nat, dl: Option<nat>,
                   a: Gen, g2: Gen, jump: nat, g3: Gen, dflt: Option<nat>, v: Val, default: Option<nat>, st: Store, c: Config, fuel: nat)
    returns (n: nat, d: Config)
    requires GuardsPlace(g, g', clauses, all, k, cs, slot, dl, a, g2, jump, g3, dflt) && At(x, g, g')
    requires ClausesSlots(cs, x.slots)
    requires DefaultIs(all, k, default, dl) && x.slots <= slot < a.locals && Match(x, st, c)
    requires c.ip == |a.ir| && InSlot(c, slot, v)
    requires g2.Emit(Jump(jump)).ir <= x.final.ir
    ensures Selects(x, g, g', all, c, Select(x.ops, cs, v, k, default, st), fuel, n, d)
    decreases cs
  {
    hide Run, CallStmt, At, GuardsPlace, Match, ThrowsIn, Ends, Placed, OnlyCode, Within, Arrives, EvalSeq;
    match cs
    case NoClauses =>
      NoGuards(g, g', clauses, all, k, slot, dl, a, g2, jump, g3, dflt);
      JumpStep(x, a, jump, g2.Emit(Jump(jump)), c);
      n, d := 1, c.(ip := LabelAt(x.final.labels, jump));
      MatchIp(x, a, st, c, c, d) by { SelfTemps(x, a, c); }
    case Default(ss, rest) =>
      DefaultGuard(g, g', clauses, all, k, rest, ss, slot, dl, a, g2, jump, g3, dflt);
      n, d := SimGuards(x, g, g', clauses, all, k + 1, rest, slot, Some(|a.labels|), a.NewLabel(), g2, jump, g3, dflt, v, Some(k), st, c, fuel);
    case Case(guard, ss, rest) =>
      var p, b, next := GuardParts(x, g, g', clauses, all, k, rest, guard, ss, slot, dl, a, g2, jump, g3, dflt);
      var c1;
      n, d, c1 := SimGuard(x, guard, slot, all[k], a, p, b, next, v, st, c);
      match EvalSeq(x.ops, guard, st)
      case Thrown(e, st1) =>
        ErrorEnds(x, g, p, b, g', |p.labels|, c, 1, c1, c1.stack, e, st1, fuel, n - 1, d);
      case Value(w, st1) =>
        if !x.ops.strictEq(v, w) {
          NextLocals(a, p, b, next);
          var n2, d2 := SimGuards(x, g, g', clauses, all, k + 1, rest, slot, dl, next, g2, jump, g3, dflt, v, default, st1, d, fuel);
          SelectsLater(x, g, g', all, c, n, d, Select(x.ops, rest, v, k + 1, default, st1), fuel, n2, d2);
          n, d := n + n2, d2;
        }
  }

  lemma SelfTemps(x: Ctx, g: Gen, c: Config)
    ensures KeepsTemps(x, g, c, c)
  {
  }

  lemma NextLocals(a: Gen, p: Gen, b: Gen, next: Gen)
    requires a.locals == p.locals && OnlyCode(p, b) && next.locals == b.locals
    ensures a.locals <= next.locals
  {
  }

  lemma NoGuards(g: Gen, g': Gen, clauses: Clauses, all: seq<nat>, k: nat, slot: nat, dl: Option<nat>,
                 a: Gen, g2: Gen, jump: nat, g3: Gen, d: Option<nat>)
    requires GuardsPlace(g, g', clauses, all, k, NoClauses, slot, dl, a, g2, jump, g3, d)
    ensures a == g2 && jump == (if dl.Some? then dl.value else |g.labels|) && |all| == k
  {
  }

  ghost function NextLabel(a: Gen): Option<nat> {
    Some(|a.labels|)
  }

  lemma DefaultGuard(g: Gen, g': Gen, clauses: Clauses, all: seq<nat>, k: nat, cs: Clauses, ss: Items, slot: nat,
          dl: Option<nat>,
                     a: Gen, g2: Gen, jump: nat, g3: Gen, d: Option<nat>)
    requires GuardsPlace(g, g', clauses, all, k, Default(ss, cs), slot, dl, a, g2, jump, g3, d)
    ensures GuardsPlace(g, g', clauses, all, k + 1, cs, slot, NextLabel(a), a.NewLabel(), g2, jump, g3, d)
    ensures k < |all| && ClauseLabel(all, k) == |a.labels|
  {
    hide Grown, Generator.EmitClauses;
    var (g2', ts, d') := Generator.EmitGuards(cs, slot, Some(|a.labels|), a.NewLabel()).value;
    assert all[k..] == [|a.labels|] + ts;
    assert all[k + 1..] == all[k..][1..] == ts;
    GrownLabel(g, a);
  }

  // ---- The whole statement ----

  /** The discriminant from `h` to `i`, the tests from `t` to `g2`, the clauses from `u` to `g3`. */
  ghost predicate SwitchLaidOut(s: Item, g: Gen, h: Gen, i: Gen, t: Gen, g2: Gen, all: seq<nat>, dflt: Option<nat>,
          jump: nat, u: Gen, g3: Gen, g': Gen) {
    && s.Switch? && h == g.PushBreak(s.tag).NewLocal() && Generator.EmitExprs(s.disc, true, h) == Generator.Ok(i) && t == i.Emit(StoreLocal(g.locals))
    && Generator.EmitGuards(s.clauses, g.locals, None, t) == Generator.Ok((g2, all, dflt))
    && jump == (if dflt.Some? then dflt.value else |g.labels|) && u == g2.Emit(Jump(jump))
    && Generator.EmitClauses(s.clauses, all, u) == Generator.Ok(g3) && g' == g3.Mark(|g.labels|).PopBreak()
  }

  lemma SwitchStates(s: Item, g: Gen) returns (h: Gen, i: Gen, t: Gen, g2: Gen, all: seq<nat>, dflt: Option<nat>,
          jump: nat, u: Gen, g3: Gen)
    requires s.Switch? && Generator.EmitItem(s, g).Ok?
    ensures SwitchLaidOut(s, g, h, i, t, g2, all, dflt, jump, u, g3, Generator.After(Generator.EmitItem(s, g), g))
  {
    h := g.PushBreak(s.tag).NewLocal();
    i := Generator.EmitExprs(s.disc, true, h).value;
    t := i.Emit(StoreLocal(g.locals));
    var r := Generator.EmitGuards(s.clauses, g.locals, None, t).value;
    g2, all, dflt := r.0, r.1, r.2;
    jump := if dflt.Some? then dflt.value else |g.labels|;
    u := g2.Emit(Jump(jump));
    g3 := Generator.EmitClauses(s.clauses, all, u).value;
  }

  lemma SwitchHead(tag: Option<Label>, disc: Exprs, clauses: Clauses, g: Gen, h: Gen, i: Gen, t: Gen, g2: Gen,
          all: seq<nat>, dflt: Option<nat>, jump: nat, u: Gen)
    requires h == g.PushBreak(tag).NewLocal() && Generator.EmitExprs(disc, true, h) == Generator.Ok(i)
    requires t == i.Emit(StoreLocal(g.locals))
    requires Generator.EmitGuards(clauses, g.locals, None, t) == Generator.Ok((g2, all, dflt))
    requires u == g2.Emit(Jump(jump))
    ensures Grown(g, h, 0) && OnlyCode(h, i) && Grown(g, t, 0) && Grown(g, u, 0) && Grown(i, u, 0)
    ensures |h.labels| == |g.labels| + 1 <= |i.labels| == |t.labels| <= |u.labels|
    ensures h.locals == g.locals + 1 <= t.locals
    ensures u.ret == g.ret && u.depth == g.depth && u.breaks == g.breaks + [NamedLabel(tag, |g.labels|, g.depth)]
    ensures u.continues == g.continues
    ensures Increasing(all, |i.labels|, |u.labels|) && |all| == Count(clauses)
  {
    hide Grown, Generator.EmitGuards, Generator.EmitExprs, Increasing;
    GrownSelf(g);
    GrownPushes(g, g, tag);
    LocalGrown(g.PushBreak(tag));
    GrownCode(g, g.PushBreak(tag), h);
    EmitExprsGrown(disc, true, h);
    LabelCount(h, i);
    GrownCode(g, h, i);
    GrownEmit(g, i, StoreLocal(g.locals));
    EmitGuardsGrown(clauses, g.locals, None, t);
    GuardTargets(clauses, g.locals, None, t);
    LabelCount(t, g2);
    GrownCode(g, t, g2);
    GrownEmit(g, g2, Jump(jump));
    GrownSelf(i);
    GrownEmit(i, i, StoreLocal(g.locals));
    GrownCode(i, t, g2);
    GrownEmit(i, g2, Jump(jump));
  }

  lemma SwitchParts(x: Ctx, s: Item, disc: Exprs, clauses: Clauses, g: Gen, h: Gen, i: Gen, t: Gen, g2: Gen,
          all: seq<nat>, dflt: Option<nat>,
          jump: nat, u: Gen, g3: Gen, g': Gen)
    requires SwitchLaidOut(s, g, h, i, t, g2, all, dflt, jump, u, g3, g') && At(x, g, g')
    requires s == Switch(TagOf(s), disc, clauses)
    ensures OnlyCode(h, i) && Within(g, h, i, g', |h.labels|) && Placed(h, i, x.final) && t.ir <= u.ir <= x.final.ir
    ensures h.ir == g.ir
    ensures GuardsPlace(g, g', clauses, all, 0, clauses, g.locals, None, t, g2, jump, g3, dflt)
    ensures g.locals < t.locals <= x.final.locals
    ensures ClausesPlace(g, g', u, g3, TagOf(s), clauses, all, u) && h.locals == g.locals + 1
  {
    hide Grown, OnlyCode, Placed, TableBefore, Sheltered, Covered, Targets, Within, Generator.EmitExprs,
      Generator.EmitClauses, Generator.EmitGuards, Increasing;
    SwitchHead(s.tag, disc, clauses, g, h, i, t, g2, all, dflt, jump, u);
    var lo := |h.labels|;
    assert all[0..] == all;
    IncreasingFrom(all, |i.labels|, |u.labels|, |g.labels| + 1);
    SwitchEnd(g, i, u, clauses, all, g3, g', lo);
    OnlyIsGrown(h, i, lo);
    GrownFrom(g, h, 0, lo);
    WithinFrom(g, h, i, g', lo);
    WithinPlaced(g, h, i, g', lo, x.final);
    GrownFrom(g, u, 0, |u.labels|);
    SwitchTail(g, u, clauses, all, g3, g');
    LabelsGrow(u, g', |u.labels|);
    TestsInPlace(g, t, g2, u, g', x.final, clauses, dflt, jump, all);
  }

  lemma TestsInPlace(g: Gen, t: Gen, g2: Gen, u: Gen, g': Gen, f: Gen, clauses: Clauses, dflt: Option<nat>,
          jump: nat, all: seq<nat>)
    requires Generator.EmitGuards(clauses, g.locals, None, t) == Generator.Ok((g2, all, dflt))
    requires u == g2.Emit(Jump(jump))
    requires u.ir <= g'.ir && u.locals <= g'.locals && Placed(g, g', f)
    ensures t.ir <= u.ir <= f.ir && t.locals <= f.locals
  {
    hide OnlyCode, Generator.EmitGuards;
    EmitGuardsGrown(clauses, g.locals, None, t);
    LabelCount(t, g2);
  }

  lemma IncreasingFrom(ts: seq<nat>, lo: nat, hi: nat, lo': nat)
    requires Increasing(ts, lo, hi) && lo' <= lo
    ensures Increasing(ts, lo', hi)
  {
  }

  lemma SwitchEnd(g: Gen, i: Gen, u: Gen, clauses: Clauses, all: seq<nat>, g3: Gen, g': Gen, lo: nat)
    requires Grown(i, u, 0) && Generator.EmitClauses(clauses, all, u) == Generator.Ok(g3)
    requires g' == g3.Mark(|g.labels|).PopBreak()
    requires Increasing(all, |i.labels|, |u.labels|) && lo == |g.labels| + 1
    ensures Grown(i, g', lo)
  {
    hide Grown, Generator.EmitClauses;
    GrownFrom(i, u, 0, lo);
    ClausesGrown(clauses, all, i, u, lo);
    MarkBeside(i, g3, |g.labels|, lo);
    PopsGrown(g3.Mark(|g.labels|), lo);
    GrownTrans(i, g3.Mark(|g.labels|), g', lo);
  }

  lemma SwitchTail(g: Gen, u: Gen, clauses: Clauses, all: seq<nat>, g3: Gen, g': Gen)
    requires Generator.EmitClauses(clauses, all, u) == Generator.Ok(g3) && g' == g3.Mark(|g.labels|).PopBreak()
    requires Increasing(all, |g.labels| + 1, |u.labels|) && |g.labels| < |u.labels|
    ensures Grown(u, g', |u.labels|)
  {
    hide Grown, Generator.EmitClauses;
    SameGrown(u, |u.labels|);
    ClausesGrown(clauses, all, u, u, |u.labels|);
    MarkBeside(u, g3, |g.labels|, |u.labels|);
    PopsGrown(g3.Mark(|g.labels|), |u.labels|);
    GrownTrans(u, g3.Mark(|g.labels|), g', |u.labels|);
  }
}
