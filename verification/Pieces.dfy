/** Statements: where their code lies in the finished function, and what it means that running it has the outcome
    the structured semantics gives. */
module Pieces {
  import opened Ast
  import opened Semantics
  import opened ExceptionTable
  import opened IrBuilder
  import Generator
  import opened GeneratorFacts
  import opened Interpreter
  import opened ExprCorrect
  import opened Wrappers

  // ---- The finished function ----

  ghost predicate ReturnCode(x: Ctx, at: nat, slot: nat) {
    x.slots <= slot < x.final.locals && at + 1 < |x.final.ir| && x.final.ir[at] == LoadLocal(slot) && x.final.ir[at + 1] == ReturnIr
  }

  ghost predicate ReturnAnswers(x: Ctx) {
    x.final.ret.Some? ==> ReturnCode(x, LabelAt(x.final.labels, x.final.ret.value.at), x.final.ret.value.slot)
  }

  /** No exception block has a finally part, and the return target, if there is one, answers the return slot. */
  ghost predicate Finished(x: Ctx) {
    && (forall k: nat {:trigger x.final.table[k]} :: k < |x.final.table| ==> x.final.table[k].finally.None? && x.final.table[k].handler.Some?)
    && ReturnAnswers(x)
  }

  // ---- A piece of it ----

  /** Blocks recorded so far end before the code that comes next. */
  ghost predicate TableBefore(g: Gen) {
    forall k: nat {:trigger g.table[k]} :: k < |g.table| ==> g.table[k].body.end <= |g.ir|
  }

  ghost predicate Apart(r: IrRange, lo: int, hi: int) {
    r.end <= lo || r.start >= hi || (r.start <= lo && hi <= r.end)
  }

  /** Blocks recorded from the t-th on do not cut into the code from `lo` to `hi`. */
  ghost predicate Sheltered(f: Gen, t: int, lo: int, hi: int) {
    forall k: nat {:trigger f.table[k]} :: t <= k < |f.table| ==> Apart(f.table[k].body, lo, hi)
  }

  ghost predicate Around(r: IrRange, lo: int, hi: int) {
    r.start <= lo && hi <= r.end
  }

  ghost predicate Holds(e: TryCatch, lo: int, hi: int) {
    Around(e.body, lo, hi) || (e.handler.Some? && Around(e.handler.value, lo, hi))
  }

  ghost predicate Covered(f: Gen, lo: int, hi: int) {
    exists k: nat :: k < |f.table| && Holds(f.table[k], lo, hi)
  }

  /** Break and continue targets are not deeper in exception blocks than the code is. */
  ghost predicate Targets(g: Gen) {
    && (forall i: nat {:trigger g.breaks[i]} :: i < |g.breaks| ==> g.breaks[i].depth <= g.depth)
    && (forall i: nat {:trigger g.continues[i]} :: i < |g.continues| ==> g.continues[i].depth <= g.depth)
  }

  ghost predicate At(x: Ctx, g: Gen, g': Gen) {
    && Placed(g, g', x.final) && x.slots <= g.locals && TableBefore(g) && g'.table <= x.final.table
    && Sheltered(x.final, |g'.table|, |g.ir|, |g'.ir|) && Targets(g)
    && (g.depth > 0 ==> Covered(x.final, |g.ir|, |g'.ir|))
  }

  /** From `g` over `a` and `b` to `g'`; of the labels known at `a`, only some older than `lo` are marked later. */
  ghost predicate Within(g: Gen, a: Gen, b: Gen, g': Gen, lo: int) {
    lo <= |a.labels| && Grown(g, a, lo) && Grown(a, b, lo) && Grown(b, g', lo)
  }

  lemma WithinPlaced(g: Gen, a: Gen, b: Gen, g': Gen, lo: nat, f: Gen)
    requires Placed(g, g', f) && Within(g, a, b, g', lo)
    ensures Placed(a, b, f)
    ensures |g.ir| <= |a.ir| <= |b.ir| <= |g'.ir| && g.locals <= a.locals <= b.locals && b.ir <= g'.ir <= f.ir
  {
    hide NewRecords;
    GrownFrom(b, g', lo, |a.labels|);
    SubPlaced(g, a, b, g', f);
  }

  lemma WithinTable(g: Gen, a: Gen, b: Gen, g': Gen, lo: nat, f: Gen)
    requires Within(g, a, b, g', lo) && TableBefore(g) && g'.table <= f.table
    ensures TableBefore(a) && b.table <= f.table && |g.table| <= |a.table| <= |b.table| <= |g'.table|
  {
    forall k: nat {:trigger a.table[k]} | k < |a.table|
      ensures a.table[k].body.end <= |a.ir|
    {
      if k < |g.table| {
        assert a.table[k] == g.table[k];
      }
    }
  }

  lemma WithinSheltered(g: Gen, a: Gen, b: Gen, g': Gen, lo: nat, f: Gen)
    requires Within(g, a, b, g', lo) && g'.table <= f.table && Sheltered(f, |g'.table|, |g.ir|, |g'.ir|)
    ensures Sheltered(f, |b.table|, |a.ir|, |b.ir|)
  {
    forall k: nat {:trigger f.table[k]} | |b.table| <= k < |f.table|
      ensures Apart(f.table[k].body, |a.ir|, |b.ir|)
    {
      if k < |g'.table| {
        assert f.table[k] == g'.table[k];
      }
    }
  }

  lemma CoveredPart(f: Gen, lo: nat, hi: nat, lo': nat, hi': nat)
    requires Covered(f, lo, hi) && lo <= lo' && hi' <= hi
    ensures Covered(f, lo', hi')
  {
    var k: nat :| k < |f.table| && Holds(f.table[k], lo, hi);
    assert Holds(f.table[k], lo', hi');
  }

  /** A piece at the same depth inherits its surroundings. */
  lemma Piece(x: Ctx, g: Gen, a: Gen, b: Gen, g': Gen, lo: nat)
    requires At(x, g, g') && Within(g, a, b, g', lo) && a.depth == g.depth && Targets(a)
    ensures At(x, a, b)
  {
    hide Placed, TableBefore, Sheltered, Covered, Targets, Within;
    WithinPlaced(g, a, b, g', lo, x.final);
    WithinTable(g, a, b, g', lo, x.final);
    WithinSheltered(g, a, b, g', lo, x.final);
    if g.depth > 0 {
      CoveredPart(x.final, |g.ir|, |g'.ir|, |a.ir|, |b.ir|);
    }
  }

  // ---- Outcomes ----

  ghost predicate Reaches(x: Ctx, c: Config, n: int, d: Config, ip: int, st: Store) {
    Arrives(x, c, n, d) && d.ip == ip && Match(x, st, d)
  }

  ghost predicate Finishes(x: Ctx, c: Config, n: int, v: Val, st: Store) {
    n >= 0 && var s := Run(Mach(x), c, n);
    s.Returns? && s.v == v && s.w == st.w && x.slots <= |s.locals| && s.locals[..x.slots] == st.vars
  }

  /** None of the blocks from the t-th to the u-th has the instruction at `ip` in its body. */
  ghost predicate Uncaught(x: Ctx, t: int, u: int, ip: nat) {
    forall k: nat {:trigger x.final.table[k]} :: t <= k < u && k < |x.final.table| ==> !x.final.table[k].body.Contains(ip)
  }

  ghost predicate ReachesTarget(x: Ctx, c: Config, n: int, d: Config, targets: seq<NamedLabel>, name: Option<Label>,
          st: Store) {
    && Generator.GetTarget(targets, name).Ok?
    && Reaches(x, c, n, d, LabelAt(x.final.labels, Generator.GetTarget(targets, name).value.at), st)
  }

  /** Running the code of a statement from `c` has the outcome `r`: it ends past the code, at a target, with a
      return, or with an error no block inside catches; or it is still under way after `fuel` steps. Nothing is
      said about the operand stack: what an error left behind stays there. */
  ghost predicate Ends(x: Ctx, g: Gen, g': Gen, c: Config, r: Done, fuel: int, n: int, d: Config) {
    match r.o
    case Normal => Reaches(x, c, n, d, |g'.ir|, r.st)
    case Broke(name) => ReachesTarget(x, c, n, d, g.breaks, name, r.st)
    case Continued(name) => ReachesTarget(x, c, n, d, g.continues, name, r.st)
    case Returned(v) => Finishes(x, c, n, v, r.st)
    case Raised(v) => ThrowsIn(x, |g.ir|, |g'.ir|, [], c, v, r.st, n, d) && Uncaught(x, |g.table|, |g'.table|, d.ip)
    case Timeout => Arrives(x, c, n, d) && n >= fuel
  }

  ghost function NameOf(o: Outcome): Option<Label> {
    if o.Broke? || o.Continued? then o.tag else None
  }

  lemma ReachesLater(x: Ctx, c: Config, i: nat, c1: Config, n: nat, d: Config, ip: nat, st: Store)
    requires Arrives(x, c, i, c1) && Reaches(x, c1, n, d, ip, st)
    ensures Reaches(x, c, i + n, d, ip, st)
  {
    hide Run, Match;
    ArrivesTrans(x, c, i, c1, n, d);
  }

  lemma FinishesLater(x: Ctx, c: Config, i: nat, c1: Config, n: nat, v: Val, st: Store)
    requires Arrives(x, c, i, c1) && Finishes(x, c1, n, v, st)
    ensures Finishes(x, c, i + n, v, st)
  {
    hide Run;
    RunAdd(Mach(x), c, i, c1, n);
  }

  lemma UncaughtWider(x: Ctx, g: Gen, a: Gen, b: Gen, g': Gen, lo: nat, ip: nat)
    requires Within(g, a, b, g', lo) && g'.table <= x.final.table
    requires Uncaught(x, |a.table|, |b.table|, ip) && |a.ir| <= ip < |b.ir|
    ensures Uncaught(x, |g.table|, |g'.table|, ip)
  {
    forall k: nat {:trigger x.final.table[k]} | |g.table| <= k < |g'.table| && k < |x.final.table|
      ensures !x.final.table[k].body.Contains(ip)
    {
      if k < |a.table| {
        assert x.final.table[k] == g'.table[k] == b.table[k] == a.table[k];
      } else if k >= |b.table| {
        assert x.final.table[k] == g'.table[k];
      }
    }
  }

  /** The outcome of the piece that runs last is the outcome of the whole. */
  lemma EndsLater(x: Ctx, g: Gen, a: Gen, b: Gen, g': Gen, lo: nat, c: Config, i: nat, c1: Config, r: Done,
          fuel': nat, fuel: nat, n: nat, d: Config)
    requires At(x, g, g') && Within(g, a, b, g', lo) && Arrives(x, c, i, c1) && Ends(x, a, b, c1, r, fuel', n, d)
    requires fuel <= i + fuel'
    requires r.o.Normal? ==> |b.ir| == |g'.ir|
    requires r.o.Broke? ==> Generator.GetTarget(a.breaks, NameOf(r.o)) == Generator.GetTarget(g.breaks, NameOf(r.o))
    requires r.o.Continued? ==> Generator.GetTarget(a.continues, NameOf(r.o)) == Generator.GetTarget(g.continues, NameOf(r.o))
    ensures Ends(x, g, g', c, r, fuel, i + n, d)
  {
    hide Placed, Sheltered, Covered, Targets, TableBefore, Run, Match, Within, Fails, Generator.GetTarget;
    match r.o
    case Normal => ReachesLater(x, c, i, c1, n, d, |b.ir|, r.st);
    case Broke(name) => ReachesLater(x, c, i, c1, n, d, LabelAt(x.final.labels, Generator.GetTarget(a.breaks, name).value.at), r.st);
    case Continued(name) => ReachesLater(x, c, i, c1, n, d, LabelAt(x.final.labels, Generator.GetTarget(a.continues, name).value.at), r.st);
    case Returned(v) => FinishesLater(x, c, i, c1, n, v, r.st);
    case Raised(v) =>
      WithinPlaced(g, a, b, g', lo, x.final);
      UncaughtWider(x, g, a, b, g', lo, d.ip);
      ThrowsLater(x, |g.ir|, |g'.ir|, [], c, i, c1, |a.ir|, |b.ir|, [], v, r.st, n, d);
    case Timeout => ArrivesTrans(x, c, i, c1, n, d);
  }

  lemma ArrivesNow(x: Ctx, c: Config)
    ensures Arrives(x, c, 0, c)
  {
  }

  /** An error in an expression is an error of the statement. */
  lemma ErrorEnds(x: Ctx, g: Gen, a: Gen, b: Gen, g': Gen, lo: nat, c: Config, i: nat, c1: Config, base: seq<Val>,
          v: Val, st: Store, fuel: nat, n: nat, d: Config)
    requires At(x, g, g') && Within(g, a, b, g', lo) && OnlyCode(a, b) && Arrives(x, c, i, c1)
    requires ThrowsIn(x, |a.ir|, |b.ir|, base, c1, v, st, n, d)
    ensures Ends(x, g, g', c, Done(Raised(v), st), fuel, i + n, d)
  {
    hide Placed, Sheltered, Covered, Targets, TableBefore, Run, Match, Within, Grown, CallStmt, At;
    assert ThrowsIn(x, |a.ir|, |b.ir|, [], c1, v, st, n, d) by {
      assert [] <= base;
    }
    assert Ends(x, a, b, c1, Done(Raised(v), st), fuel, n, d);
    EndsLater(x, g, a, b, g', lo, c, i, c1, Done(Raised(v), st), fuel, fuel, n, d);
  }

  lemma ExprEnds(x: Ctx, g: Gen, g': Gen, c: Config, r: EvalResult, fuel: nat, n: nat, d: Config)
    requires OnlyCode(g, g') && ExprRuns(x, g, |g'.ir|, false, c, r, n, d)
    ensures Ends(x, g, g', c, OfEval(r), fuel, n, d)
  {
    hide Run, Match, CallStmt, Grown;
    if r.Thrown? {
      assert ThrowsIn(x, |g.ir|, |g'.ir|, [], c, r.v, r.st, n, d) by {
        assert [] <= c.stack;
      }
    }
  }

  // ---- Leaving and throwing ----

  lemma {:induction false} LeaveGoes(table: seq<TryCatch>, ip: nat, target: nat, e: TryCatch)
    requires e in table && (e.body.Contains(ip) || e.InHandler(ip))
    requires forall y :: y in table ==> y.finally.None?
    ensures LeaveTarget(table, ip, target) == Some(target)
  {
    assert table == [table[0]] + table[1..];
    assert table[0] in table;
    if !(table[0].body.Contains(ip) || table[0].InHandler(ip)) {
      LeaveGoes(table[1..], ip, target, e);
    }
  }

  lemma NoFinally(x: Ctx, y: TryCatch)
    requires Finished(x) && y in Sort(x.final.table)
    ensures y.finally.None?
  {
    SortHolds(x.final.table, y);
    var k: nat :| k < |x.final.table| && x.final.table[k] == y;
  }

  /** Inside an exception block a Leave goes where it says. */
  lemma LeaveStep(x: Ctx, g: Gen, l: nat, b: Gen, c: Config)
    requires Finished(x) && ExprCorrect.Next(x, g, Leave(l), b) && c.ip == |g.ir| && Covered(x.final, c.ip, c.ip + 1)
    ensures Arrives(x, c, 1, c.(ip := LabelAt(x.final.labels, l), thrown := None))
  {
    hide Run, Finished;
    CodeAt(g, Leave(l), b, x.final);
    var k: nat :| k < |x.final.table| && Holds(x.final.table[k], c.ip, c.ip + 1);
    var e := x.final.table[k];
    SortHolds(x.final.table, e);
    forall y | y in Sort(x.final.table)
      ensures y.finally.None?
    {
      NoFinally(x, y);
    }
    LeaveGoes(Sort(x.final.table), c.ip, LabelAt(x.final.labels, l), e);
    RunOne(Mach(x), c);
  }

  /** A throw goes to the handler of the best match. */
  lemma ThrowStep(x: Ctx, base: seq<Val>, d: Config, v: Val, st: Store, e: TryCatch) returns (d': Config)
    requires Fails(x, base, d, v, st) && IsBest(x.final.table, d.ip, e)
    ensures Arrives(x, d, 1, d') && d'.ip == Entry(e, d.ip) && d'.thrown == Some(v) && Match(x, st, d')
  {
    hide Run, CallStmt, IsBest, Entry, Sort, ThrowTarget;
    SortedSearch(x.final.table, d.ip, e);
    var t := CallStmt(x.ops, Build(x.final).ir[d.ip], d);
    d' := t.c.(ip := Entry(e, d.ip), thrown := Some(v));
    RunOne(Mach(x), d);
  }

  ghost predicate EndsThrowing(x: Ctx, s: Status, v: Val, st: Store) {
    s.Throws? && s.v == v && s.w == st.w && x.slots <= |s.locals| && s.locals[..x.slots] == st.vars
  }

  /** An error nothing catches ends the call. */
  lemma ThrowLeaves(x: Ctx, base: seq<Val>, d: Config, v: Val, st: Store)
    requires Fails(x, base, d, v, st) && NoneCatches(x.final.table, d.ip)
    ensures EndsThrowing(x, Step(Mach(x), d), v, st)
  {
    hide Run, CallStmt, NoneCatches, Sort, ThrowTarget;
    SortedSearchFails(x.final.table, d.ip);
  }
}
