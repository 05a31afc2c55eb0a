/** The pieces of each compound statement's code: where they lie and what the labels between them become. */
module ItemParts {
  import opened Ast
  import opened ExceptionTable
  import opened IrBuilder
  import opened Generator
  import opened GeneratorFacts
  import opened ExprCorrect
  import opened Pieces
  import opened Wrappers

  // ---- Steps ----

  lemma ItemGrown(s: Item, a: Gen, lo: nat)
    requires EmitItem(s, a).Ok?
    ensures Grown(a, Generator.After(EmitItem(s, a), a), lo) && Restored(a, Generator.After(EmitItem(s, a), a))
  {
    EmitItemGrown(s, a);
    GrownFrom(a, EmitItem(s, a).value, 0, lo);
  }

  lemma ItemsGrown(ss: Items, a: Gen, lo: nat)
    requires EmitItems(ss, a).Ok?
    ensures Grown(a, Generator.After(EmitItems(ss, a), a), lo) && Restored(a, Generator.After(EmitItems(ss, a), a))
  {
    EmitItemsGrown(ss, a);
    GrownFrom(a, EmitItems(ss, a).value, 0, lo);
  }

  lemma MarkGrown(g: Gen, l: nat, lo: nat)
    requires l < lo
    ensures Grown(g, g.Mark(l), lo)
  {
  }

  lemma PopsGrown(g: Gen, lo: nat)
    ensures Grown(g, g.PopBreak(), lo) && Grown(g, g.PopBreak().PopContinue(), lo)
    ensures g.PopBreak().PopContinue().ir == g.PopBreak().ir == g.ir
    ensures g.PopBreak().PopContinue().labels == g.PopBreak().labels == g.labels
  {
  }

  lemma EmitsGrown(g: Gen, i: Ir, lo: nat)
    ensures Grown(g, g.Emit(i), lo)
  {
    hide OnlyCode, Grown;
    EmitGrown(g, i);
    OnlyIsGrown(g, g.Emit(i), lo);
  }

  lemma SameGrown(g: Gen, lo: nat)
    ensures Grown(g, g, lo)
  {
  }

  lemma LabelsGrow(a: Gen, b: Gen, lo: nat)
    requires Grown(a, b, lo)
    ensures |a.labels| <= |b.labels| && |a.ir| <= |b.ir| && a.ir <= b.ir && a.locals <= b.locals
  {
  }

  lemma HeldLabel(a: Gen, b: Gen, l: nat)
    requires Grown(a, b, 0) && l < |a.labels|
    ensures LabelAt(b.labels, l) == LabelAt(a.labels, l)
  {
  }

  /** A label made in `h0` has the value it has in the end; it is not the return target's. */
  lemma FinalAt(g: Gen, h0: Gen, l: nat, g': Gen, f: Gen)
    requires Placed(g, g', f) && h0.ret == g.ret && |g.labels| <= l < |h0.labels| && Grown(h0, g', |h0.labels|)
    ensures LabelAt(f.labels, l) == LabelAt(g'.labels, l)
  {
  }

  lemma TargetsKept(g: Gen, a: Gen)
    requires Targets(g) && a.depth == g.depth
    requires a.breaks == g.breaks || exists n, l :: a.breaks == g.breaks + [NamedLabel(n, l, g.depth)]
    requires a.continues == g.continues || exists n, l :: a.continues == g.continues + [NamedLabel(n, l, g.depth)]
    ensures Targets(a)
  {
  }

  lemma WithinFrom(g: Gen, a: Gen, b: Gen, g': Gen, lo: nat)
    requires lo <= |a.labels| && Grown(g, a, lo) && Grown(a, b, lo) && Grown(b, g', lo)
    ensures Within(g, a, b, g', lo)
  {
  }

  /** The outermost target is the pushed one, or the name is looked for further out. */
  lemma PushedTarget(targets: seq<NamedLabel>, name: Option<Label>, at: nat, depth: nat, wanted: Option<Label>)
    ensures wanted.None? || wanted == name ==> GetTarget(targets + [NamedLabel(name, at, depth)], wanted) == Ok(NamedLabel(name, at, depth))
    ensures !(wanted.None? || wanted == name) ==> GetTarget(targets + [NamedLabel(name, at, depth)], wanted) == GetTarget(targets, wanted)
  {
    var all := targets + [NamedLabel(name, at, depth)];
    assert all[..|all| - 1] == targets;
  }

  // ---- While and do ----

  function LoopBody(s: Item, g: Gen): Gen {
    var h := LoopStart(TagOf(s), g);
    (if s.While? then h.Emit(Jump(|g.labels| + 1)) else h).Mark(|g.labels| + 2)
  }

  /** The body is emitted from `a` to `b`, the test from `t` to `u`. */
  ghost predicate LoopLaidOut(x: Ctx, s: Item, g: Gen, a: Gen, b: Gen, t: Gen, u: Gen, g': Gen) {
    && (s.While? || s.Do?) && a == LoopBody(s, g) && EmitItem(s.body, a) == Ok(b) && t == b.Mark(|g.labels| + 1)
    && EmitTest(s.test, |g.labels| + 2, false, t) == Ok(u)
    && LabelAt(x.final.labels, |g.labels|) == |u.ir| == |g'.ir|
    && LabelAt(x.final.labels, |g.labels| + 1) == |t.ir| == |b.ir|
    && LabelAt(x.final.labels, |g.labels| + 2) == |a.ir|
    && At(x, a, b) && Within(g, a, b, g', |g.labels| + 3)
    && Placed(t, u, x.final) && Within(g, t, u, g', |g.labels| + 3) && OnlyCode(t, u) && x.slots <= t.locals
  }

  lemma LoopBodyFacts(s: Item, g: Gen)
    ensures var a := LoopBody(s, g);
      && a.depth == g.depth && a.ret == g.ret && |a.labels| == |g.labels| + 3 && a.locals == g.locals
      && LoopTargets(g, a, TagOf(s))
      && a.ir == (if s.While? then g.ir + [Jump(|g.labels| + 1)] else g.ir) && LabelAt(a.labels, |g.labels| + 2) == |a.ir|
      && Grown(g, a, |g.labels| + 3)
  {
    hide Grown;
    var lo := |g.labels| + 3;
    var h := LoopStart(TagOf(s), g);
    LoopStartGrown(TagOf(s), g);
    GrownFrom(g, h, 0, lo);
    EmitsGrown(h, Jump(|g.labels| + 1), lo);
    SameGrown(h, lo);
    var j := if s.While? then h.Emit(Jump(|g.labels| + 1)) else h;
    MarkGrown(j, |g.labels| + 2, lo);
    GrownTrans(g, h, j, lo);
    GrownTrans(g, j, LoopBody(s, g), lo);
  }

  lemma LoopTail(s: Item, g: Gen, b: Gen, t: Gen, u: Gen, g': Gen)
    requires (s.While? || s.Do?) && t == b.Mark(|g.labels| + 1) && EmitTest(s.test, |g.labels| + 2, false, t) == Ok(u)
    requires g' == u.Mark(|g.labels|).PopBreak().PopContinue() && |b.labels| >= |g.labels| + 3
    ensures Grown(b, t, |g.labels| + 3) && Grown(t, u, |g.labels| + 3) && Grown(u, g', |g.labels| + 3)
    ensures Grown(b, g', |g.labels| + 3)
    ensures OnlyCode(t, u) && t.ir == b.ir && g'.ir == u.ir
    ensures LabelAt(g'.labels, |g.labels|) == |u.ir| && LabelAt(g'.labels, |g.labels| + 1) == |t.ir|
    ensures LabelAt(g'.labels, |g.labels| + 2) == LabelAt(b.labels, |g.labels| + 2)
  {
    hide Grown, OnlyCode;
    var lo := |g.labels| + 3;
    MarkGrown(b, |g.labels| + 1, lo);
    TestGrown(s.test, |g.labels| + 2, false, t);
    OnlyIsGrown(t, u, lo);
    OnlyIsGrown(t, u, 0);
    LabelsGrow(t, u, lo);
    MarkGrown(u, |g.labels|, lo);
    PopsGrown(u.Mark(|g.labels|), lo);
    GrownTrans(u, u.Mark(|g.labels|), g', lo);
    GrownTrans(b, t, u, lo);
    GrownTrans(b, u, g', lo);
    HeldLabel(t, u, |g.labels| + 1);
    HeldLabel(t, u, |g.labels| + 2);
  }

  lemma LoopStates(s: Item, g: Gen) returns (a: Gen, b: Gen, t: Gen, u: Gen)
    requires (s.While? || s.Do?) && EmitItem(s, g).Ok?
    ensures a == LoopBody(s, g) && EmitItem(s.body, a) == Ok(b) && t == b.Mark(|g.labels| + 1)
    ensures EmitTest(s.test, |g.labels| + 2, false, t) == Ok(u)
    ensures Generator.After(EmitItem(s, g), g) == u.Mark(|g.labels|).PopBreak().PopContinue()
  {
    hide EmitTest;
    a := LoopBody(s, g);
    b := EmitItem(s.body, a).value;
    t := b.Mark(|g.labels| + 1);
    u := EmitTest(s.test, |g.labels| + 2, false, t).value;
  }

  lemma LoopParts(x: Ctx, s: Item, g: Gen) returns (a: Gen, b: Gen, t: Gen, u: Gen)
    requires (s.While? || s.Do?) && EmitItem(s, g).Ok? && At(x, g, Generator.After(EmitItem(s, g), g))
    ensures LoopLaidOut(x, s, g, a, b, t, u, Generator.After(EmitItem(s, g), g))
  {
    hide Grown, OnlyCode, Placed, TableBefore, Sheltered, Covered, Targets, Within, EmitItem, EmitTest, LoopBody;
    var lo := |g.labels| + 3;
    var g' := EmitItem(s, g).value;
    a, b, t, u := LoopStates(s, g);
    LoopBodyFacts(s, g);
    ItemGrown(s.body, a, lo);
    ItemGrown(s.body, a, 0);
    LabelsGrow(a, b, lo);
    LoopTail(s, g, b, t, u, g');
    GrownTrans(g, a, b, lo);
    GrownTrans(g, b, t, lo);
    GrownTrans(a, b, g', lo);
    HeldLabel(a, b, |g.labels| + 2);
    WithinFrom(g, a, b, g', lo);
    WithinFrom(g, t, u, g', lo);
    TargetsKept(g, a);
    Piece(x, g, a, b, g', lo);
    WithinPlaced(g, t, u, g', lo, x.final);
    FinalAt(g, a, |g.labels|, g', x.final);
    FinalAt(g, a, |g.labels| + 1, g', x.final);
    FinalAt(g, a, |g.labels| + 2, g', x.final);
  }

  // ---- For ----

  /** The initialisation from `h` to `i`, the body from `a` to `b`, the step from `m` to `p`, the test from `q` to
      `r`. */
  ghost predicate ForLaidOut(s: Item, g: Gen, h: Gen, i: Gen, a: Gen, b: Gen, m: Gen, p: Gen, q: Gen, r: Gen, g': Gen) {
    var brk, cont, check, start, lo := |g.labels|, |g.labels| + 1, |g.labels| + 2, |g.labels| + 3, |g.labels| + 4;
    && s.For? && h == LoopStart(s.tag, g).NewLabel() && EmitInit(s.init, h) == Ok(i) && a == i.Emit(Jump(check)).Mark(start)
    && EmitItem(s.body, a) == Ok(b) && m == b.Mark(cont)
    && StepCode(s, m) == Ok(p) && q == p.Mark(check) && TestCode(s, start, q) == Ok(r)
    && g' == r.Mark(brk).PopBreak().PopContinue()
  }

  ghost predicate ForInPlace(x: Ctx, g: Gen, h: Gen, i: Gen, a: Gen, b: Gen, m: Gen, p: Gen, q: Gen, r: Gen, g': Gen) {
    var brk, cont, check, start, lo := |g.labels|, |g.labels| + 1, |g.labels| + 2, |g.labels| + 3, |g.labels| + 4;
    && LabelAt(x.final.labels, brk) == |r.ir| && LabelAt(x.final.labels, cont) == |b.ir| && LabelAt(x.final.labels, check) == |p.ir|
    && LabelAt(x.final.labels, start) == |a.ir|
    && Within(g, h, i, g', lo) && Within(g, a, b, g', lo) && Within(g, m, p, g', lo) && Within(g, q, r, g', lo)
    && OnlyCode(h, i) && OnlyCode(m, p) && OnlyCode(q, r) && At(x, h, i) && At(x, a, b) && Placed(m, p, x.final) && Placed(q, r, x.final)
    && x.slots <= m.locals && x.slots <= q.locals
  }

  lemma ForHeadFacts(tag: Option<Label>, init: ForInit, g: Gen, h: Gen, i: Gen, a: Gen)
    requires h == LoopStart(tag, g).NewLabel() && EmitInit(init, h) == Ok(i)
    requires a == i.Emit(Jump(|g.labels| + 2)).Mark(|g.labels| + 3)
    ensures Grown(g, h, |g.labels| + 4) && Grown(h, i, |g.labels| + 4) && Grown(i, a, |g.labels| + 4) && OnlyCode(h, i)
    ensures h.depth == a.depth == g.depth && h.ret == a.ret == g.ret && |h.labels| == |g.labels| + 4 <= |a.labels|
    ensures h.ir == g.ir && h.locals == g.locals
    ensures LoopTargets(g, h, tag) && LoopTargets(g, a, tag)
    ensures LabelAt(a.labels, |g.labels| + 3) == |a.ir| == |i.ir| + 1 && a.ir == i.ir + [Jump(|g.labels| + 2)]
  {
    hide Grown;
    var lo := |g.labels| + 4;
    var l := LoopStart(tag, g);
    LoopStartGrown(tag, g);
    GrownFrom(g, l, 0, lo);
    LabelGrown(l);
    OnlyIsGrown(l, h, lo);
    GrownTrans(g, l, h, lo);
    EmitInitGrown(init, h);
    OnlyIsGrown(h, i, lo);
    LabelsGrow(h, i, lo);
    EmitsGrown(i, Jump(|g.labels| + 2), lo);
    MarkGrown(i.Emit(Jump(|g.labels| + 2)), |g.labels| + 3, lo);
    GrownTrans(i, i.Emit(Jump(|g.labels| + 2)), a, lo);
  }

  lemma ForStepFacts(s: Item, g: Gen, b: Gen, m: Gen, p: Gen, q: Gen)
    requires m == b.Mark(|g.labels| + 1) && StepCode(s, m) == Ok(p)
    requires q == p.Mark(|g.labels| + 2) && |b.labels| >= |g.labels| + 4
    ensures Grown(b, m, |g.labels| + 4) && Grown(m, p, |g.labels| + 4) && Grown(p, q, |g.labels| + 4) && OnlyCode(m, p)
    ensures LabelAt(q.labels, |g.labels| + 1) == |b.ir| && LabelAt(q.labels, |g.labels| + 2) == |p.ir|
    ensures LabelAt(q.labels, |g.labels| + 3) == LabelAt(b.labels, |g.labels| + 3)
    ensures m.ir == b.ir && q.ir == p.ir && |b.labels| <= |q.labels|
  {
    hide Grown, OnlyCode;
    var lo := |g.labels| + 4;
    MarkGrown(b, |g.labels| + 1, lo);
    OnlyCodeSelf(m);
    if s.For? && s.incr.Some? {
      EmitExprsGrown(s.incr.value, false, m);
    }
    OnlyIsGrown(m, p, lo);
    OnlyIsGrown(m, p, 0);
    LabelsGrow(m, p, 0);
    MarkGrown(p, |g.labels| + 2, lo);
    HeldLabel(m, p, |g.labels| + 1);
    HeldLabel(m, p, |g.labels| + 3);
  }

  /** The last mark of a loop leaves all other labels as they were. */
  lemma LastMark(r: Gen, l: nat)
    requires l < |r.labels|
    ensures var g := r.Mark(l).PopBreak().PopContinue();
      g.ir == r.ir && LabelAt(g.labels, l) == |r.ir| && forall k: nat :: k != l ==> LabelAt(g.labels, k) == LabelAt(r.labels, k)
  {
  }

  lemma ForTestFacts(s: Item, g: Gen, q: Gen, r: Gen, g': Gen)
    requires TestCode(s, |g.labels| + 3, q) == Ok(r)
    requires g' == r.Mark(|g.labels|).PopBreak().PopContinue() && |q.labels| >= |g.labels| + 4
    ensures Grown(q, r, |g.labels| + 4) && Grown(r, g', |g.labels| + 4) && OnlyCode(q, r) && g'.ir == r.ir
    ensures LabelAt(g'.labels, |g.labels|) == |r.ir|
    ensures LabelAt(g'.labels, |g.labels| + 1) == LabelAt(q.labels, |g.labels| + 1)
    ensures LabelAt(g'.labels, |g.labels| + 2) == LabelAt(q.labels, |g.labels| + 2)
    ensures LabelAt(g'.labels, |g.labels| + 3) == LabelAt(q.labels, |g.labels| + 3)
  {
    hide Grown, OnlyCode, EmitTests, Gen.Mark, Gen.PopBreak, Gen.PopContinue, LabelAt;
    var lo := |g.labels| + 4;
    EmitGrown(q, Jump(|g.labels| + 3));
    if s.For? && s.ftest.Some? {
      EmitTestsGrown(s.ftest.value, |g.labels| + 3, false, q);
    }
    OnlyIsGrown(q, r, lo);
    OnlyIsGrown(q, r, 0);
    LabelsGrow(q, r, 0);
    LastMark(r, |g.labels|);
    MarkGrown(r, |g.labels|, lo);
    PopsGrown(r.Mark(|g.labels|), lo);
    GrownTrans(r, r.Mark(|g.labels|), g', lo);
    HeldLabel(q, r, |g.labels| + 1);
    HeldLabel(q, r, |g.labels| + 2);
    HeldLabel(q, r, |g.labels| + 3);
  }

  lemma ForStates(s: Item, g: Gen) returns (h: Gen, i: Gen, a: Gen, b: Gen, m: Gen, p: Gen, q: Gen, r: Gen)
    requires s.For? && EmitItem(s, g).Ok?
    ensures ForLaidOut(s, g, h, i, a, b, m, p, q, r, Generator.After(EmitItem(s, g), g))
  {
    h := LoopStart(s.tag, g).NewLabel();
    i := EmitInit(s.init, h).value;
    a := i.Emit(Jump(|g.labels| + 2)).Mark(|g.labels| + 3);
    b := EmitItem(s.body, a).value;
    m := b.Mark(|g.labels| + 1);
    p := StepCode(s, m).value;
    q := p.Mark(|g.labels| + 2);
    r := TestCode(s, |g.labels| + 3, q).value;
  }

  lemma ForParts(x: Ctx, s: Item, g: Gen, h: Gen, i: Gen, a: Gen, b: Gen, m: Gen, p: Gen, q: Gen, r: Gen, g': Gen)
    requires ForLaidOut(s, g, h, i, a, b, m, p, q, r, g') && At(x, g, g')
    ensures ForInPlace(x, g, h, i, a, b, m, p, q, r, g')
  {
    hide Grown, OnlyCode, Placed, TableBefore, Sheltered, Covered, Targets, Within, EmitItem, EmitInit, EmitTests,
      EmitExprs;
    var lo := |g.labels| + 4;
    ForHeadFacts(s.tag, s.init, g, h, i, a);
    ItemGrown(s.body, a, lo);
    ItemGrown(s.body, a, 0);
    LabelsGrow(a, b, lo);
    ForStepFacts(s, g, b, m, p, q);
    ForTestFacts(s, g, q, r, g');
    HeldLabel(a, b, |g.labels| + 3);
    ForChain(g, h, i, a, b, m, p, q, r, g', lo);
    LabelsGrow(a, m, lo);
    WithinFrom(g, h, i, g', lo);
    WithinFrom(g, a, b, g', lo);
    WithinFrom(g, m, p, g', lo);
    WithinFrom(g, q, r, g', lo);
    TargetsKept(g, h);
    TargetsKept(g, a);
    Piece(x, g, h, i, g', lo);
    Piece(x, g, a, b, g', lo);
    WithinPlaced(g, m, p, g', lo, x.final);
    WithinPlaced(g, q, r, g', lo, x.final);
    FinalAt(g, h, |g.labels|, g', x.final);
    FinalAt(g, h, |g.labels| + 1, g', x.final);
    FinalAt(g, h, |g.labels| + 2, g', x.final);
    FinalAt(g, h, |g.labels| + 3, g', x.final);
  }

  lemma ForChain(g: Gen, h: Gen, i: Gen, a: Gen, b: Gen, m: Gen, p: Gen, q: Gen, r: Gen, g': Gen, lo: nat)
    requires Grown(g, h, lo) && Grown(h, i, lo) && Grown(i, a, lo) && Grown(a, b, lo) && Grown(b, m, lo)
    requires Grown(m, p, lo) && Grown(p, q, lo)
    requires Grown(q, r, lo) && Grown(r, g', lo)
    ensures Grown(g, a, lo) && Grown(g, m, lo) && Grown(g, q, lo) && Grown(a, m, lo)
    ensures Grown(i, g', lo) && Grown(b, g', lo) && Grown(p, g', lo) && Grown(h, g', lo)
  {
    hide Grown;
    GrownTrans(h, i, a, lo);
    GrownTrans(g, h, a, lo);
    GrownTrans(a, b, m, lo);
    GrownTrans(g, a, m, lo);
    GrownTrans(m, p, q, lo);
    GrownTrans(g, m, q, lo);
    GrownTrans(q, r, g', lo);
    GrownTrans(p, q, g', lo);
    GrownTrans(m, p, g', lo);
    GrownTrans(b, m, g', lo);
    GrownTrans(a, m, g', lo);
    GrownTrans(i, a, g', lo);
    GrownTrans(h, a, g', lo);
  }

  // ---- If ----

  /** The test from `h` to `i`, the first branch from `i` to `a`, the second, if any, from `e` to `b`. */
  ghost predicate IfLaidOut(s: Item, g: Gen, h: Gen, i: Gen, a: Gen, e: Gen, b: Gen, g': Gen) {
    && s.If? && h == (if s.els.Some? then g.NewLabel().NewLabel() else g.NewLabel()) && EmitTests(s.cond, |g.labels|, true, h) == Ok(i) && EmitItem(s.thn, i) == Ok(a)
    && (if s.els.Some? then e == a.Emit(Jump(|g.labels| + 1)).Mark(|g.labels|) && EmitItem(s.els.value, e) == Ok(b) && g' == b.Mark(|g.labels| + 1)
        else e == a && b == a && g' == a.Mark(|g.labels|))
  }

  ghost predicate IfInPlace(x: Ctx, s: Item, g: Gen, h: Gen, i: Gen, a: Gen, e: Gen, b: Gen, g': Gen) {
    && s.If? && LabelAt(x.final.labels, |g.labels|) == |e.ir| && (s.els.Some? ==> LabelAt(x.final.labels, |g.labels| + 1) == |b.ir|)
    && OnlyCode(h, i) && Within(g, h, i, g', |h.labels|) && Within(g, i, a, g', |h.labels|) && Within(g, e, b, g', |h.labels|)
    && Placed(h, i, x.final) && At(x, i, a) && At(x, e, b) && x.slots <= h.locals && g'.ir == b.ir
  }

  lemma IfStates(s: Item, g: Gen) returns (h: Gen, i: Gen, a: Gen, e: Gen, b: Gen)
    requires s.If? && EmitItem(s, g).Ok?
    ensures IfLaidOut(s, g, h, i, a, e, b, Generator.After(EmitItem(s, g), g))
  {
    h := if s.els.Some? then g.NewLabel().NewLabel() else g.NewLabel();
    i := EmitTests(s.cond, |g.labels|, true, h).value;
    a := EmitItem(s.thn, i).value;
    e := if s.els.Some? then a.Emit(Jump(|g.labels| + 1)).Mark(|g.labels|) else a;
    b := if s.els.Some? then EmitItem(s.els.value, e).value else a;
  }

  lemma IfHead(s: Item, g: Gen, h: Gen, i: Gen, a: Gen, e: Gen, b: Gen, g': Gen)
    requires IfLaidOut(s, g, h, i, a, e, b, g')
    ensures Grown(g, h, |h.labels|) && Grown(h, i, |h.labels|) && Grown(i, a, |h.labels|) && Grown(i, a, 0)
    ensures OnlyCode(h, i)
    ensures Restored(g, h) && Restored(g, i) && Restored(g, a) && |h.labels| <= |i.labels| <= |a.labels|
  {
    hide Grown;
    var lo := |h.labels|;
    hide EmitItem, EmitTests;
    LabelGrown(g);
    LabelGrown(g.NewLabel());
    CodeTrans(g, g.NewLabel(), g.NewLabel().NewLabel());
    OnlyIsGrown(g, h, lo);
    EmitTestsGrown(s.cond, |g.labels|, true, h);
    OnlyIsGrown(h, i, lo);
    ItemGrown(s.thn, i, lo);
    ItemGrown(s.thn, i, 0);
    LabelsGrow(h, i, lo);
    LabelsGrow(i, a, lo);
  }

  lemma IfTail(s: Item, g: Gen, h: Gen, i: Gen, a: Gen, e: Gen, b: Gen, g': Gen)
    requires IfLaidOut(s, g, h, i, a, e, b, g') && |h.labels| <= |a.labels| && Restored(g, a)
    ensures Grown(a, e, |h.labels|) && Grown(e, b, |h.labels|) && Grown(b, g', |h.labels|) && Restored(g, e)
    ensures LabelAt(g'.labels, |g.labels|) == |e.ir| && (s.If? && s.els.Some? ==> LabelAt(g'.labels, |g.labels| + 1) == |b.ir|)
    ensures g'.ir == b.ir && |a.labels| <= |e.labels|
  {
    hide Grown;
    var lo := |h.labels|;
    SameGrown(a, lo);
    MarkGrown(b, |h.labels| - 1, lo);
    if s.els.Some? {
      var j := a.Emit(Jump(|g.labels| + 1));
      EmitsGrown(a, Jump(|g.labels| + 1), lo);
      MarkGrown(j, |g.labels|, lo);
      GrownTrans(a, j, e, lo);
      ItemGrown(s.els.value, e, lo);
      ItemGrown(s.els.value, e, 0);
      HeldLabel(e, b, |g.labels|);
      LabelsGrow(e, b, lo);
    }
  }

  lemma IfParts(x: Ctx, s: Item, g: Gen, h: Gen, i: Gen, a: Gen, e: Gen, b: Gen, g': Gen)
    requires IfLaidOut(s, g, h, i, a, e, b, g') && At(x, g, g')
    ensures IfInPlace(x, s, g, h, i, a, e, b, g')
  {
    hide Grown, OnlyCode, Placed, TableBefore, Sheltered, Covered, Targets, Within, EmitItem, EmitTests;
    var lo := |h.labels|;
    IfHead(s, g, h, i, a, e, b, g');
    IfTail(s, g, h, i, a, e, b, g');
    GrownTrans(g, h, i, lo);
    GrownTrans(g, i, a, lo);
    GrownTrans(g, a, e, lo);
    GrownTrans(e, b, g', lo);
    GrownTrans(a, e, g', lo);
    GrownTrans(i, a, g', lo);
    GrownTrans(h, i, g', lo);
    WithinFrom(g, h, i, g', lo);
    WithinFrom(g, i, a, g', lo);
    WithinFrom(g, e, b, g', lo);
    TargetsKept(g, i);
    TargetsKept(g, e);
    WithinPlaced(g, h, i, g', lo, x.final);
    Piece(x, g, i, a, g', lo);
    Piece(x, g, e, b, g', lo);
    FinalAt(g, h, |g.labels|, g', x.final);
    if s.els.Some? {
      FinalAt(g, h, |g.labels| + 1, g', x.final);
    }
  }

  // ---- Labelled blocks ----

  lemma BlockParts(x: Ctx, s: Item, g: Gen) returns (a: Gen, b: Gen)
    requires s.Block? && s.tag.Some? && EmitItem(s, g).Ok? && At(x, g, Generator.After(EmitItem(s, g), g))
    ensures a == g.PushBreak(s.tag) && EmitItems(s.stmts, a) == Ok(b) && Generator.After(EmitItem(s, g), g).ir == b.ir
    ensures At(x, a, b) && Within(g, a, b, Generator.After(EmitItem(s, g), g), |g.labels| + 1)
    ensures LabelAt(x.final.labels, |g.labels|) == |b.ir|
  {
    hide Grown, Placed, TableBefore, Sheltered, Covered, Targets, Within;
    var lo := |g.labels| + 1;
    var g' := EmitItem(s, g).value;
    a := g.PushBreak(s.tag);
    b := EmitItems(s.stmts, a).value;
    GrownSelf(g);
    GrownPushes(g, g, s.tag);
    GrownFrom(g, a, 0, lo);
    ItemsGrown(s.stmts, a, lo);
    LabelsGrow(a, b, lo);
    MarkGrown(b, |g.labels|, lo);
    PopsGrown(b.Mark(|g.labels|), lo);
    GrownTrans(b, b.Mark(|g.labels|), g', lo);
    WithinFrom(g, a, b, g', lo);
    TargetsKept(g, a);
    Piece(x, g, a, b, g', lo);
    GrownTrans(a, b, g', lo);
    FinalAt(g, a, |g.labels|, g', x.final);
  }
}
