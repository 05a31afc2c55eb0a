/** Compilation fails on exactly the programs it should: a break or continue without target, or an assignment to
    something other than an identifier. */
module Compilable {
  import opened Ast
  import opened IrBuilder
  import opened Generator
  import opened GeneratorFacts
  import opened Wrappers

  // ---- What can be compiled ----

  predicate AssignsToNames(e: Expr) {
    match e
    case Literal(_) => true
    case Ident(_) => true
    case Assign(_, lhs, rhs) => UnwrapParen(lhs).Ident? && AssignsToNames(rhs)
    case Binary(_, l, r) => AssignsToNames(l) && AssignsToNames(r)
    case And(l, r) => AssignsToNames(l) && AssignsToNames(r)
    case Or(l, r) => AssignsToNames(l) && AssignsToNames(r)
    case Ternary(t, a, b) => AssignsToNames(t) && AssignsToNames(a) && AssignsToNames(b)
    case Paren(es) => AllAssignToNames(es)
    case Unary(_, x) => AssignsToNames(x)
    case Incr(_, x) => UnwrapParen(x).Ident?
  }

  predicate AllAssignToNames(es: Exprs) {
    match es
    case Last(e) => AssignsToNames(e)
    case More(e, rest) => AssignsToNames(e) && AllAssignToNames(rest)
  }

  predicate VarsAssign(vars: seq<Var>) {
    forall i :: 0 <= i < |vars| && vars[i].init.Some? ==> AssignsToNames(vars[i].init.value)
  }

  predicate InitAssigns(init: ForInit) {
    match init
    case NoInit => true
    case ExprInit(es) => AllAssignToNames(es)
    case VarInit(vars) => VarsAssign(vars)
  }

  /** The enclosing targets, outermost first, by their names. */
  predicate HasTarget(names: seq<Option<Label>>, name: Option<Label>) {
    if name.None? then names != [] else name in names
  }

  predicate Targeted(s: Item, breaks: seq<Option<Label>>, continues: seq<Option<Label>>) {
    match s
    case Block(tag, stmts) => AllTargeted(stmts, if tag.Some? then breaks + [tag] else breaks, continues)
    case Break(name) => HasTarget(breaks, name)
    case Continue(name) => HasTarget(continues, name)
    case Do(tag, test, body) => Targeted(body, breaks + [tag], continues + [tag]) && AssignsToNames(test)
    case ExprStmt(es) => AllAssignToNames(es)
    case For(tag, init, test, incr, body) =>
      && InitAssigns(init) && Targeted(body, breaks + [tag], continues + [tag])
      && (test.Some? ==> AllAssignToNames(test.value)) && (incr.Some? ==> AllAssignToNames(incr.value))
    case If(cond, a, b) => AllAssignToNames(cond) && Targeted(a, breaks, continues) && (b.Some? ==> Targeted(b.value, breaks, continues))
    case Return(es) => es.Some? ==> AllAssignToNames(es.value)
    case Switch(tag, disc, clauses) => AllAssignToNames(disc) && GuardsAssign(clauses) && ClausesTargeted(clauses, breaks + [tag], continues)
    case Throw(es) => AllAssignToNames(es)
    case Try(stmts, _, handler) => AllTargeted(stmts, breaks, continues) && AllTargeted(handler, breaks, continues)
    case VarDecl(vars) => VarsAssign(vars)
    case While(tag, test, body) => Targeted(body, breaks + [tag], continues + [tag]) && AssignsToNames(test)
    case _ => true
  }

  predicate AllTargeted(ss: Items, breaks: seq<Option<Label>>, continues: seq<Option<Label>>) {
    ss.Cons? ==> Targeted(ss.head, breaks, continues) && AllTargeted(ss.tail, breaks, continues)
  }

  predicate GuardsAssign(cs: Clauses) {
    match cs
    case NoClauses => true
    case Case(guard, _, rest) => AllAssignToNames(guard) && GuardsAssign(rest)
    case Default(_, rest) => GuardsAssign(rest)
  }

  predicate ClausesTargeted(cs: Clauses, breaks: seq<Option<Label>>, continues: seq<Option<Label>>) {
    !cs.NoClauses? ==> AllTargeted(cs.stmts, breaks, continues) && ClausesTargeted(cs.rest, breaks, continues)
  }

  // ---- Expressions ----

  lemma {:induction false} ExprCompiles(e: Expr, leave: bool, g: Gen)
    ensures EmitExpr(e, leave, g).Ok? <==> AssignsToNames(e)
    decreases e, 1
  {
    match e
    case Literal(_) =>
    case Ident(_) =>
    case Assign(op, lhs, rhs) =>
      var target := UnwrapParen(lhs);
      if target.Ident? {
        ExprCompiles(rhs, true, if op.None? then g else g.Emit(LoadLocal(target.slot)));
      }
    case Binary(op, l, r) =>
      ExprCompiles(l, true, g);
      if EmitExpr(l, true, g).Ok? {
        ExprCompiles(r, true, EmitExpr(l, true, g).value);
      }
    case And(l, r) => LogicalCompiles(e, l, r, leave, g);
    case Or(l, r) => LogicalCompiles(e, l, r, leave, g);
    case Ternary(t, a, b) => TernaryCompiles(e, t, a, b, leave, g);
    case Paren(es) => ExprsCompile(es, leave, g);
    case Unary(op, x) => ExprCompiles(x, true, g);
    case Incr(_, _) =>
  }

  lemma {:induction false} LogicalCompiles(e: Expr, l: Expr, r: Expr, leave: bool, g: Gen)
    requires e == And(l, r) || e == Or(l, r)
    ensures EmitLogical(e, leave, g).Ok? <==> AssignsToNames(l) && AssignsToNames(r)
    decreases e, 0
  {
    ExprCompiles(l, true, g.NewLabel());
    var r1 := EmitExpr(l, true, g.NewLabel());
    if r1.Ok? {
      var jump := if e.And? then JumpFalse(|g.labels|) else JumpTrue(|g.labels|);
      ExprCompiles(r, true, r1.value.Emit(Dup).Emit(Ir.UnaryOp(ToBoolean)).Emit(jump).Emit(Pop));
    }
  }

  lemma {:induction false} TernaryCompiles(e: Expr, t: Expr, a: Expr, b: Expr, leave: bool, g: Gen)
    requires e == Ternary(t, a, b)
    ensures EmitExpr(e, leave, g).Ok? <==> AssignsToNames(t) && AssignsToNames(a) && AssignsToNames(b)
    decreases e, 0
  {
    var els := |g.labels|;
    TestCompiles(t, els, true, g.NewLabel().NewLabel());
    var r1 := EmitTest(t, els, true, g.NewLabel().NewLabel());
    if r1.Ok? {
      ExprCompiles(a, leave, r1.value);
      var r2 := EmitExpr(a, leave, r1.value);
      if r2.Ok? {
        ExprCompiles(b, leave, r2.value.Emit(Jump(els + 1)).Mark(els));
      }
    }
  }

  lemma {:induction false} TestCompiles(e: Expr, at: nat, inverse: bool, g: Gen)
    ensures EmitTest(e, at, inverse, g).Ok? <==> AssignsToNames(e)
    decreases e, 2
  {
    ExprCompiles(e, true, g);
  }

  lemma {:induction false} ExprsCompile(es: Exprs, leave: bool, g: Gen)
    ensures EmitExprs(es, leave, g).Ok? <==> AllAssignToNames(es)
    decreases es, 3
  {
    match es
    case Last(e) => ExprCompiles(e, leave, g);
    case More(e, rest) =>
      ExprCompiles(e, false, g);
      if EmitExpr(e, false, g).Ok? {
        ExprsCompile(rest, leave, EmitExpr(e, false, g).value);
      }
  }

  lemma {:induction false} TestsCompile(es: Exprs, at: nat, inverse: bool, g: Gen)
    ensures EmitTests(es, at, inverse, g).Ok? <==> AllAssignToNames(es)
    decreases es, 3
  {
    match es
    case Last(e) => TestCompiles(e, at, inverse, g);
    case More(e, rest) =>
      ExprCompiles(e, false, g);
      if EmitExpr(e, false, g).Ok? {
        TestsCompile(rest, at, inverse, EmitExpr(e, false, g).value);
      }
  }

  lemma {:induction false} VarsCompile(vars: seq<Var>, g: Gen)
    ensures EmitVars(vars, g).Ok? <==> VarsAssign(vars)
    decreases vars
  {
    if vars != [] {
      assert forall i :: 0 < i < |vars| ==> vars[i] == vars[1..][i - 1];
      assert VarsAssign(vars) <==> (vars[0].init.Some? ==> AssignsToNames(vars[0].init.value)) && VarsAssign(vars[1..]);
      if vars[0].init.None? {
        VarsCompile(vars[1..], g);
      } else {
        ExprCompiles(vars[0].init.value, true, g);
        var r := EmitExpr(vars[0].init.value, true, g);
        if r.Ok? {
          VarsCompile(vars[1..], r.value.Emit(StoreLocal(vars[0].slot)));
        }
      }
    }
  }

  lemma InitCompiles(init: ForInit, g: Gen)
    ensures EmitInit(init, g).Ok? <==> InitAssigns(init)
  {
    match init
    case NoInit =>
    case ExprInit(es) => ExprsCompile(es, false, g);
    case VarInit(vars) => VarsCompile(vars, g);
  }

  // ---- Statements ----

  function Names(targets: seq<NamedLabel>): seq<Option<Label>> {
    seq(|targets|, i requires 0 <= i < |targets| => targets[i].name)
  }

  lemma {:induction false} TargetFound(targets: seq<NamedLabel>, name: Option<Label>)
    ensures GetTarget(targets, name).Ok? <==> HasTarget(Names(targets), name)
    decreases targets
  {
    if targets != [] {
      var rest := targets[..|targets| - 1];
      TargetFound(rest, name);
      assert Names(targets) == Names(rest) + [targets[|targets| - 1].name];
    }
  }

  lemma NamesPushed(targets: seq<NamedLabel>, name: Option<Label>, at: nat, depth: nat)
    ensures Names(targets + [NamedLabel(name, at, depth)]) == Names(targets) + [name]
  {
  }

  /** A statement can be compiled exactly if it assigns to names only and every break and continue has a target. */
  lemma {:induction false} ItemCompiles(s: Item, g: Gen)
    ensures EmitItem(s, g).Ok? <==> Targeted(s, Names(g.breaks), Names(g.continues))
    decreases s, 1
  {
    hide EmitItems, EmitExprs, EmitTests, EmitTest, EmitVars, Names, GetTarget, HasTarget, AllTargeted,
      AssignsToNames, AllAssignToNames;
    match s
    case Block(tag, stmts) =>
      NamesPushed(g.breaks, tag, |g.labels|, g.depth);
      ItemsCompile(stmts, if tag.None? then g else g.PushBreak(tag));
    case Break(name) => TargetFound(g.breaks, name);
    case Continue(name) => TargetFound(g.continues, name);
    case Do(_, _, _) => LoopCompiles(s, g);
    case ExprStmt(es) => ExprsCompile(es, false, g);
    case For(_, _, _, _, _) => ForCompiles(s, g);
    case If(_, _, _) => IfCompiles(s, g);
    case Return(es) =>
      if es.Some? {
        ExprsCompile(es.value, true, g);
      }
    case Switch(_, _, _) => SwitchCompiles(s, g);
    case Throw(es) => ExprsCompile(es, true, g);
    case Try(_, _, _) => TryCompiles(s, g);
    case VarDecl(vars) => VarsCompile(vars, g);
    case While(_, _, _) => LoopCompiles(s, g);
    case _ =>
  }

  lemma {:induction false} ItemsCompile(ss: Items, g: Gen)
    ensures EmitItems(ss, g).Ok? <==> AllTargeted(ss, Names(g.breaks), Names(g.continues))
    decreases ss, 0
  {
    hide EmitItem, Names, Targeted, Grown;
    if ss.Cons? {
      ItemCompiles(ss.head, g);
      if EmitItem(ss.head, g).Ok? {
        EmitItemGrown(ss.head, g);
        ItemsCompile(ss.tail, EmitItem(ss.head, g).value);
      }
    }
  }

  lemma {:induction false} LoopCompiles(s: Item, g: Gen)
    requires s.While? || s.Do?
    ensures EmitItem(s, g).Ok? <==> Targeted(s, Names(g.breaks), Names(g.continues))
    decreases s, 0
  {
    hide EmitTest, Names, AssignsToNames;
    NamesPushed(g.breaks, s.tag, |g.labels|, g.depth);
    NamesPushed(g.continues, s.tag, |g.labels| + 1, g.depth);
    var h := LoopStart(s.tag, g);
    var a := (if s.While? then h.Emit(Jump(|g.labels| + 1)) else h).Mark(|g.labels| + 2);
    ItemCompiles(s.body, a);
    var r := EmitItem(s.body, a);
    if r.Ok? {
      TestCompiles(s.test, |g.labels| + 2, false, r.value.Mark(|g.labels| + 1));
    }
  }

  lemma {:induction false} ForCompiles(s: Item, g: Gen)
    requires s.For?
    ensures EmitItem(s, g).Ok? <==> Targeted(s, Names(g.breaks), Names(g.continues))
    decreases s, 0
  {
    hide EmitTests, EmitInit, EmitExprs, Names, AllAssignToNames, InitAssigns, OnlyCode;
    NamesPushed(g.breaks, s.tag, |g.labels|, g.depth);
    NamesPushed(g.continues, s.tag, |g.labels| + 1, g.depth);
    var h := LoopStart(s.tag, g).NewLabel();
    InitCompiles(s.init, h);
    var r1 := EmitInit(s.init, h);
    if r1.Ok? {
      EmitInitGrown(s.init, h);
      CodeIsGrown(h, r1.value);
      var a := r1.value.Emit(Jump(|g.labels| + 2)).Mark(|g.labels| + 3);
      ItemCompiles(s.body, a);
      var r2 := EmitItem(s.body, a);
      if r2.Ok? {
        var m := r2.value.Mark(|g.labels| + 1);
        if s.incr.Some? {
          ExprsCompile(s.incr.value, false, m);
        }
        var r3 := if s.incr.Some? then EmitExprs(s.incr.value, false, m) else Ok(m);
        if r3.Ok? && s.ftest.Some? {
          TestsCompile(s.ftest.value, |g.labels| + 3, false, r3.value.Mark(|g.labels| + 2));
        }
      }
    }
  }

  lemma {:induction false} IfCompiles(s: Item, g: Gen)
    requires s.If?
    ensures EmitItem(s, g).Ok? <==> Targeted(s, Names(g.breaks), Names(g.continues))
    decreases s, 0
  {
    hide EmitTests, Names, AllAssignToNames, OnlyCode, Grown;
    var h := if s.els.Some? then g.NewLabel().NewLabel() else g.NewLabel();
    TestsCompile(s.cond, |g.labels|, true, h);
    var r1 := EmitTests(s.cond, |g.labels|, true, h);
    if r1.Ok? {
      EmitTestsGrown(s.cond, |g.labels|, true, h);
      CodeIsGrown(h, r1.value);
      ItemCompiles(s.thn, r1.value);
      var r2 := EmitItem(s.thn, r1.value);
      if r2.Ok? && s.els.Some? {
        EmitItemGrown(s.thn, r1.value);
        ItemCompiles(s.els.value, r2.value.Emit(Jump(|g.labels| + 1)).Mark(|g.labels|));
      }
    }
  }

  lemma {:induction false} TryCompiles(s: Item, g: Gen)
    requires s.Try?
    ensures EmitItem(s, g).Ok? <==> Targeted(s, Names(g.breaks), Names(g.continues))
    decreases s, 0
  {
    hide Names, AllTargeted, Grown, EmitItems;
    ItemsCompile(s.stmts, TryStart(g));
    var r := EmitItems(s.stmts, TryStart(g));
    if r.Ok? {
      EmitItemsGrown(s.stmts, TryStart(g));
      ItemsCompile(s.handler, CatchStart(r.value, |g.labels|, s.catchSlot));
    }
  }

  lemma {:induction false} SwitchCompiles(s: Item, g: Gen)
    requires s.Switch?
    ensures EmitItem(s, g).Ok? <==> Targeted(s, Names(g.breaks), Names(g.continues))
    decreases s, 0
  {
    hide EmitExprs, EmitGuards, EmitClauses, Names, AllAssignToNames, GuardsAssign, ClausesTargeted, OnlyCode;
    NamesPushed(g.breaks, s.tag, |g.labels|, g.depth);
    var h := g.PushBreak(s.tag).NewLocal();
    ExprsCompile(s.disc, true, h);
    var r1 := EmitExprs(s.disc, true, h);
    if r1.Ok? {
      EmitExprsGrown(s.disc, true, h);
      CodeIsGrown(h, r1.value);
      var t := r1.value.Emit(StoreLocal(g.locals));
      GuardsCompile(s.clauses, g.locals, None, t);
      var r2 := EmitGuards(s.clauses, g.locals, None, t);
      if r2.Ok? {
        EmitGuardsGrown(s.clauses, g.locals, None, t);
        CodeIsGrown(t, r2.value.0);
        ClausesCompile(s.clauses, r2.value.1, r2.value.0.Emit(Jump(if r2.value.2.Some? then r2.value.2.value else |g.labels|)));
      }
    }
  }

  lemma {:induction false} GuardsCompile(cs: Clauses, slot: nat, default: Option<nat>, g: Gen)
    ensures EmitGuards(cs, slot, default, g).Ok? <==> GuardsAssign(cs)
    ensures EmitGuards(cs, slot, default, g).Ok? ==> |GuardLabels(cs, slot, default, g)| == Count(cs)
    decreases cs
  {
    match cs
    case NoClauses =>
    case Default(_, rest) => GuardsCompile(rest, slot, Some(|g.labels|), g.NewLabel());
    case Case(guard, _, rest) =>
      ExprsCompile(guard, true, g.NewLabel().Emit(LoadLocal(slot)));
      var r := EmitExprs(guard, true, g.NewLabel().Emit(LoadLocal(slot)));
      if r.Ok? {
        GuardsCompile(rest, slot, default, r.value.Emit(JumpStrictEq(|g.labels|)));
      }
  }

  lemma {:induction false} ClausesCompile(cs: Clauses, targets: seq<nat>, g: Gen)
    requires |targets| == Count(cs)
    ensures EmitClauses(cs, targets, g).Ok? <==> ClausesTargeted(cs, Names(g.breaks), Names(g.continues))
    decreases cs
  {
    hide Names, AllTargeted, Grown, EmitItems;
    if !cs.NoClauses? {
      var a := g.Mark(targets[0]);
      ItemsCompile(cs.stmts, a);
      if EmitItems(cs.stmts, a).Ok? {
        EmitItemsGrown(cs.stmts, a);
        ClausesCompile(cs.rest, targets[1..], EmitItems(cs.stmts, a).value);
      }
    }
  }

  /** The same for a function body, which has no targets around it. */
  lemma FunctionCompiles(slots: nat, body: Items)
    ensures Compile(slots, body).Ok? <==> AllTargeted(body, [], [])
  {
    hide EmitItems, AllTargeted;
    var p := Prolog(slots, Start(slots));
    PrologTargets(slots, Start(slots));
    ItemsCompile(body, p);
    assert Names([]) == [];
  }

  lemma {:induction false} PrologTargets(k: nat, g: Gen)
    ensures Prolog(k, g).breaks == g.breaks && Prolog(k, g).continues == g.continues
  {
    if k > 0 {
      PrologTargets(k - 1, g);
    }
  }
}
