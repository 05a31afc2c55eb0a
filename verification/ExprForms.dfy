/** Every form of expression and its code, for the balance of the operand stack: names, labels and values are left
    out, and a jump is by as many instructions as it skips. */
module ExprForms {
  import opened Wrappers
  import opened StackBalance

  // ---- Expressions ----

  /** Where an identifier was resolved to: a scope object, the global object, a local, a parameter of a function that
      uses arguments, or the function's own name. */
  datatype Place = Scoped | Global | Slot | Arg | Callee

  datatype Increment = PreIncr | PostIncr | PreDecr | PostDecr

  datatype Unary = Delete | TypeOf | Step(how: Increment) | Void | Value

  datatype Expr =
    | ArrayLiteral(elements: List)
    | Assign(compound: bool, lhs: Expr, rhs: Expr)
    | Binary(left: Expr, right: Expr)
    | Logical(left: Expr, right: Expr)
    | CallTo(callee: Expr, args: List)
    | Cast(e: Expr)
    | Function
    | Ident(place: Place)
    | Literal
    | MemberDot(target: Expr)
    | MemberIndex(target: Expr, index: Exprs)
    | Missing
    | NewOf(e: Expr)
    | ObjectLiteral(props: Props)
    | Paren(exprs: Exprs)
    | Ternary(test: Expr, thn: Expr, els: Expr)
    | This
    | Operator(op: Unary, e: Expr)

  /** A sequence that is never empty. */
  datatype Exprs = Last(e: Expr) | More(e: Expr, rest: Exprs)

  datatype List = Nil | Cons(e: Expr, rest: List)

  /** A property by name or by literal, or a getter or setter. */
  datatype Props = NoProps | Named(value: Expr, rest: Props) | Keyed(value: Expr, rest: Props) | Accessor(rest: Props)

  function UnwrapParen(e: Expr): (r: Expr)
    ensures r == e || r < e
  {
    if e.Paren? && e.exprs.Last? then e.exprs.e else e
  }

  /** The identifier behind parentheses, of which only the last expression is looked at. */
  function UnwrapIdent(e: Expr): Option<Place>
    decreases e, 1
  {
    match e
    case Ident(p) => Some(p)
    case Paren(es) => LastIdent(es)
    case _ => None
  }

  function LastIdent(es: Exprs): Option<Place>
    decreases es, 0
  {
    match es
    case Last(e) => UnwrapIdent(e)
    case More(_, rest) => LastIdent(rest)
  }

  function Count(es: List): nat {
    if es.Nil? then 0 else 1 + Count(es.rest)
  }

  /** One more than the position of the last element that is given. */
  function Given(es: List, at: nat): nat {
    if es.Nil? then 0
    else
      var later := Given(es.rest, at + 1);
      if later > 0 then later else if es.e.Missing? then 0 else at + 1
  }

  predicate LastMissing(es: List) {
    es.Cons? && if es.rest.Nil? then es.e.Missing? else LastMissing(es.rest)
  }

  // ---- Code ----

  /** Emitted code, or an expression that cannot be compiled. */
  datatype Out = Out(ir: seq<Ir>, ok: bool) {
    function Do(i: Ir): Out {
      Out(ir + [i], ok)
    }

    function Then(o: Out): Out {
      Out(ir + o.ir, ok && o.ok)
    }

    function PopUnless(leave: bool): Out {
      if leave then this else Do(Pop)
    }
  }

  const NOTHING := Out([], true)

  const FAILS := Out([], false)

  function Emit(e: Expr, leave: bool): Out
    decreases e, 3
  {
    match e
    case ArrayLiteral(es) =>
      if !leave then EmitDiscarded(es)
      else
        var o := EmitElements(NOTHING.Do(NewArray), es);
        if Given(es, 0) != (if LastMissing(es) then Count(es) - 1 else Count(es)) then o.Do(Dup).Do(LoadI32).Do(StoreName) else o
    case Assign(_, _, _) => EmitAssign(e, leave)
    case Binary(l, r) => Emit(l, true).Then(Emit(r, true)).Do(BinaryOp).PopUnless(leave)
    case Logical(l, r) =>
      var right := NOTHING.Do(Pop).Then(Emit(r, true));
      Emit(l, true).Do(Dup).Do(ToBoolean).Then(Out([Branch(|right.ir|)] + right.ir, right.ok)).PopUnless(leave)
    case CallTo(callee, args) => EmitCallee(callee).Then(EmitArgs(args)).Do(Call(Count(args))).PopUnless(leave)
    case Cast(x) => Emit(x, true).Do(Convert)
    case Function => NOTHING.Do(LoadFunction).PopUnless(leave)
    case Ident(p) => EmitLoad(p).PopUnless(leave)
    case Literal => if leave then NOTHING.Do(LoadValue) else NOTHING
    case MemberDot(x) => Emit(x, true).Do(LoadName).PopUnless(leave)
    case MemberIndex(_, _) => EmitMemberTarget(e, false).Do(LoadIndex).PopUnless(leave)
    case Missing => FAILS
    case NewOf(x) => EmitNew(x).PopUnless(leave)
    case ObjectLiteral(props) => if leave then EmitProps(NOTHING.Do(NewObject), props) else EmitValues(props)
    case Paren(es) => EmitExprs(es, leave)
    case Ternary(test, a, b) =>
      var x, y := Emit(a, leave), Emit(b, leave);
      Emit(test, true).Then(Out(Either(x.ir, y.ir), x.ok && y.ok))
    case This => if leave then NOTHING.Do(LoadThis) else NOTHING
    case Operator(_, _) => EmitUnary(e, leave)
  }

  function EmitExprs(es: Exprs, leave: bool): Out
    decreases es, 0
  {
    match es
    case Last(e) => Emit(e, leave)
    case More(e, rest) => Emit(e, false).Then(EmitExprs(rest, leave))
  }

  function EmitArgs(es: List): Out
    decreases es, 0
  {
    if es.Nil? then NOTHING else Emit(es.e, true).Then(EmitArgs(es.rest))
  }

  /** The array is on top of the stack; a missing element is left out. */
  function EmitElements(o: Out, es: List): Out
    decreases es, 0
  {
    if es.Nil? then o
    else if es.e.Missing? then EmitElements(o, es.rest)
    else EmitElements(o.Do(Dup).Do(LoadI32).Then(Emit(es.e, true)).Do(StoreIndexUnchecked), es.rest)
  }

  function EmitDiscarded(es: List): Out
    decreases es, 0
  {
    if es.Nil? then NOTHING else Emit(es.e, false).Then(EmitDiscarded(es.rest))
  }

  /** The object is on top of the stack. */
  function EmitProps(o: Out, props: Props): Out
    decreases props, 0
  {
    match props
    case NoProps => o
    case Named(v, rest) => EmitProps(o.Do(Dup).Then(Emit(v, true)).Do(StoreNameUnchecked), rest)
    case Keyed(v, rest) => EmitProps(o.Do(Dup).Do(LoadValue).Then(Emit(v, true)).Do(StoreIndexUnchecked), rest)
    case Accessor(rest) => EmitProps(o.Do(Dup).Do(StoreAccessorUnchecked), rest)
  }

  function EmitValues(props: Props): Out
    decreases props, 0
  {
    match props
    case NoProps => NOTHING
    case Named(v, rest) => Emit(v, false).Then(EmitValues(rest))
    case Keyed(v, rest) => Emit(v, false).Then(EmitValues(rest))
    case Accessor(rest) => EmitValues(rest)
  }

  function EmitLoad(p: Place): Out {
    match p
    case Arg => NOTHING.Do(LoadArguments).Do(LoadName)
    case Callee => NOTHING.Do(LoadFunction)
    case _ => NOTHING.Do(LoadIdent)
  }

  function EmitStore(o: Out, p: Place): Out {
    match p
    case Arg => o.Do(LoadArguments).Do(StoreName)
    case Callee => o.Do(Pop)
    case _ => o.Do(StoreIdent)
  }

  /** The target and the index; with `dup` the target twice. */
  function EmitMemberTarget(m: Expr, dup: bool): Out
    decreases m, 1
  {
    if !m.MemberIndex? then FAILS
    else
      var o := Emit(m.target, true);
      (if dup then o.Do(Dup) else o).Then(EmitExprs(m.index, true)).Do(Pick1).Do(ValidateMemberTarget).Do(ToPropertyKey)
  }

  /** The receiver and the function. */
  function EmitCallee(callee: Expr): Out
    decreases callee, 4
  {
    match callee
    case MemberDot(x) => Emit(x, true).Do(Dup).Do(LoadName)
    case MemberIndex(_, _) => EmitMemberTarget(callee, true).Do(LoadIndex)
    case _ => NOTHING.Do(LoadUndefined).Then(Emit(callee, true))
  }

  function EmitNew(x: Expr): Out
    decreases x, 4
  {
    var o := NOTHING.Do(LoadUndefined);
    if x.CallTo? then o.Then(Emit(x.callee, true)).Then(EmitArgs(x.args)).Do(New(Count(x.args)))
    else o.Then(Emit(x, true)).Do(New(0))
  }

  // ---- Assignments ----

  /** The value to assign. */
  function EmitValue(e: Expr): Out
    decreases e, 1
  {
    if !e.Assign? then FAILS
    else if e.compound then Emit(e.lhs, true).Then(Emit(e.rhs, true)).Do(BinaryOp) else Emit(e.rhs, true)
  }

  /** Stores what is on top into a target below it; a value that is wanted is kept in a local meanwhile. */
  function EmitStoreTail(o: Out, i: Ir, leave: bool): Out {
    if leave then o.Do(Dup).Do(StoreLocal).Do(i).Do(LoadLocal) else o.Do(i)
  }

  function EmitAssign(e: Expr, leave: bool): Out
    decreases e, 2
  {
    if !e.Assign? then FAILS
    else
      var lhs := UnwrapParen(e.lhs);
      match lhs
      case Ident(Arg) =>
        if leave then EmitValue(e).Do(Dup).Do(LoadArguments).Do(Swap).Do(StoreName)
        else NOTHING.Do(LoadArguments).Then(EmitValue(e)).Do(StoreName)
      case Ident(Scoped) => EmitStoreTail(NOTHING.Do(LoadEnvObjectFor).Then(EmitValue(e)), StoreName, leave)
      case Ident(p) => EmitStore(if leave then EmitValue(e).Do(Dup) else EmitValue(e), p)
      case MemberDot(x) => EmitStoreTail(Emit(x, true).Then(EmitValue(e)), StoreName, leave)
      case MemberIndex(_, _) =>
        if e.compound then
          EmitStoreTail(EmitMemberTarget(lhs, false).Do(Pick1).Do(Pick1).Do(LoadIndex).Then(Emit(e.rhs, true)).Do(BinaryOp), StoreIndex, leave)
        else EmitStoreTail(EmitMemberTarget(lhs, false).Then(Emit(e.rhs, true)), StoreIndex, leave)
      case _ => FAILS
  }

  /** The value of what is to be changed, on top of what its store needs. */
  function EmitLhsLoad(lhs: Expr): Out
    decreases lhs, 4
  {
    match lhs
    case Ident(Arg) => NOTHING.Do(LoadArguments).Do(Dup).Do(LoadName)
    case Ident(p) => EmitLoad(p)
    case MemberDot(x) => Emit(x, true).Do(Dup).Do(LoadName)
    case MemberIndex(_, _) => EmitMemberTarget(lhs, false).Do(Pick1).Do(Pick1).Do(LoadIndex)
    case _ => FAILS
  }

  function EmitLhsStore(o: Out, lhs: Expr): Out {
    match lhs
    case Ident(Arg) => o.Do(StoreName)
    case Ident(p) => EmitStore(o, p)
    case MemberDot(_) => o.Do(StoreName)
    case MemberIndex(_, _) => o.Do(StoreIndex)
    case _ => FAILS
  }

  function EmitStep(how: Increment, lhs: Expr, leave: bool): Out
    decreases lhs, 5
  {
    var o := EmitLhsLoad(lhs).Do(ToNumber);
    if !leave then EmitLhsStore(o.Do(LoadI32).Do(BinaryOp), lhs)
    else if how.PreIncr? || how.PreDecr? then EmitLhsStore(o.Do(LoadI32).Do(BinaryOp).Do(Dup).Do(StoreLocal), lhs).Do(LoadLocal)
    else EmitLhsStore(o.Do(Dup).Do(StoreLocal).Do(LoadI32).Do(BinaryOp), lhs).Do(LoadLocal)
  }

  // ---- Other operators ----

  function EmitDelete(x: Expr): Out
    decreases x, 4
  {
    match x
    case MemberDot(y) => Emit(y, true).Do(DeleteName)
    case MemberIndex(_, _) => EmitMemberTarget(x, false).Do(DeleteIndex)
    case _ =>
      var p := UnwrapIdent(x);
      if p.None? then Emit(x, true).Do(LoadBool)
      else if p == Some(Arg) then NOTHING.Do(LoadArguments).Do(DeleteName)
      else if p == Some(Scoped) || p == Some(Global) then NOTHING.Do(FindEnvObjectFor).Do(DeleteEnvName)
      else NOTHING.Do(LoadBool)
  }

  function EmitTypeof(x: Expr): Out
    decreases x, 4
  {
    match x
    case MemberDot(y) => Emit(y, true).Do(TypeofName)
    case MemberIndex(_, _) => EmitMemberTarget(x, false).Do(TypeofIndex)
    case _ =>
      var p := UnwrapIdent(x);
      if p == Some(Arg) then NOTHING.Do(LoadArguments).Do(TypeofName)
      else if p == Some(Scoped) || p == Some(Global) then NOTHING.Do(FindEnvObjectFor).Do(TypeofName)
      else Emit(x, true).Do(Typeof)
  }

  function EmitUnary(e: Expr, leave: bool): Out
    decreases e, 2
  {
    if !e.Operator? then FAILS
    else
      match e.op
      case Delete => EmitDelete(UnwrapParen(e.e)).PopUnless(leave)
      case TypeOf => EmitTypeof(UnwrapParen(e.e)).PopUnless(leave)
      case Step(how) => EmitStep(how, UnwrapParen(e.e), leave)
      case Void => if leave then Emit(e.e, true).Do(Pop).Do(LoadUndefined) else Emit(e.e, true).Do(Pop)
      case Value => Emit(e.e, true).Do(UnaryOp).PopUnless(leave)
  }

  // ---- Which expressions are sound ----

  /** No cast whose value is not wanted, and no delete of something that is no reference, wherever code is emitted. */
  ghost predicate Sound(e: Expr, leave: bool)
    decreases e, 3
  {
    match e
    case ArrayLiteral(es) => SoundList(es, leave)
    case Assign(_, _, _) => SoundAssign(e)
    case Binary(l, r) => Sound(l, true) && Sound(r, true)
    case Logical(l, r) => Sound(l, true) && Sound(r, true)
    case CallTo(callee, args) => SoundCallee(callee) && SoundList(args, true)
    case Cast(x) => leave && Sound(x, true)
    case MemberDot(x) => Sound(x, true)
    case MemberIndex(x, index) => Sound(x, true) && SoundExprs(index, true)
    case NewOf(x) => SoundNew(x)
    case ObjectLiteral(props) => SoundProps(props, leave)
    case Paren(es) => SoundExprs(es, leave)
    case Ternary(test, a, b) => Sound(test, true) && Sound(a, leave) && Sound(b, leave)
    case Operator(op, x) =>
      (match op
       case Delete => SoundReference(UnwrapParen(x), true)
       case TypeOf => SoundReference(UnwrapParen(x), false)
       case Step(_) => SoundTarget(UnwrapParen(x))
       case _ => Sound(x, true))
    case _ => true
  }

  ghost predicate SoundExprs(es: Exprs, leave: bool)
    decreases es, 0
  {
    match es
    case Last(e) => Sound(e, leave)
    case More(e, rest) => Sound(e, false) && SoundExprs(rest, leave)
  }

  ghost predicate SoundList(es: List, leave: bool)
    decreases es, 0
  {
    es.Cons? ==> (if leave && es.e.Missing? then true else Sound(es.e, leave)) && SoundList(es.rest, leave)
  }

  ghost predicate SoundProps(props: Props, leave: bool)
    decreases props, 0
  {
    match props
    case NoProps => true
    case Named(v, rest) => Sound(v, leave) && SoundProps(rest, leave)
    case Keyed(v, rest) => Sound(v, leave) && SoundProps(rest, leave)
    case Accessor(rest) => SoundProps(rest, leave)
  }

  ghost predicate SoundCallee(callee: Expr)
    decreases callee, 4
  {
    if callee.MemberDot? || callee.MemberIndex? then SoundTarget(callee) else Sound(callee, true)
  }

  ghost predicate SoundNew(x: Expr)
    decreases x, 4
  {
    if x.CallTo? then Sound(x.callee, true) && SoundList(x.args, true) else Sound(x, true)
  }

  /** The parts of what is assigned to. */
  ghost predicate SoundTarget(lhs: Expr)
    decreases lhs, 3
  {
    match lhs
    case MemberDot(x) => Sound(x, true)
    case MemberIndex(x, index) => Sound(x, true) && SoundExprs(index, true)
    case _ => true
  }

  ghost predicate SoundReference(x: Expr, delete: bool)
    decreases x, 4
  {
    match x
    case MemberDot(y) => Sound(y, true)
    case MemberIndex(y, index) => Sound(y, true) && SoundExprs(index, true)
    case _ =>
      var p := UnwrapIdent(x);
      if p.None? then !delete && Sound(x, true)
      else delete || p == Some(Arg) || p == Some(Scoped) || p == Some(Global) || Sound(x, true)
  }

  ghost predicate SoundAssign(e: Expr)
    decreases e, 2
  {
    e.Assign? && var lhs := UnwrapParen(e.lhs);
    SoundTarget(lhs) && Sound(e.rhs, true) && (e.compound && !lhs.MemberIndex? ==> Sound(e.lhs, true))
  }

  // ---- The balance ----

  /** If it could be emitted: with `need` values below it, the code adds `d`, exactly if it is sound. */
  ghost predicate Does(o: Out, need: int, d: int, sound: bool) {
    o.ok ==> Exactly(o.ir, need, d, sound)
  }

  lemma DoesNothing()
    ensures Does(NOTHING, 0, 0, true)
  {
    ExactlyNothing();
  }

  lemma DoesDo(o: Out, need: nat, d: int, sound: bool, i: Ir)
    requires Does(o, need, d, sound) && !i.Jump? && !i.Branch? && need + d >= Pops(i)
    ensures Does(o.Do(i), need, d - Pops(i) + Pushes(i), sound)
  {
    hide Exactly;
    if o.ok {
      ExactlyOne(i);
      ExactlyThen(o.ir, need, d, sound, [i], Pops(i), Pushes(i) - Pops(i), true);
    }
  }

  lemma DoesThen(o: Out, need: nat, d: int, sound: bool, p: Out, needs: nat, adds: int, good: bool)
    requires Does(o, need, d, sound) && Does(p, needs, adds, good) && need + d >= needs
    ensures Does(o.Then(p), need, d + adds, sound && good)
  {
    hide Exactly;
    if o.ok && p.ok {
      ExactlyThen(o.ir, need, d, sound, p.ir, needs, adds, good);
    }
  }

  lemma DoesPopUnless(o: Out, sound: bool, leave: bool)
    requires Does(o, 0, 1, sound)
    ensures Does(o.PopUnless(leave), 0, Left(leave), sound)
  {
    hide Does;
    if !leave {
      DoesDo(o, 0, 1, sound, Pop);
    }
  }

  function Left(leave: bool): nat {
    if leave then 1 else 0
  }

  /** The code of every expression that compiles adds one value if it is wanted and none if it is not, exactly if the
      expression is sound; otherwise it adds more. */
  lemma {:induction false} EmitDoes(e: Expr, leave: bool)
    ensures Does(Emit(e, leave), 0, Left(leave), Sound(e, leave))
    decreases e, 3
  {
    hide Does, Out.Do, Out.Then, Out.PopUnless, EmitLoad, EmitNew, EmitCallee, EmitMemberTarget;
    hide EmitAssign, EmitUnary, EmitExprs, EmitElements, EmitDiscarded, EmitProps, EmitValues, EmitArgs, SoundExprs,
      SoundList;
    DoesNothing();
    match e
    case ArrayLiteral(es) => ArrayDoes(es, leave);
    case Assign(_, _, _) => AssignDoes(e, leave);
    case Binary(l, r) =>
      EmitDoes(l, true);
      EmitDoes(r, true);
      BinaryDoes(Emit(l, true), Sound(l, true), Emit(r, true), Sound(r, true), leave);
    case Logical(l, r) =>
      EmitDoes(l, true);
      EmitDoes(r, true);
      LogicalDoes(Emit(l, true), Sound(l, true), Emit(r, true), Sound(r, true), leave);
    case CallTo(callee, args) =>
      CalleeDoes(callee);
      ArgsDo(args);
      CallDoes(EmitCallee(callee), SoundCallee(callee), args, Call(Count(args)));
      DoesPopUnless(EmitCallee(callee).Then(EmitArgs(args)).Do(Call(Count(args))), Sound(e, leave), leave);
    case Cast(x) =>
      EmitDoes(x, true);
      CastDoes(Emit(x, true), Sound(x, true), leave);
    case Function =>
      LeafDoes(LoadFunction);
      DoesPopUnless(NOTHING.Do(LoadFunction), true, leave);
    case Ident(p) =>
      LoadDoes(p);
      DoesPopUnless(EmitLoad(p), true, leave);
    case Literal => LeafDoes(LoadValue);
    case MemberDot(x) =>
      EmitDoes(x, true);
      MemberDoes(Emit(x, true), 1, Sound(x, true), LoadName, leave);
    case MemberIndex(_, _) =>
      MemberTargetDoes(e, false);
      MemberDoes(EmitMemberTarget(e, false), 2, SoundTarget(e), LoadIndex, leave);
    case Missing => FailsDoes(0, Left(leave), Sound(e, leave));
    case NewOf(x) =>
      NewDoes(x);
      DoesPopUnless(EmitNew(x), SoundNew(x), leave);
    case ObjectLiteral(props) => ObjectDoes(props, leave);
    case Paren(es) => ExprsDo(es, leave);
    case Ternary(test, a, b) =>
      EmitDoes(test, true);
      EmitDoes(a, leave);
      EmitDoes(b, leave);
      TernaryDoes(Emit(test, true), Sound(test, true), Emit(a, leave), Sound(a, leave), Emit(b, leave), Sound(b, leave), Left(leave));
    case This => LeafDoes(LoadThis);
    case Operator(_, _) => UnaryDoes(e, leave);
  }

  lemma LeafDoes(i: Ir)
    requires i == LoadFunction || i == LoadValue || i == LoadThis
    ensures Does(NOTHING.Do(i), 0, 1, true)
  {
    hide Does;
    DoesNothing();
    DoesDo(NOTHING, 0, 0, true, i);
  }

  lemma BinaryDoes(l: Out, sl: bool, r: Out, sr: bool, leave: bool)
    requires Does(l, 0, 1, sl) && Does(r, 0, 1, sr)
    ensures Does(l.Then(r).Do(BinaryOp).PopUnless(leave), 0, Left(leave), sl && sr)
  {
    hide Does, Out.Do, Out.Then;
    DoesThen(l, 0, 1, sl, r, 0, 1, sr);
    DoesDo(l.Then(r), 0, 2, sl && sr, BinaryOp);
    DoesPopUnless(l.Then(r).Do(BinaryOp), sl && sr, leave);
  }

  lemma MemberDoes(o: Out, d: nat, sound: bool, i: Ir, leave: bool)
    requires Does(o, 0, d, sound) && ((i == LoadName && d == 1) || (i == LoadIndex && d == 2))
    ensures Does(o.Do(i).PopUnless(leave), 0, Left(leave), sound)
  {
    hide Does, Out.Do;
    DoesDo(o, 0, d, sound, i);
    DoesPopUnless(o.Do(i), sound, leave);
  }

  /** A cast leaves its value whether it is wanted or not. */
  lemma CastDoes(o: Out, sound: bool, leave: bool)
    requires Does(o, 0, 1, sound)
    ensures Does(o.Do(Convert), 0, Left(leave), leave && sound)
  {
    DoesDo(o, 0, 1, sound, Convert);
    hide Goes, Out.Do;
  }

  lemma FailsDoes(need: nat, d: int, sound: bool)
    ensures Does(FAILS, need, d, sound)
  {
  }

  lemma DoesMore(o: Out, need: nat, more: nat, d: int, sound: bool)
    requires Does(o, need, d, sound) && more >= need
    ensures Does(o, more, d, sound)
  {
    hide Exactly;
    if o.ok {
      ExactlyMore(o.ir, need, more, d, sound);
    }
  }

  lemma LogicalDoes(l: Out, sl: bool, r: Out, sr: bool, leave: bool)
    requires Does(l, 0, 1, sl) && Does(r, 0, 1, sr)
    ensures var right := NOTHING.Do(Pop).Then(r);
      Does(l.Do(Dup).Do(ToBoolean).Then(Out([Branch(|right.ir|)] + right.ir, right.ok)).PopUnless(leave), 0, Left(leave), sl && sr)
  {
    hide Does, Out.Do, Out.Then;
    var right := NOTHING.Do(Pop).Then(r);
    DoesNothing();
    DoesMore(NOTHING, 0, 1, 0, true);
    DoesDo(NOTHING, 1, 0, true, Pop);
    DoesThen(NOTHING.Do(Pop), 1, -1, true, r, 0, 1, sr);
    var branch := Out([Branch(|right.ir|)] + right.ir, right.ok);
    BranchDoes(right, sr);
    DoesDo(l, 0, 1, sl, Dup);
    DoesDo(l.Do(Dup), 0, 2, sl, ToBoolean);
    DoesThen(l.Do(Dup).Do(ToBoolean), 0, 2, sl, branch, 2, -1, sr);
    DoesPopUnless(l.Do(Dup).Do(ToBoolean).Then(branch), sl && sr, leave);
  }

  lemma BranchDoes(p: Out, sound: bool)
    requires Does(p, 1, 0, sound)
    ensures Does(Out([Branch(|p.ir|)] + p.ir, p.ok), 2, -1, sound)
  {
    hide Exactly;
    if p.ok {
      ExactlyBranch(p.ir, 1, sound);
    }
  }

  lemma TernaryDoes(test: Out, st: bool, a: Out, sa: bool, b: Out, sb: bool, d: nat)
    requires Does(test, 0, 1, st) && Does(a, 0, d, sa) && Does(b, 0, d, sb)
    ensures Does(test.Then(Out(Either(a.ir, b.ir), a.ok && b.ok)), 0, d, st && sa && sb)
  {
    hide Exactly, Either;
    if a.ok && b.ok {
      ExactlyEither(a.ir, b.ir, d, sa, sb);
    }
    var either := Out(Either(a.ir, b.ir), a.ok && b.ok);
    assert Does(either, 1, d - 1, sa && sb);
    hide Does;
    DoesThen(test, 0, 1, st, either, 1, d - 1, sa && sb);
  }

  lemma {:induction false} ExprsDo(es: Exprs, leave: bool)
    ensures Does(EmitExprs(es, leave), 0, Left(leave), SoundExprs(es, leave))
    decreases es, 0
  {
    hide Does, Emit, Sound;
    match es
    case Last(e) => EmitDoes(e, leave);
    case More(e, rest) =>
      EmitDoes(e, false);
      ExprsDo(rest, leave);
      DoesThen(Emit(e, false), 0, 0, Sound(e, false), EmitExprs(rest, leave), 0, Left(leave), SoundExprs(rest, leave));
  }

  lemma {:induction false} ArgsDo(es: List)
    ensures Does(EmitArgs(es), 0, Count(es), SoundList(es, true))
    decreases es, 0
  {
    hide Does, Emit, Sound;
    DoesNothing();
    if es.Cons? {
      EmitDoes(es.e, true);
      MissingFails(es.e, Sound(es.e, true), es.e.Missing? || Sound(es.e, true));
      ArgsDo(es.rest);
      DoesThen(Emit(es.e, true), 0, 1, es.e.Missing? || Sound(es.e, true), EmitArgs(es.rest), 0, Count(es.rest), SoundList(es.rest, true));
    }
  }

  lemma MissingFails(e: Expr, sound: bool, good: bool)
    requires Does(Emit(e, true), 0, 1, sound) && (e.Missing? || good == sound)
    ensures Does(Emit(e, true), 0, 1, good)
  {
  }

  lemma {:induction false} ElementsDo(o: Out, sound: bool, es: List)
    requires Does(o, 0, 1, sound)
    ensures Does(EmitElements(o, es), 0, 1, sound && SoundList(es, true))
    decreases es, 0
  {
    hide Does, Emit, Sound, Out.Do, Out.Then;
    if es.Cons? && es.e.Missing? {
      ElementsDo(o, sound, es.rest);
    } else if es.Cons? {
      EmitDoes(es.e, true);
      var good := Sound(es.e, true);
      DoesDo(o, 0, 1, sound, Dup);
      DoesDo(o.Do(Dup), 0, 2, sound, LoadI32);
      DoesThen(o.Do(Dup).Do(LoadI32), 0, 3, sound, Emit(es.e, true), 0, 1, good);
      DoesDo(o.Do(Dup).Do(LoadI32).Then(Emit(es.e, true)), 0, 4, sound && good, StoreIndexUnchecked);
      ElementsDo(o.Do(Dup).Do(LoadI32).Then(Emit(es.e, true)).Do(StoreIndexUnchecked), sound && good, es.rest);
    }
  }

  lemma {:induction false} DiscardedDo(es: List)
    ensures Does(EmitDiscarded(es), 0, 0, SoundList(es, false))
    decreases es, 0
  {
    hide Does, Emit, Sound;
    DoesNothing();
    if es.Cons? {
      EmitDoes(es.e, false);
      DiscardedDo(es.rest);
      DoesThen(Emit(es.e, false), 0, 0, Sound(es.e, false), EmitDiscarded(es.rest), 0, 0, SoundList(es.rest, false));
    }
  }

  lemma {:induction false} ArrayDoes(es: List, leave: bool)
    ensures Does(Emit(ArrayLiteral(es), leave), 0, Left(leave), Sound(ArrayLiteral(es), leave))
    decreases es, 1
  {
    hide Does, Out.Do, Out.Then;
    if leave {
      NewDone(NewArray);
      ElementsDo(NOTHING.Do(NewArray), true, es);
      LengthDone(EmitElements(NOTHING.Do(NewArray), es), SoundList(es, true));
    } else {
      DiscardedDo(es);
    }
  }

  lemma NewDone(i: Ir)
    requires i == NewArray || i == NewObject
    ensures Does(NOTHING.Do(i), 0, 1, true)
  {
    hide Does, Out.Do;
    DoesNothing();
    DoesDo(NOTHING, 0, 0, true, i);
  }

  /** Storing the length of an array that ends with holes. */
  lemma LengthDone(o: Out, sound: bool)
    requires Does(o, 0, 1, sound)
    ensures Does(o.Do(Dup).Do(LoadI32).Do(StoreName), 0, 1, sound)
  {
    hide Does, Out.Do;
    DoesDo(o, 0, 1, sound, Dup);
    DoesDo(o.Do(Dup), 0, 2, sound, LoadI32);
    DoesDo(o.Do(Dup).Do(LoadI32), 0, 3, sound, StoreName);
  }

  lemma {:induction false} PropsDo(o: Out, sound: bool, props: Props)
    requires Does(o, 0, 1, sound)
    ensures Does(EmitProps(o, props), 0, 1, sound && SoundProps(props, true))
    decreases props, 0
  {
    hide Does, Emit, Sound, Out.Do, Out.Then;
    DoesDo(o, 0, 1, sound, Dup);
    match props
    case NoProps =>
    case Named(v, rest) =>
      EmitDoes(v, true);
      DoesThen(o.Do(Dup), 0, 2, sound, Emit(v, true), 0, 1, Sound(v, true));
      DoesDo(o.Do(Dup).Then(Emit(v, true)), 0, 3, sound && Sound(v, true), StoreNameUnchecked);
      PropsDo(o.Do(Dup).Then(Emit(v, true)).Do(StoreNameUnchecked), sound && Sound(v, true), rest);
    case Keyed(v, rest) =>
      EmitDoes(v, true);
      DoesDo(o.Do(Dup), 0, 2, sound, LoadValue);
      DoesThen(o.Do(Dup).Do(LoadValue), 0, 3, sound, Emit(v, true), 0, 1, Sound(v, true));
      DoesDo(o.Do(Dup).Do(LoadValue).Then(Emit(v, true)), 0, 4, sound && Sound(v, true), StoreIndexUnchecked);
      PropsDo(o.Do(Dup).Do(LoadValue).Then(Emit(v, true)).Do(StoreIndexUnchecked), sound && Sound(v, true), rest);
    case Accessor(rest) =>
      DoesDo(o.Do(Dup), 0, 2, sound, StoreAccessorUnchecked);
      PropsDo(o.Do(Dup).Do(StoreAccessorUnchecked), sound, rest);
  }

  lemma {:induction false} ValuesDo(props: Props)
    ensures Does(EmitValues(props), 0, 0, SoundProps(props, false))
    decreases props, 0
  {
    hide Does, Emit, Sound;
    DoesNothing();
    if props.Named? || props.Keyed? {
      EmitDoes(props.value, false);
      ValuesDo(props.rest);
      DoesThen(Emit(props.value, false), 0, 0, Sound(props.value, false), EmitValues(props.rest), 0, 0, SoundProps(props.rest, false));
    } else if props.Accessor? {
      ValuesDo(props.rest);
    }
  }

  lemma {:induction false} ObjectDoes(props: Props, leave: bool)
    ensures Does(Emit(ObjectLiteral(props), leave), 0, Left(leave), Sound(ObjectLiteral(props), leave))
    decreases props, 1
  {
    hide Does, Out.Do, Out.Then;
    if leave {
      NewDone(NewObject);
      PropsDo(NOTHING.Do(NewObject), true, props);
    } else {
      ValuesDo(props);
    }
  }

  lemma LoadDoes(p: Place)
    ensures Does(EmitLoad(p), 0, 1, true)
  {
    hide Does, Out.Do;
    DoesNothing();
    DoesDo(NOTHING, 0, 0, true, LoadArguments);
    DoesDo(NOTHING.Do(LoadArguments), 0, 1, true, LoadName);
    DoesDo(NOTHING, 0, 0, true, LoadFunction);
    DoesDo(NOTHING, 0, 0, true, LoadIdent);
  }

  lemma StoreDoes(o: Out, d: nat, sound: bool, p: Place)
    requires Does(o, 0, d, sound) && d >= 1
    ensures Does(EmitStore(o, p), 0, d - 1, sound)
  {
    hide Does, Out.Do;
    DoesDo(o, 0, d, sound, LoadArguments);
    DoesDo(o.Do(LoadArguments), 0, d + 1, sound, StoreName);
    DoesDo(o, 0, d, sound, Pop);
    DoesDo(o, 0, d, sound, StoreIdent);
  }

  lemma {:induction false} MemberTargetDoes(m: Expr, dup: bool)
    requires m.MemberIndex?
    ensures Does(EmitMemberTarget(m, dup), 0, if dup then 3 else 2, SoundTarget(m))
    decreases m, 1
  {
    hide Does, Emit, Sound, EmitExprs, SoundExprs, Out.Do, Out.Then;
    EmitDoes(m.target, true);
    ExprsDo(m.index, true);
    var o, s, t := Emit(m.target, true), Sound(m.target, true), SoundExprs(m.index, true);
    DoesDo(o, 0, 1, s, Dup);
    var p, d := if dup then o.Do(Dup) else o, if dup then 2 else 1;
    DoesThen(p, 0, d, s, EmitExprs(m.index, true), 0, 1, t);
    var q := p.Then(EmitExprs(m.index, true));
    DoesDo(q, 0, d + 1, s && t, Pick1);
    DoesDo(q.Do(Pick1), 0, d + 2, s && t, ValidateMemberTarget);
    DoesDo(q.Do(Pick1).Do(ValidateMemberTarget), 0, d + 1, s && t, ToPropertyKey);
  }

  lemma {:induction false} CalleeDoes(callee: Expr)
    ensures Does(EmitCallee(callee), 0, 2, SoundCallee(callee))
    decreases callee, 4
  {
    hide Does, Emit, Sound, EmitMemberTarget, Out.Do, Out.Then;
    if callee.MemberDot? {
      var x := callee.target;
      EmitDoes(x, true);
      DoesDo(Emit(x, true), 0, 1, Sound(x, true), Dup);
      DoesDo(Emit(x, true).Do(Dup), 0, 2, Sound(x, true), LoadName);
    } else if callee.MemberIndex? {
      MemberTargetDoes(callee, true);
      DoesDo(EmitMemberTarget(callee, true), 0, 3, SoundTarget(callee), LoadIndex);
    } else {
      EmitDoes(callee, true);
      DoesNothing();
      DoesDo(NOTHING, 0, 0, true, LoadUndefined);
      DoesThen(NOTHING.Do(LoadUndefined), 0, 1, true, Emit(callee, true), 0, 1, Sound(callee, true));
    }
  }

  lemma CallEffect(n: nat)
    ensures Pops(Call(n)) == n + 2 == Pops(New(n)) && Pushes(Call(n)) == 1 == Pushes(New(n))
  {
  }

  lemma CallDoes(o: Out, sound: bool, args: List, i: Ir)
    requires Does(o, 0, 2, sound) && Does(EmitArgs(args), 0, Count(args), SoundList(args, true))
    requires i == Call(Count(args)) || i == New(Count(args))
    ensures Does(o.Then(EmitArgs(args)).Do(i), 0, 1, sound && SoundList(args, true))
  {
    CallEffect(Count(args));
    hide Does, Out.Do, Out.Then;
    DoesThen(o, 0, 2, sound, EmitArgs(args), 0, Count(args), SoundList(args, true));
    DoesDo(o.Then(EmitArgs(args)), 0, 2 + Count(args), sound && SoundList(args, true), i);
  }

  lemma {:induction false} NewDoes(x: Expr)
    ensures Does(EmitNew(x), 0, 1, SoundNew(x))
    decreases x, 4
  {
    hide Does, Emit, Sound, Out.Do, Out.Then;
    DoesNothing();
    DoesDo(NOTHING, 0, 0, true, LoadUndefined);
    var o := NOTHING.Do(LoadUndefined);
    if x.CallTo? {
      EmitDoes(x.callee, true);
      ArgsDo(x.args);
      DoesThen(o, 0, 1, true, Emit(x.callee, true), 0, 1, Sound(x.callee, true));
      CallDoes(o.Then(Emit(x.callee, true)), Sound(x.callee, true), x.args, New(Count(x.args)));
    } else {
      EmitDoes(x, true);
      DoesThen(o, 0, 1, true, Emit(x, true), 0, 1, Sound(x, true));
      DoesDo(o.Then(Emit(x, true)), 0, 2, Sound(x, true), New(0));
    }
  }

  // ---- Assignments and operators ----

  ghost predicate SoundValue(e: Expr)
    requires e.Assign?
  {
    Sound(e.rhs, true) && (e.compound ==> Sound(e.lhs, true))
  }

  lemma {:induction false} ValueDoes(e: Expr)
    requires e.Assign?
    ensures Does(EmitValue(e), 0, 1, SoundValue(e))
    decreases e, 1
  {
    hide Does, Emit, Sound, Out.Do, Out.Then;
    EmitDoes(e.rhs, true);
    if e.compound {
      EmitDoes(e.lhs, true);
      DoesThen(Emit(e.lhs, true), 0, 1, Sound(e.lhs, true), Emit(e.rhs, true), 0, 1, Sound(e.rhs, true));
      DoesDo(Emit(e.lhs, true).Then(Emit(e.rhs, true)), 0, 2, SoundValue(e), BinaryOp);
    }
  }

  lemma StoreTailDoes(o: Out, d: nat, sound: bool, i: Ir, leave: bool)
    requires (i == StoreName && d == 2) || (i == StoreIndex && d == 3)
    requires Does(o, 0, d, sound)
    ensures Does(EmitStoreTail(o, i, leave), 0, Left(leave), sound)
  {
    hide Does, Out.Do;
    DoesDo(o, 0, d, sound, i);
    DoesDo(o, 0, d, sound, Dup);
    DoesDo(o.Do(Dup), 0, d + 1, sound, StoreLocal);
    DoesDo(o.Do(Dup).Do(StoreLocal), 0, d, sound, i);
    DoesDo(o.Do(Dup).Do(StoreLocal).Do(i), 0, 0, sound, LoadLocal);
  }

  lemma {:induction false} AssignDoes(e: Expr, leave: bool)
    requires e.Assign?
    ensures Does(EmitAssign(e, leave), 0, Left(leave), SoundAssign(e))
    decreases e, 2
  {
    hide Does, Emit, Sound, EmitValue, EmitStore, EmitStoreTail, Out.Do, Out.Then;
    var lhs, v, s := UnwrapParen(e.lhs), EmitValue(e), SoundValue(e);
    ValueDoes(e);
    DoesNothing();
    DoesDo(v, 0, 1, s, Dup);
    if lhs == Ident(Arg) {
      if leave {
        DoesDo(v.Do(Dup), 0, 2, s, LoadArguments);
        DoesDo(v.Do(Dup).Do(LoadArguments), 0, 3, s, Swap);
        DoesDo(v.Do(Dup).Do(LoadArguments).Do(Swap), 0, 3, s, StoreName);
      } else {
        DoesDo(NOTHING, 0, 0, true, LoadArguments);
        DoesThen(NOTHING.Do(LoadArguments), 0, 1, true, v, 0, 1, s);
        DoesDo(NOTHING.Do(LoadArguments).Then(v), 0, 2, s, StoreName);
      }
    } else if lhs == Ident(Scoped) {
      DoesDo(NOTHING, 0, 0, true, LoadEnvObjectFor);
      DoesThen(NOTHING.Do(LoadEnvObjectFor), 0, 1, true, v, 0, 1, s);
      StoreTailDoes(NOTHING.Do(LoadEnvObjectFor).Then(v), 2, s, StoreName, leave);
    } else if lhs.Ident? {
      StoreDoes(if leave then v.Do(Dup) else v, if leave then 2 else 1, s, lhs.place);
    } else if lhs.MemberDot? {
      var x := lhs.target;
      EmitDoes(x, true);
      DoesThen(Emit(x, true), 0, 1, Sound(x, true), v, 0, 1, s);
      StoreTailDoes(Emit(x, true).Then(v), 2, Sound(x, true) && s, StoreName, leave);
    } else if lhs.MemberIndex? {
      IndexAssignDoes(e, lhs, leave);
    } else {
      FailsDoes(0, Left(leave), SoundAssign(e));
    }
  }

  lemma {:induction false} IndexAssignDoes(e: Expr, lhs: Expr, leave: bool)
    requires e.Assign? && lhs == UnwrapParen(e.lhs) && lhs.MemberIndex?
    ensures Does(EmitAssign(e, leave), 0, Left(leave), SoundAssign(e))
    decreases e, 1
  {
    hide Does, Emit, Sound, SoundTarget, EmitMemberTarget, EmitStoreTail, Out.Do, Out.Then;
    MemberTargetDoes(lhs, false);
    EmitDoes(e.rhs, true);
    var o, s, r := EmitMemberTarget(lhs, false), SoundTarget(lhs), Sound(e.rhs, true);
    if e.compound {
      DoesDo(o, 0, 2, s, Pick1);
      DoesDo(o.Do(Pick1), 0, 3, s, Pick1);
      DoesDo(o.Do(Pick1).Do(Pick1), 0, 4, s, LoadIndex);
      var p := o.Do(Pick1).Do(Pick1).Do(LoadIndex);
      DoesThen(p, 0, 3, s, Emit(e.rhs, true), 0, 1, r);
      DoesDo(p.Then(Emit(e.rhs, true)), 0, 4, s && r, BinaryOp);
      StoreTailDoes(p.Then(Emit(e.rhs, true)).Do(BinaryOp), 3, s && r, StoreIndex, leave);
    } else {
      DoesThen(o, 0, 2, s, Emit(e.rhs, true), 0, 1, r);
      StoreTailDoes(o.Then(Emit(e.rhs, true)), 3, s && r, StoreIndex, leave);
    }
  }

  /** How many values the store of a changed value needs below it. */
  function Below(lhs: Expr): nat {
    match lhs
    case Ident(Arg) => 1
    case MemberDot(_) => 1
    case MemberIndex(_, _) => 2
    case _ => 0
  }

  lemma {:induction false} LhsLoadDoes(lhs: Expr)
    ensures Does(EmitLhsLoad(lhs), 0, Below(lhs) + 1, SoundTarget(lhs))
    decreases lhs, 4
  {
    hide Does, Emit, Sound, EmitMemberTarget, EmitLoad, Out.Do, Out.Then;
    if lhs == Ident(Arg) {
      DoesNothing();
      DoesDo(NOTHING, 0, 0, true, LoadArguments);
      DoesDo(NOTHING.Do(LoadArguments), 0, 1, true, Dup);
      DoesDo(NOTHING.Do(LoadArguments).Do(Dup), 0, 2, true, LoadName);
    } else if lhs.Ident? {
      LoadDoes(lhs.place);
    } else if lhs.MemberDot? {
      var x := lhs.target;
      EmitDoes(x, true);
      DoesDo(Emit(x, true), 0, 1, Sound(x, true), Dup);
      DoesDo(Emit(x, true).Do(Dup), 0, 2, Sound(x, true), LoadName);
    } else if lhs.MemberIndex? {
      MemberTargetDoes(lhs, false);
      var o, s := EmitMemberTarget(lhs, false), SoundTarget(lhs);
      DoesDo(o, 0, 2, s, Pick1);
      DoesDo(o.Do(Pick1), 0, 3, s, Pick1);
      DoesDo(o.Do(Pick1).Do(Pick1), 0, 4, s, LoadIndex);
    } else {
      FailsDoes(0, Below(lhs) + 1, SoundTarget(lhs));
    }
  }

  lemma LhsStoreDoes(o: Out, sound: bool, lhs: Expr)
    requires Does(o, 0, Below(lhs) + 1, sound)
    ensures Does(EmitLhsStore(o, lhs), 0, 0, sound)
  {
    hide Does, EmitStore, Out.Do;
    match lhs
    case Ident(Arg) => DoesDo(o, 0, 2, sound, StoreName);
    case Ident(p) => StoreDoes(o, 1, sound, p);
    case MemberDot(_) => DoesDo(o, 0, 2, sound, StoreName);
    case MemberIndex(_, _) => DoesDo(o, 0, 3, sound, StoreIndex);
    case _ => FailsDoes(0, 0, sound);
  }

  lemma {:induction false} StepDoes(how: Increment, lhs: Expr, leave: bool)
    ensures Does(EmitStep(how, lhs, leave), 0, Left(leave), SoundTarget(lhs))
    decreases lhs, 5
  {
    hide Does, SoundTarget, EmitLhsLoad, EmitLhsStore, Out.Do;
    LhsLoadDoes(lhs);
    var d, s := Below(lhs) + 1, SoundTarget(lhs);
    hide Below;
    DoesDo(EmitLhsLoad(lhs), 0, d, s, ToNumber);
    var o := EmitLhsLoad(lhs).Do(ToNumber);
    DoesDo(o, 0, d, s, LoadI32);
    DoesDo(o.Do(LoadI32), 0, d + 1, s, BinaryOp);
    var more := o.Do(LoadI32).Do(BinaryOp);
    if !leave {
      LhsStoreDoes(more, s, lhs);
    } else if how.PreIncr? || how.PreDecr? {
      DoesDo(more, 0, d, s, Dup);
      DoesDo(more.Do(Dup), 0, d + 1, s, StoreLocal);
      LhsStoreDoes(more.Do(Dup).Do(StoreLocal), s, lhs);
      DoesDo(EmitLhsStore(more.Do(Dup).Do(StoreLocal), lhs), 0, 0, s, LoadLocal);
    } else {
      DoesDo(o, 0, d, s, Dup);
      DoesDo(o.Do(Dup), 0, d + 1, s, StoreLocal);
      var kept := o.Do(Dup).Do(StoreLocal);
      DoesDo(kept, 0, d, s, LoadI32);
      DoesDo(kept.Do(LoadI32), 0, d + 1, s, BinaryOp);
      LhsStoreDoes(kept.Do(LoadI32).Do(BinaryOp), s, lhs);
      DoesDo(EmitLhsStore(kept.Do(LoadI32).Do(BinaryOp), lhs), 0, 0, s, LoadLocal);
    }
  }

  /** One value too many is never sound. */
  lemma OneTooMany(o: Out, sound: bool)
    requires Does(o, 0, 2, sound)
    ensures Does(o, 0, 1, false)
  {
    hide Goes;
  }

  lemma {:induction false} DeleteDoes(x: Expr)
    ensures Does(EmitDelete(x), 0, 1, SoundReference(x, true))
    decreases x, 4
  {
    hide Does, Emit, Sound, EmitMemberTarget, UnwrapIdent, Out.Do;
    if x.MemberDot? {
      EmitDoes(x.target, true);
      DoesDo(Emit(x.target, true), 0, 1, Sound(x.target, true), DeleteName);
    } else if x.MemberIndex? {
      MemberTargetDoes(x, false);
      DoesDo(EmitMemberTarget(x, false), 0, 2, SoundTarget(x), DeleteIndex);
    } else if UnwrapIdent(x).None? {
      EmitDoes(x, true);
      DoesDo(Emit(x, true), 0, 1, Sound(x, true), LoadBool);
      OneTooMany(Emit(x, true).Do(LoadBool), Sound(x, true));
    } else {
      PlaceDoes(DeleteName, DeleteEnvName);
      DoesNothing();
      DoesDo(NOTHING, 0, 0, true, LoadBool);
    }
  }

  lemma PlaceDoes(i: Ir, k: Ir)
    requires (i == DeleteName && k == DeleteEnvName) || (i == TypeofName && k == TypeofName)
    ensures Does(NOTHING.Do(LoadArguments).Do(i), 0, 1, true) && Does(NOTHING.Do(FindEnvObjectFor).Do(k), 0, 1, true)
  {
    hide Does, Out.Do;
    DoesNothing();
    DoesDo(NOTHING, 0, 0, true, LoadArguments);
    DoesDo(NOTHING.Do(LoadArguments), 0, 1, true, i);
    DoesDo(NOTHING, 0, 0, true, FindEnvObjectFor);
    DoesDo(NOTHING.Do(FindEnvObjectFor), 0, 1, true, k);
  }

  lemma {:induction false} TypeofDoes(x: Expr)
    ensures Does(EmitTypeof(x), 0, 1, SoundReference(x, false))
    decreases x, 4
  {
    hide Does, Emit, Sound, EmitMemberTarget, UnwrapIdent, Out.Do;
    if x.MemberDot? {
      EmitDoes(x.target, true);
      DoesDo(Emit(x.target, true), 0, 1, Sound(x.target, true), TypeofName);
    } else if x.MemberIndex? {
      MemberTargetDoes(x, false);
      DoesDo(EmitMemberTarget(x, false), 0, 2, SoundTarget(x), TypeofIndex);
    } else {
      PlaceDoes(TypeofName, TypeofName);
      EmitDoes(x, true);
      DoesDo(Emit(x, true), 0, 1, Sound(x, true), Typeof);
    }
  }

  lemma {:induction false} UnaryDoes(e: Expr, leave: bool)
    requires e.Operator?
    ensures Does(EmitUnary(e, leave), 0, Left(leave), Sound(e, leave))
    decreases e, 2
  {
    hide Does, Emit, EmitDelete, EmitTypeof, EmitStep, SoundReference, SoundTarget, Out.Do, Out.PopUnless;
    var x := UnwrapParen(e.e);
    match e.op
    case Delete =>
      DeleteDoes(x);
      DoesPopUnless(EmitDelete(x), SoundReference(x, true), leave);
    case TypeOf =>
      TypeofDoes(x);
      DoesPopUnless(EmitTypeof(x), SoundReference(x, false), leave);
    case Step(how) => StepDoes(how, x, leave);
    case Void =>
      EmitDoes(e.e, true);
      DoesDo(Emit(e.e, true), 0, 1, Sound(e.e, true), Pop);
      DoesDo(Emit(e.e, true).Do(Pop), 0, 0, Sound(e.e, true), LoadUndefined);
    case Value =>
      EmitDoes(e.e, true);
      DoesDo(Emit(e.e, true), 0, 1, Sound(e.e, true), UnaryOp);
      DoesPopUnless(Emit(e.e, true).Do(UnaryOp), Sound(e.e, true), leave);
  }

  // ---- The result ----

  /** The code of an expression that compiles raises the stack by one if its value is wanted and by none otherwise, on
      every path and without looking below where it started, if and only if the expression is sound. */
  lemma BalancedExactly(e: Expr, leave: bool)
    requires Emit(e, leave).ok
    ensures Goes(Emit(e, leave).ir, 0, Left(leave)) <==> Sound(e, leave)
  {
    EmitDoes(e, leave);
    hide Goes, Emit, Sound;
    assert Sound(e, leave) ==> Raises(Emit(e, leave).ir, 0, Left(leave));
  }

  /** Two expressions whose code leaves one value too many: a delete of a literal, and a cast that is not wanted. */
  lemma UnbalancedExamples(leave: bool)
    ensures Emit(Operator(Delete, Literal), leave).ok
    ensures !Goes(Emit(Operator(Delete, Literal), leave).ir, 0, Left(leave))
    ensures Emit(Cast(Literal), false).ok && !Goes(Emit(Cast(Literal), false).ir, 0, 0)
  {
    hide Goes;
    BalancedExactly(Operator(Delete, Literal), leave);
    BalancedExactly(Cast(Literal), false);
  }

  /** What that means when it runs, whatever is on the stack already and whichever way branches go. */
  lemma SoundRuns(e: Expr, leave: bool, base: nat, choices: seq<bool>)
    requires Emit(e, leave).ok && Sound(e, leave)
    ensures var code := Emit(e, leave).ir;
      var r := Run(code, At(0, base), choices);
      r.At? && r.ip <= |code| && r.height >= base && (r.ip == |code| ==> r.height == base + Left(leave))
  {
    hide Emit, Sound, Goes;
    BalancedExactly(e, leave);
    RunsBalanced(Emit(e, leave).ir, 0, Left(leave), base, choices);
  }
}
