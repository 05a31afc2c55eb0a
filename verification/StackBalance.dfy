/** The operand stack over every form of expression: what the code of an expression adds to it, on every path, and for
    which expressions that is one value if it is wanted and none if it is not. */
module StackBalance {
  import opened Wrappers

  // ---- Instructions, by what they do to the stack ----

  /** Instructions by what they do to the stack: a plain one takes operands and leaves others; a jump goes as many
      instructions further on, and a branch drops the value it looks at. */
  datatype Ir = Plain(pops: nat, pushes: nat) | Jump(over: nat) | Branch(over: nat)

  const LoadValue := Plain(0, 1)
  const LoadFunction := Plain(0, 1)
  const LoadIdent := Plain(0, 1)
  const LoadLocal := Plain(0, 1)
  const LoadThis := Plain(0, 1)
  const LoadUndefined := Plain(0, 1)
  const LoadBool := Plain(0, 1)
  const LoadI32 := Plain(0, 1)
  const LoadEnvObjectFor := Plain(0, 1)
  const FindEnvObjectFor := Plain(0, 1)
  const LoadArguments := Plain(0, 1)
  const NewArray := Plain(0, 1)
  const NewObject := Plain(0, 1)
  const LoadName := Plain(1, 1)
  const DeleteName := Plain(1, 1)
  const DeleteEnvName := Plain(1, 1)
  const Typeof := Plain(1, 1)
  const TypeofName := Plain(1, 1)
  const ToPropertyKey := Plain(1, 1)
  const ToNumber := Plain(1, 1)
  const ToBoolean := Plain(1, 1)
  const Convert := Plain(1, 1)
  const UnaryOp := Plain(1, 1)
  const LoadIndex := Plain(2, 1)
  const DeleteIndex := Plain(2, 1)
  const TypeofIndex := Plain(2, 1)
  const BinaryOp := Plain(2, 1)
  const Pop := Plain(1, 0)
  const ValidateMemberTarget := Plain(1, 0)
  const StoreLocal := Plain(1, 0)
  const StoreIdent := Plain(1, 0)
  const StoreAccessorUnchecked := Plain(1, 0)
  const StoreName := Plain(2, 0)
  const StoreNameUnchecked := Plain(2, 0)
  const StoreIndex := Plain(3, 0)
  const StoreIndexUnchecked := Plain(3, 0)
  const Dup := Plain(1, 2)
  const Swap := Plain(2, 2)
  const Pick1 := Plain(2, 3)

  // calls: the receiver, the function and the arguments
  function Call(count: nat): Ir {
    Plain(count + 2, 1)
  }

  function New(count: nat): Ir {
    Plain(count + 2, 1)
  }

  function Pops(i: Ir): nat {
    match i
    case Plain(pops, _) => pops
    case Jump(_) => 0
    case Branch(_) => 1
  }

  function Pushes(i: Ir): nat {
    if i.Plain? then i.pushes else 0
  }

  // ---- Heights ----

  /** `hs` is the height of the stack before each instruction and at the end, whichever way it is reached. */
  ghost predicate Heights(code: seq<Ir>, hs: seq<nat>) {
    |hs| == |code| + 1 && forall i: nat {:trigger Fits(code, hs, i)} :: i < |code| ==> Fits(code, hs, i)
  }

  ghost predicate Fits(code: seq<Ir>, hs: seq<nat>, i: nat)
    requires |hs| == |code| + 1 && i < |code|
  {
    && hs[i] >= Pops(code[i])
    && (!code[i].Jump? ==> hs[i + 1] == hs[i] - Pops(code[i]) + Pushes(code[i]))
    && (code[i].Jump? ==> i + 1 + code[i].over <= |code| && hs[i + 1 + code[i].over] == hs[i])
    && (code[i].Branch? ==> i + 1 + code[i].over <= |code| && hs[i + 1 + code[i].over] == hs[i] - 1)
  }

  ghost predicate Goes(code: seq<Ir>, s: int, t: int) {
    exists hs: seq<nat> :: Heights(code, hs) && hs[0] == s && hs[|code|] == t
  }

  // ---- What heights mean for a run ----

  datatype State = At(ip: nat, height: nat) | Underflow

  function Step(code: seq<Ir>, s: State, taken: bool): State {
    if s.Underflow? || s.ip >= |code| then s
    else
      var i := code[s.ip];
      if s.height < Pops(i) then Underflow
      else if i.Jump? then At(s.ip + 1 + i.over, s.height)
      else At(if i.Branch? && taken then s.ip + 1 + i.over else s.ip + 1, s.height - Pops(i) + Pushes(i))
  }

  /** A run, with a choice for every step in case it is a branch. */
  function Run(code: seq<Ir>, s: State, choices: seq<bool>): State {
    if choices == [] then s else Step(code, Run(code, s, choices[..|choices| - 1]), choices[|choices| - 1])
  }

  /** On top of any stack, no run reads what was there before, and every run that gets to the end has the same height. */
  lemma {:induction false} RunsBalanced(code: seq<Ir>, s: nat, t: nat, base: nat, choices: seq<bool>)
    requires Goes(code, s, t)
    ensures var r := Run(code, At(0, base + s), choices);
      r.At? && r.ip <= |code| && r.height >= base && (r.ip == |code| ==> r.height == base + t)
  {
    var hs :| Heights(code, hs) && hs[0] == s && hs[|code|] == t;
    RunsAlong(code, hs, base, choices);
  }

  lemma {:induction false} RunsAlong(code: seq<Ir>, hs: seq<nat>, base: nat, choices: seq<bool>)
    requires Heights(code, hs)
    ensures var r := Run(code, At(0, base + hs[0]), choices);
      r.At? && r.ip <= |code| && r.height == base + hs[r.ip]
  {
    if choices != [] {
      RunsAlong(code, hs, base, choices[..|choices| - 1]);
      var r := Run(code, At(0, base + hs[0]), choices[..|choices| - 1]);
      if r.ip < |code| {
        assert Fits(code, hs, r.ip);
      }
    }
  }

  // ---- Putting code together ----

  ghost predicate Closed(code: seq<Ir>) {
    forall i: nat {:trigger code[i]} :: i < |code| ==>
      (code[i].Jump? ==> i + 1 + code[i].over <= |code|) && (code[i].Branch? ==> i + 1 + code[i].over <= |code|)
  }

  /** A part of some code with its part of the heights. */
  ghost predicate PartOf(p: seq<Ir>, hp: seq<nat>, code: seq<Ir>, hs: seq<nat>, at: nat) {
    && |hp| == |p| + 1 && |hs| == |code| + 1 && at + |p| <= |code|
    && code[at..at + |p|] == p && hs[at..at + |p| + 1] == hp
  }

  lemma PartFits(p: seq<Ir>, hp: seq<nat>, code: seq<Ir>, hs: seq<nat>, at: nat)
    requires PartOf(p, hp, code, hs, at) && Closed(p)
    ensures Heights(p, hp) <==> forall i: nat {:trigger Fits(code, hs, i)} :: at <= i < at + |p| ==> Fits(code, hs, i)
  {
    forall i: nat | i < |p|
      ensures Fits(p, hp, i) <==> Fits(code, hs, at + i)
    {
      SameFit(p, hp, code, hs, at, i);
    }
    if forall i: nat {:trigger Fits(code, hs, i)} :: at <= i < at + |p| ==> Fits(code, hs, i) {
      forall i: nat | i < |p|
        ensures Fits(p, hp, i)
      {
        assert Fits(code, hs, at + i);
      }
    }
    if Heights(p, hp) {
      forall i: nat | at <= i < at + |p|
        ensures Fits(code, hs, i)
      {
        assert Fits(p, hp, i - at);
      }
    }
  }

  lemma SameFit(p: seq<Ir>, hp: seq<nat>, code: seq<Ir>, hs: seq<nat>, at: nat, i: nat)
    requires PartOf(p, hp, code, hs, at) && Closed(p) && i < |p|
    ensures Fits(p, hp, i) <==> Fits(code, hs, at + i)
  {
    assert code[at + i] == p[i];
    assert hs[at + i] == hp[i] && hs[at + i + 1] == hp[i + 1];
    if (p[i].Jump? || p[i].Branch?) {
      assert hs[at + i + 1 + p[i].over] == hp[i + 1 + p[i].over];
    }
  }

  lemma GoesJoin(a: seq<Ir>, b: seq<Ir>, s: nat, m: nat, t: nat)
    requires Goes(a, s, m) && Goes(b, m, t)
    ensures Goes(a + b, s, t)
  {
    hide Fits;
    var ha :| Heights(a, ha) && ha[0] == s && ha[|a|] == m;
    var hb :| Heights(b, hb) && hb[0] == m && hb[|b|] == t;
    JoinHeights(a, b, ha, hb);
  }

  lemma JoinHeights(a: seq<Ir>, b: seq<Ir>, ha: seq<nat>, hb: seq<nat>)
    requires Heights(a, ha) && Heights(b, hb) && ha[|a|] == hb[0]
    ensures var hs := ha + hb[1..]; Heights(a + b, hs) && hs[0] == ha[0] && hs[|a + b|] == hb[|b|]
  {
    hide Fits;
    var c, hs := a + b, ha + hb[1..];
    HeightsClosed(a, ha);
    HeightsClosed(b, hb);
    assert c[..|a|] == a && hs[..|a| + 1] == ha && c[|a|..] == b && hs[|a|..] == hb;
    assert PartOf(a, ha, c, hs, 0) && PartOf(b, hb, c, hs, |a|);
    PartFits(a, ha, c, hs, 0);
    PartFits(b, hb, c, hs, |a|);
  }

  lemma HeightsClosed(code: seq<Ir>, hs: seq<nat>)
    requires Heights(code, hs)
    ensures Closed(code)
  {
    forall i: nat | i < |code|
      ensures code[i].Jump? || code[i].Branch? ==> i + 1 + code[i].over <= |code|
    {
      assert Fits(code, hs, i);
    }
  }

  lemma GoesSplit(a: seq<Ir>, b: seq<Ir>, s: nat, t: nat) returns (m: nat)
    requires Closed(a) && Closed(b) && Goes(a + b, s, t)
    ensures Goes(a, s, m) && Goes(b, m, t)
  {
    hide Fits;
    var hs :| Heights(a + b, hs) && hs[0] == s && hs[|a + b|] == t;
    var ha, hb := hs[..|a| + 1], hs[|a|..];
    m := hs[|a|];
    assert PartOf(a, ha, a + b, hs, 0) && PartOf(b, hb, a + b, hs, |a|);
    PartFits(a, ha, a + b, hs, 0);
    PartFits(b, hb, a + b, hs, |a|);
  }

  lemma GoesOne(i: Ir, s: nat, t: nat)
    requires !i.Jump? && !i.Branch?
    ensures Goes([i], s, t) <==> s >= Pops(i) && t == s - Pops(i) + Pushes(i)
  {
    if s >= Pops(i) && t == s - Pops(i) + Pushes(i) {
      assert Heights([i], [s, t]);
    }
    if Goes([i], s, t) {
      var hs :| Heights([i], hs) && hs[0] == s && hs[|[i]|] == t;
      assert Fits([i], hs, 0);
    }
  }

  lemma GoesNothing(s: nat, t: nat)
    ensures Goes([], s, t) <==> s == t
  {
    if s == t {
      assert Heights([], [s]);
    }
  }

  ghost predicate Raises(code: seq<Ir>, s: int, d: int) {
    s + d >= 0 && Goes(code, s, s + d)
  }

  /** With `need` values below it the code adds `d` to the stack if it is sound; if it is not it adds more, or has no
      heights. */
  ghost predicate Exactly(code: seq<Ir>, need: int, d: int, sound: bool) {
    && Closed(code)
    && (sound ==> forall s: nat {:trigger Raises(code, s, d)} :: s >= need ==> Raises(code, s, d))
    && (forall s: nat, t: nat {:trigger Goes(code, s, t)} :: Goes(code, s, t) ==> t >= s + d && (t == s + d ==> sound))
  }

  lemma ExactlyThen(a: seq<Ir>, na: nat, da: int, sa: bool, b: seq<Ir>, nb: nat, db: int, sb: bool)
    requires Exactly(a, na, da, sa) && Exactly(b, nb, db, sb) && na + da >= nb
    ensures Exactly(a + b, na, da + db, sa && sb)
  {
    hide Goes;
    var c, d := a + b, da + db;
    forall s: nat | sa && sb && s >= na
      ensures Raises(c, s, d)
    {
      assert Raises(a, s, da) && Raises(b, s + da, db);
      GoesJoin(a, b, s, s + da, s + da + db);
    }
    forall s: nat, t: nat | Goes(a + b, s, t)
      ensures t >= s + (da + db) && (t == s + (da + db) ==> sa && sb)
    {
      var m := GoesSplit(a, b, s, t);
    }
    ClosedThen(a, b);
  }

  lemma ClosedThen(a: seq<Ir>, b: seq<Ir>)
    requires Closed(a) && Closed(b)
    ensures Closed(a + b)
  {
    forall i: nat | i < |a + b|
      ensures (a + b)[i].Jump? ==> i + 1 + (a + b)[i].over <= |a + b|
      ensures (a + b)[i].Branch? ==> i + 1 + (a + b)[i].over <= |a + b|
    {
      if i >= |a| {
        assert (a + b)[i] == b[i - |a|];
      }
    }
  }

  lemma ExactlyMore(code: seq<Ir>, need: nat, more: nat, d: int, sound: bool)
    requires Exactly(code, need, d, sound) && more >= need
    ensures Exactly(code, more, d, sound)
  {
    hide Goes, Raises;
  }

  lemma ExactlyOne(i: Ir)
    requires !i.Jump? && !i.Branch?
    ensures Exactly([i], Pops(i), Pushes(i) - Pops(i), true)
  {
    hide Goes;
    forall s: nat, t: nat
      ensures Goes([i], s, t) <==> s >= Pops(i) && t == s - Pops(i) + Pushes(i)
    {
      GoesOne(i, s, t);
    }
  }

  lemma ExactlyNothing()
    ensures Exactly([], 0, 0, true)
  {
    hide Goes;
    forall s: nat, t: nat
      ensures Goes([], s, t) <==> s == t
    {
      GoesNothing(s, t);
    }
  }

  /** A branch over code: both ways have to end alike. */
  lemma ExactlyBranch(p: seq<Ir>, need: nat, sound: bool)
    requires Exactly(p, need, 0, sound)
    ensures Exactly([Branch(|p|)] + p, need + 1, -1, sound)
  {
    var c := [Branch(|p|)] + p;
    forall s: nat | sound && s >= need + 1
      ensures Raises(c, s, -1)
    {
      assert Raises(p, s - 1, 0);
      var hp :| Heights(p, hp) && hp[0] == s - 1 && hp[|p|] == s - 1;
      BranchHeights(p, hp, s);
    }
    forall s: nat, t: nat | Goes(c, s, t)
      ensures t == s - 1 && sound
    {
      BranchSplit(p, s, t);
    }
    assert forall i: nat :: i < |p| ==> c[i + 1] == p[i];
  }

  lemma BranchHeights(p: seq<Ir>, hp: seq<nat>, s: nat)
    requires Heights(p, hp) && s >= 1 && hp[0] == s - 1 && hp[|p|] == s - 1
    ensures Goes([Branch(|p|)] + p, s, s - 1)
  {
    hide Closed;
    var c, hs := [Branch(|p|)] + p, [s] + hp;
    HeightsClosed(p, hp);
    assert PartOf(p, hp, c, hs, 1);
    PartFits(p, hp, c, hs, 1);
    assert Fits(c, hs, 0);
    assert Heights(c, hs);
  }

  lemma BranchSplit(p: seq<Ir>, s: nat, t: nat)
    requires Closed(p) && Goes([Branch(|p|)] + p, s, t)
    ensures s >= 1 && t == s - 1 && Goes(p, s - 1, t)
  {
    hide Closed;
    var c := [Branch(|p|)] + p;
    var hs :| Heights(c, hs) && hs[0] == s && hs[|c|] == t;
    assert Fits(c, hs, 0);
    assert PartOf(p, hs[1..], c, hs, 1);
    PartFits(p, hs[1..], c, hs, 1);
  }

  /** One of two pieces of code. */
  function Either(a: seq<Ir>, b: seq<Ir>): seq<Ir> {
    [Branch(|a| + 1)] + a + [Jump(|b|)] + b
  }

  lemma ExactlyEither(a: seq<Ir>, b: seq<Ir>, d: nat, sa: bool, sb: bool)
    requires Exactly(a, 0, d, sa) && Exactly(b, 0, d, sb)
    ensures Exactly(Either(a, b), 1, d - 1, sa && sb)
  {
    var c, net := Either(a, b), d as int - 1;
    forall s: nat | sa && sb && s >= 1
      ensures Raises(c, s, net)
    {
      assert Raises(a, s - 1, d) && Raises(b, s - 1, d);
      EitherHeights(a, b, s, s - 1 + d);
    }
    forall s: nat, t: nat | Goes(c, s, t)
      ensures t >= s + (d - 1) && (t == s + (d - 1) ==> sa && sb)
    {
      EitherSplit(a, b, s, t);
    }
    EitherClosed(a, b);
  }

  lemma EitherClosed(a: seq<Ir>, b: seq<Ir>)
    requires Closed(a) && Closed(b)
    ensures Closed(Either(a, b))
  {
    var c := Either(a, b);
    assert forall i: nat :: i < |a| ==> c[i + 1] == a[i];
    assert forall i: nat :: i < |b| ==> c[|a| + 2 + i] == b[i];
  }

  lemma EitherHeights(a: seq<Ir>, b: seq<Ir>, s: nat, t: nat)
    requires s >= 1 && Goes(a, s - 1, t) && Goes(b, s - 1, t)
    ensures Goes(Either(a, b), s, t)
  {
    hide Fits;
    var ha :| Heights(a, ha) && ha[0] == s - 1 && ha[|a|] == t;
    var hb :| Heights(b, hb) && hb[0] == s - 1 && hb[|b|] == t;
    HeightsClosed(a, ha);
    HeightsClosed(b, hb);
    var c, hs := Either(a, b), [s] + ha + hb;
    EitherParts(a, b, hs);
    assert hs[1..|a| + 2] == ha && hs[|a| + 2..] == hb;
    PartFits(a, ha, c, hs, 1);
    PartFits(b, hb, c, hs, |a| + 2);
    EitherEnds(a, b, hs);
    assert Heights(c, hs);
  }

  lemma EitherParts(a: seq<Ir>, b: seq<Ir>, hs: seq<nat>)
    requires |hs| == |Either(a, b)| + 1
    ensures |Either(a, b)| == |a| + |b| + 2
    ensures PartOf(a, hs[1..|a| + 2], Either(a, b), hs, 1) && PartOf(b, hs[|a| + 2..], Either(a, b), hs, |a| + 2)
  {
  }

  lemma EitherEnds(a: seq<Ir>, b: seq<Ir>, hs: seq<nat>)
    requires |hs| == |Either(a, b)| + 1
    ensures Fits(Either(a, b), hs, 0) <==> hs[0] >= 1 && hs[1] == hs[0] - 1 && hs[|a| + 2] == hs[0] - 1
    ensures Fits(Either(a, b), hs, |a| + 1) <==> hs[|a| + |b| + 2] == hs[|a| + 1]
  {
    var c := Either(a, b);
    assert c[0] == Branch(|a| + 1) && c[|a| + 1] == Jump(|b|);
  }

  lemma EitherSplit(a: seq<Ir>, b: seq<Ir>, s: nat, t: nat)
    requires Closed(a) && Closed(b) && Goes(Either(a, b), s, t)
    ensures s >= 1 && Goes(a, s - 1, t) && Goes(b, s - 1, t)
  {
    hide Fits;
    var c := Either(a, b);
    var hs :| Heights(c, hs) && hs[0] == s && hs[|c|] == t;
    EitherParts(a, b, hs);
    var ha, hb := hs[1..|a| + 2], hs[|a| + 2..];
    PartFits(a, ha, c, hs, 1);
    PartFits(b, hb, c, hs, |a| + 2);
    assert Fits(c, hs, 0) && Fits(c, hs, |a| + 1);
    EitherEnds(a, b, hs);
  }
}
