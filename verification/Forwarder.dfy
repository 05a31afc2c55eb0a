/** The forwarder: copies a block to the end of to-space on first sight and leaves its new address behind. */
module Forwarding {
  import opened HeapModel
  import opened Cheney

  /** Copies keep their place and forwarding address; new ones may follow. */
  ghost predicate Grows(c: State, c': State) {
    && |c.order| == |c.starts| == |c.lim| && |c'.order| == |c'.starts| == |c'.lim|
    && c.order <= c'.order && c.starts <= c'.starts
    && (forall s: nat :: s in c.fwd ==> s in c'.fwd && c'.fwd[s] == c.fwd[s])
  }

  /** No scan limit moved, and new copies are unscanned. */
  ghost predicate LimitsGrow(lim: seq<nat>, lim': seq<nat>) {
    lim <= lim' && forall k: nat :: |lim| <= k < |lim'| ==> lim'[k] == 0
  }

  ghost predicate Extends(c: State, c': State) {
    Grows(c, c') && LimitsGrow(c.lim, c'.lim)
  }

  /** As Extends, except that the scan limit of copy k may have moved. */
  ghost predicate ExtendsBut(c: State, c': State, k: nat) {
    Grows(c, c') && k < |c.lim| && k < |c'.lim| && LimitsGrow(c.lim, c'.lim[k := c.lim[k]])
  }

  /** `e` is the element at word `b` of the data of block `s`, reached by the collector's loop. */
  ghost predicate ElementOf(w: Walker, o: Space, s: nat, b: nat, ty: nat, e: seq<int>) {
    && b + |e| <= |Data(o, s)| && e == Data(o, s)[b..b + |e|]
    && forall p: nat {:trigger Visited(w, ty, e, p)} {:trigger PointerIn(w, o, s, b + p)} ::
         p < |e| ==> (PointerIn(w, o, s, b + p) <==> Visited(w, ty, e, p))
  }

  class Forwarder {
    const from: array<int>
    const to: array<int>
    const fromBase: nat
    const toBase: nat
    var target: nat
    ghost const w: Walker
    ghost const o: Space
    ghost const roots: seq<int>
    ghost var c: State

    ghost predicate Valid()
      reads this, from, to
    {
      && from != to && toBase > 0 && fromBase == o.base
      && WellFormed(w, o) && Stable(w)
      && c.from == from[..] && c.to == to[..] && c.target == target
      && Inv(w, o, toBase, roots, c)
    }

    constructor (ghost w: Walker, ghost o: Space, ghost roots: seq<int>, from: array<int>, fromBase: nat,
            to: array<int>, toBase: nat)
      requires from != to && toBase > 0 && fromBase == o.base && WellFormed(w, o) && Stable(w)
      requires from[..] == o.mem && o.end <= to.Length
      ensures Valid() && target == 0 && c.order == [] && this.from == from && this.to == to && this.toBase == toBase
      ensures this.w == w && this.o == o && this.roots == roots && this.fromBase == fromBase
      ensures c.fwd == map[]
    {
      this.w, this.o, this.roots := w, o, roots;
      this.from, this.fromBase, this.to, this.toBase := from, fromBase, to, toBase;
      target := 0;
      c := State(from[..], to[..], [], [], 0, map[], []);
      new;
      InitInv(w, o, toBase, roots, c);
    }

    /** Returns the new user pointer of the block at user pointer `ptr`, copying the block if that has not
        happened yet. */
    method Forward(ptr: int) returns (r: int)
      requires Valid() && IsUser(o, ptr) && Reachable(w, o, roots, ptr - o.base - PROLOG)
      modifies this, from, to
      ensures Valid() && Extends(old(c), c)
      ensures ptr - o.base - PROLOG in c.fwd && r == Forwarded(o, toBase, c.fwd, ptr)
    {
      hide Copies, AllReachable, Layout, Stable, Bounded, PointerIn, Reachable, BlockOk;
      var s := ptr - fromBase - PROLOG;
      BlockWords(w, o, toBase, roots, c, s);
      if from[s] == 0 {
        RoomFor(w, o, toBase, roots, c, s);
        MoveBlock(s);
        assert c == old(c);
        ghost var c' := State(from[..], to[..], c.order + [s], c.starts + [c.target], target,
                              c.fwd[s := c.target], c.lim + [0]);
        MovedAppends(w, o, toBase, roots, c, s, c');
        c := c';
      }
      r := from[s] + PROLOG;
    }

    /** Leaves the address of the copy in the block at word `s` and copies the rest of the block there. */
    method MoveBlock(s: nat)
      requires from != to && s + 1 < from.Length && from[s + 1] >= PROLOG && s + from[s + 1] <= from.Length
      requires target + from[s + 1] <= to.Length
      modifies this`target, from, to
      ensures target == old(target) + old(from[s + 1])
      ensures from[..] == old(from[..])[s := toBase + old(target)]
      ensures to[old(target)] == 0 && to[old(target) + 1] == old(from[s + 1])
      ensures forall i: nat {:trigger to[i]} :: i < old(target) ==> to[i] == old(to[i])
      ensures to[old(target) + 2..target] == old(from[s + 2..s + from[s + 1]])
    {
      var size := from[s + 1];
      from[s] := toBase + target;
      to[target], to[target + 1] := 0, size;
      forall i | 2 <= i < size {
        to[target + i] := from[s + i];
      }
      target := target + size;
    }

    /** Scans one element: forwards the pointer words the walker names, until the walker stops. The result is
        false when the walker stopped with EndArray. */
    method ProcessBlock(wk: Walker, pos: nat, ty: nat, ptrs: nat, ghost k: nat, ghost b: nat, ghost e: seq<int>)
      returns (more: bool)
      requires Valid() && wk == w && k < |c.order| && c.lim[k] == b
      requires |e| == ptrs && pos == c.starts[k] + PROLOG + b && ElementOf(w, o, c.order[k], b, ty, e)
      modifies this, from, to
      ensures Valid() && ExtendsBut(old(c), c, k) && c.lim[k] == b + ptrs
      ensures more == !StopsArray(w, ty, e)
    {
      hide Copies, AllReachable, Layout, Stable, Bounded, PointerIn, Reachable, Inv, WellFormed, Forwarded,
        StopsArray, ElementOf, Extends;
      var i := 0;
      ghost var s := c.order[k];
      ExtendsSelf(w, o, toBase, roots, c, k);
      while i < ptrs
        invariant i <= ptrs && Valid() && ExtendsBut(old(c), c, k) && c.lim[k] == b + i
        invariant k < |c.order| && c.order[k] == s && k < |c.starts| && pos == c.starts[k] + PROLOG + b
        invariant Reaches(w, ty, e, i)
      {
        ghost var before := c;
        ElementNow(w, o, toBase, roots, c, k, b, i, ty, e);
        match wk.walk(ty, to[pos..pos + ptrs], i) {
          case End =>
            StopHere(w, o, s, b, ty, e, i);
            SkipOver(k, b + ptrs);
            ExtendsTrans(old(c), before, c, k);
            return true;
          case EndArray =>
            StopHere(w, o, s, b, ty, e, i);
            SkipOver(k, b + ptrs);
            ExtendsTrans(old(c), before, c, k);
            return false;
          case Skip =>
            NotPointer(w, o, s, b, ty, e, i);
            SkipOver(k, b + i + 1);
          case Pointer =>
            AtPointer(w, o, s, b, ty, e, i);
            ForwardWord(pos + i, k, b + i);
        }
        ExtendsTrans(old(c), before, c, k);
        ReachesOne(w, ty, e, i);
        i := i + 1;
      }
      NoStop(w, ty, e);
      more := true;
    }

    /** The new value of pointer word `q` of copy k, whose old value is `child`. */
    method ForwardChild(child: int, ghost k: nat, ghost q: nat) returns (r: int)
      requires Valid() && k < |c.order| && PointerIn(w, o, c.order[k], q) && q < |Data(o, c.order[k])|
      requires child == Data(o, c.order[k])[q]
      modifies this, from, to
      ensures Valid() && Extends(old(c), c) && Settled(o, c.fwd, child) && r == Forwarded(o, toBase, c.fwd, child)
    {
      hide Inv, Stable, PointerIn, Reachable, WellFormed, LimitsGrow, Grows, Data;
      if child == 0 {
        ExtendsItself(w, o, toBase, roots, c);
        r := 0;
      } else {
        PointerTarget(w, o, toBase, roots, c, k, q);
        r := Forward(child);
      }
    }

    method ForwardWord(offset: nat, ghost k: nat, ghost q: nat)
      requires Valid() && k < |c.order| && k < |c.starts| && k < |c.lim| && c.lim[k] == q
      requires PointerIn(w, o, c.order[k], q) && offset == c.starts[k] + PROLOG + q
      modifies this, from, to
      ensures Valid() && ExtendsBut(old(c), c, k) && c.lim[k] == q + 1
    {
      hide Inv, Stable, PointerIn, Reachable, WellFormed, LimitsGrow, Grows, Data, Forwarded, Settled;
      InBlock(w, o, c.order[k], q);
      NextWord(w, o, toBase, roots, c, k, q);
      var child := to[offset];
      var r := ForwardChild(child, k, q);
      ExtendsKeeps(old(c), c, k);
      NextWord(w, o, toBase, roots, c, k, q);
      to[offset] := r;
      WriteKeepsInv(w, o, toBase, roots, c, k, q);
      ghost var c' := WriteTo(o, toBase, c, k, q);
      ExtendsWrite(old(c), c, k, c');
      c := c';
    }

    /** There is no pointer word up to word `lim` of copy k: it counts as scanned. */
    ghost method SkipOver(k: nat, lim: nat)
      requires Valid() && k < |c.order| && k < |c.lim| && c.lim[k] <= lim
      requires forall q: nat {:trigger PointerIn(w, o, c.order[k], q)} :: c.lim[k] <= q < lim ==> !PointerIn(w, o, c.order[k], q)
      modifies this
      ensures Valid() && target == old(target) && ExtendsBut(old(c), c, k) && c.lim[k] == lim
    {
      hide Inv, Stable, PointerIn, Reachable, WellFormed, LimitsGrow, Grows;
      Sizes(w, o, toBase, roots, c);
      SkipKeepsInv(w, o, toBase, roots, c, k, lim);
      ExtendsSelf(w, o, toBase, roots, c, k);
      ghost var c' := c.(lim := c.lim[k := lim]);
      ExtendsWrite(c, c, k, c');
      c := c';
    }
  }

  /** What MoveBlock did is the first step of the collection. */
  lemma MovedAppends(w: Walker, o: Space, tb: nat, roots: seq<int>, c: State, s: nat, c': State)
    requires Layout(o) && Inv(w, o, tb, roots, c) && s in o.blocks && s !in c.fwd && Reachable(w, o, roots, s)
    requires s < |c.from| && c'.from == c.from[s := tb + c.target] && |c'.to| == |c.to|
    requires c.target + Size(o, s) <= |c.to|
    requires forall i: nat {:trigger c'.to[i]} :: i < c.target ==> c'.to[i] == c.to[i]
    requires c'.to[c.target] == 0 && c'.to[c.target + 1] == Size(o, s)
    requires s + Size(o, s) <= |c.from|
    requires c'.to[c.target + 2..c.target + Size(o, s)] == c.from[s + 2..s + Size(o, s)]
    requires c'.order == c.order + [s] && c'.starts == c.starts + [c.target] && c'.target == c.target + Size(o, s)
    requires c'.fwd == c.fwd[s := c.target] && c'.lim == c.lim + [0]
    ensures Inv(w, o, tb, roots, c') && Extends(c, c')
  {
    hide Copies, AllReachable, Layout, Bounded, PointerIn, Reachable;
    BlockWords(w, o, tb, roots, c, s);
    var moved, kept := c'.to[c.target + 2..c.target + Size(o, s)], c.from[s + 1..s + Size(o, s)];
    assert kept[1..] == moved;
    assert moved[1..] == c'.to[c.target + PROLOG..c.target + Size(o, s)];
    assert kept[2..] == Data(o, s);
    assert c'.to[c.target + 2] == moved[0];
    assert Appended(o, tb, c, s, c');
    AppendKeepsInv(w, o, tb, roots, c, s, c');
  }

  lemma AtPointer(w: Walker, o: Space, s: nat, b: nat, ty: nat, e: seq<int>, i: nat)
    requires ElementOf(w, o, s, b, ty, e) && i < |e| && Reaches(w, ty, e, i) && w.walk(ty, e, i) == Pointer
    ensures PointerIn(w, o, s, b + i)
  {
    hide PointerIn, Data;
    assert Visited(w, ty, e, i);
  }

  lemma InBlock(w: Walker, o: Space, s: nat, q: nat)
    requires PointerIn(w, o, s, q)
    ensures q < |Data(o, s)|
  {
  }

  lemma ExtendsKeeps(a: State, b: State, k: nat)
    requires Extends(a, b) && k < |a.order|
    ensures k < |b.order| == |b.lim| == |b.starts|
    ensures b.order[k] == a.order[k] && b.starts[k] == a.starts[k] && b.lim[k] == a.lim[k]
    ensures ExtendsBut(a, b, k)
  {
    assert b.lim[k := a.lim[k]] == b.lim;
  }

  lemma LimitsWrite(a: seq<nat>, b: seq<nat>, c: seq<nat>, k: nat)
    requires k < |a| && k < |b| == |c| && LimitsGrow(a, b[k := a[k]]) && c == b[k := c[k]]
    ensures LimitsGrow(a, c[k := a[k]])
  {
    assert c[k := a[k]] == b[k := a[k]];
  }

  lemma ExtendsWrite(a: State, b: State, k: nat, c: State)
    requires ExtendsBut(a, b, k) && |c.to| == |b.to|
    requires c == b.(to := c.to, lim := c.lim) && |c.lim| == |b.lim| && k < |b.lim| && c.lim == b.lim[k := c.lim[k]]
    ensures ExtendsBut(a, c, k)
  {
    hide LimitsGrow;
    LimitsWrite(a.lim, b.lim, c.lim, k);
  }

  lemma LimitsTrans(a: seq<nat>, b: seq<nat>, c: seq<nat>, k: nat)
    requires k < |a| && k < |b| && k < |c| && LimitsGrow(a, b[k := a[k]]) && LimitsGrow(b, c[k := b[k]])
    ensures LimitsGrow(a, c[k := a[k]])
  {
    forall j: nat | |a| <= j < |c|
      ensures c[j] == 0
    {
      if j < |b| {
        assert b[k := a[k]][j] == 0 && c[k := b[k]][j] == b[j];
      } else {
        assert c[k := b[k]][j] == 0;
      }
    }
    forall j: nat | j < |a|
      ensures c[k := a[k]][j] == a[j]
    {
      assert b[k := a[k]][j] == a[j] && c[k := b[k]][j] == b[j];
    }
  }

  lemma ExtendsTrans(a: State, b: State, c: State, k: nat)
    requires ExtendsBut(a, b, k) && ExtendsBut(b, c, k)
    ensures ExtendsBut(a, c, k)
    ensures k < |c.order| && k < |c.starts| && c.order[k] == a.order[k] && c.starts[k] == a.starts[k]
  {
    hide LimitsGrow;
    LimitsTrans(a.lim, b.lim, c.lim, k);
  }

  lemma InitInv(w: Walker, o: Space, tb: nat, roots: seq<int>, c: State)
    requires Layout(o) && o.end <= |c.to| && c == State(o.mem, c.to, [], [], 0, map[], [])
    requires WellFormed(w, o)
    ensures Inv(w, o, tb, roots, c)
  {
    hide BlockAt, PointerIn, Reachable, IsUser;
    if |o.blocks| > 0 {
      RemainingAll(o, 0);
    }
    assert c.fwd.Keys == {};
    forall s: nat | s in o.blocks
      ensures s < |o.mem| && o.mem[s] == 0
    {
      assert BlockOk(w, o, s);
    }
  }

  /** The words of a from-space block are still the original ones, apart from the forwarding pointer. */
  lemma BlockWords(w: Walker, o: Space, tb: nat, roots: seq<int>, c: State, s: nat)
    requires Layout(o) && Inv(w, o, tb, roots, c) && s in o.blocks
    ensures s + Size(o, s) <= |c.from| && c.from[s + 1] == Size(o, s) && c.from[s + 2] == Head(o, s)
    ensures c.from[s + 1..s + Size(o, s)] == o.mem[s + 1..s + Size(o, s)]
  {
    hide Copies, AllReachable, Bounded, Orders, PointerIn, Reachable;
    var k: nat :| k < |o.blocks| && o.blocks[k] == s;
    assert Contiguous(o, k);
    forall j: nat | j < |o.blocks|
      ensures o.blocks[j] <= s || o.blocks[j] >= s + Size(o, s)
    {
      assert j < k ==> o.blocks[j] + Size(o, o.blocks[j]) <= o.blocks[k];
    }
  }

  lemma Sizes(w: Walker, o: Space, tb: nat, roots: seq<int>, c: State)
    requires Inv(w, o, tb, roots, c)
    ensures |c.order| == |c.starts| == |c.lim|
  {
    hide Copies, AllReachable, Bounded, Layout, FromOk;
  }

  lemma ExtendsItself(w: Walker, o: Space, tb: nat, roots: seq<int>, c: State)
    requires Inv(w, o, tb, roots, c)
    ensures Extends(c, c)
  {
    hide Copies, AllReachable, Bounded, Layout, FromOk;
  }

  lemma ExtendsSelf(w: Walker, o: Space, tb: nat, roots: seq<int>, c: State, k: nat)
    requires Inv(w, o, tb, roots, c) && k < |c.order|
    ensures ExtendsBut(c, c, k) && |c.order| == |c.starts| == |c.lim|
  {
    hide Copies, AllReachable, Bounded, Layout, FromOk;
  }

  /** The element as it is in to-space now looks to the walker as it did in from-space. */
  lemma ElementNow(w: Walker, o: Space, tb: nat, roots: seq<int>, c: State, k: nat, b: nat, i: nat, ty: nat,
          e: seq<int>)
    requires Inv(w, o, tb, roots, c) && Stable(w) && k < |c.order| && c.lim[k] == b + i && i < |e|
    requires ElementOf(w, o, c.order[k], b, ty, e)
    ensures var pos := c.starts[k] + PROLOG + b;
      pos + |e| <= |c.to| && w.walk(ty, c.to[pos..pos + |e|], i) == w.walk(ty, e, i)
  {
    hide AllReachable, Bounded, Layout, FromOk, PointerIn, Settled, Forwarded, Reaches;
    var s, pos := c.order[k], c.starts[k] + PROLOG + b;
    assert BlockAt(w, o, tb, c.to, c.fwd, s, c.starts[k], c.lim[k]);
    var now := c.to[pos..pos + |e|];
    forall p: nat | p < |e| && e[p] != now[p]
      ensures w.walk(ty, e, p) == Pointer
    {
      assert e[p] == Data(o, s)[b + p];
      assert now[p] == c.to[c.starts[k] + PROLOG + (b + p)];
      assert Visited(w, ty, e, p);
    }
    assert PointerDiff(w, ty, e, now);
    assert SameWalk(w, ty, e, now);
  }

  /** The next word to scan still has its from-space value. */
  lemma NextWord(w: Walker, o: Space, tb: nat, roots: seq<int>, c: State, k: nat, q: nat)
    requires Inv(w, o, tb, roots, c) && k < |c.order| && c.lim[k] == q < |Data(o, c.order[k])|
    ensures c.starts[k] + PROLOG + q < |c.to| && c.to[c.starts[k] + PROLOG + q] == Data(o, c.order[k])[q]
  {
    hide AllReachable, Bounded, Layout, FromOk, PointerIn, Settled, Forwarded;
    assert BlockAt(w, o, tb, c.to, c.fwd, c.order[k], c.starts[k], c.lim[k]);
    assert CopyWord(w, o, tb, c.fwd, c.order[k], q, q) == Data(o, c.order[k])[q];
  }

  /** What a pointer word of a copied block points to is a reachable block. */
  lemma PointerTarget(w: Walker, o: Space, tb: nat, roots: seq<int>, c: State, k: nat, q: nat)
    requires Inv(w, o, tb, roots, c) && WellFormed(w, o) && k < |c.order| && PointerIn(w, o, c.order[k], q)
    requires q < |Data(o, c.order[k])| && Data(o, c.order[k])[q] != 0
    ensures IsUser(o, Data(o, c.order[k])[q]) && Reachable(w, o, roots, Data(o, c.order[k])[q] - o.base - PROLOG)
  {
    hide Copies, Bounded, Layout, FromOk, PointerIn, Reachable, Data;
    assert BlockOk(w, o, c.order[k]);
    EdgeReachable(w, o, roots, c.order[k], Data(o, c.order[k])[q] - o.base - PROLOG);
  }

  lemma NotPointer(w: Walker, o: Space, s: nat, b: nat, ty: nat, e: seq<int>, i: nat)
    requires ElementOf(w, o, s, b, ty, e) && i < |e| && w.walk(ty, e, i) == Skip
    ensures !PointerIn(w, o, s, b + i)
  {
    hide PointerIn, Data;
    assert !Visited(w, ty, e, i);
  }

  /** The walker stops at word i of the element: the rest of the element holds no pointer word. */
  lemma StopHere(w: Walker, o: Space, s: nat, b: nat, ty: nat, e: seq<int>, i: nat)
    requires ElementOf(w, o, s, b, ty, e)
    requires i < |e| && Reaches(w, ty, e, i) && w.walk(ty, e, i) in {End, EndArray}
    ensures forall q: nat {:trigger PointerIn(w, o, s, q)} :: b + i <= q < b + |e| ==> !PointerIn(w, o, s, q)
    ensures StopsArray(w, ty, e) == (w.walk(ty, e, i) == EndArray)
  {
    hide PointerIn, Data;
    forall q: nat | b + i <= q < b + |e|
      ensures !PointerIn(w, o, s, q)
    {
      assert !Visited(w, ty, e, q - b);
      assert q == b + (q - b);
    }
  }

  lemma ReachesOne(w: Walker, ty: nat, e: seq<int>, i: nat)
    requires i < |e| && Reaches(w, ty, e, i) && w.walk(ty, e, i) in {Skip, Pointer}
    ensures Reaches(w, ty, e, i + 1)
  {
  }

  lemma NoStop(w: Walker, ty: nat, e: seq<int>)
    requires Reaches(w, ty, e, |e|)
    ensures !StopsArray(w, ty, e)
  {
  }
}
