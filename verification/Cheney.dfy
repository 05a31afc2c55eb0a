/** What holds at every moment of a collection, and that its two steps keep it.

    The two steps are: copying a block that has not been forwarded to the end of to-space, and overwriting one
    pointer word of a copied block. */
module Cheney {
  import opened HeapModel

  /** from: from-space now; to: to-space now; order[k] is the k-th block copied and starts[k] where its copy is;
      target is the first free word of to-space; fwd maps a copied block to its copy; and the words of the k-th
      copy have been scanned up to lim[k]. */
  datatype State = State(from: seq<int>, to: seq<int>, order: seq<nat>, starts: seq<nat>, target: nat,
                         fwd: map<nat, nat>, lim: seq<nat>)

  /** The new value of pointer word `v`. */
  ghost function Forwarded(o: Space, tb: nat, fwd: map<nat, nat>, v: int): int {
    if IsUser(o, v) && v - o.base - PROLOG in fwd then tb + fwd[v - o.base - PROLOG] + PROLOG else 0
  }

  /** The target of word `v` has been copied, or there is none. */
  ghost predicate Settled(o: Space, fwd: map<nat, nat>, v: int) {
    v == 0 || (IsUser(o, v) && v - o.base - PROLOG in fwd)
  }

  /** Word `q` of the copy of block `s`, scanned up to `lim`. */
  ghost function CopyWord(w: Walker, o: Space, tb: nat, fwd: map<nat, nat>, s: nat, lim: nat, q: nat): int
    requires q < |Data(o, s)|
  {
    if q < lim && PointerIn(w, o, s, q) then Forwarded(o, tb, fwd, Data(o, s)[q]) else Data(o, s)[q]
  }

  ghost predicate BlockAt(w: Walker, o: Space, tb: nat, to: seq<int>, fwd: map<nat, nat>, s: nat, t: nat, lim: nat) {
    && |Data(o, s)| == Size(o, s) - PROLOG
    && t + Size(o, s) <= |to|
    && to[t] == 0 && to[t + 1] == Size(o, s) && to[t + 2] == Head(o, s)
    && (forall q: nat {:trigger Data(o, s)[q]} {:trigger CopyWord(w, o, tb, fwd, s, lim, q)} ::
          q < |Data(o, s)| ==> to[t + PROLOG + q] == CopyWord(w, o, tb, fwd, s, lim, q))
    && (forall q: nat {:trigger PointerIn(w, o, s, q)} ::
          q < lim && PointerIn(w, o, s, q) ==> Settled(o, fwd, Data(o, s)[q]))
  }

  ghost predicate Orders(o: Space, c: State) {
    && |c.order| == |c.starts| == |c.lim|
    && (forall k: nat :: k < |c.order| ==> c.order[k] in o.blocks && c.order[k] in c.fwd && c.fwd[c.order[k]] == c.starts[k])
    && (forall s: nat :: s in c.fwd ==> s in c.order)
    && (forall i: nat, j: nat :: i < j < |c.order| ==> c.order[i] != c.order[j])
  }

  ghost predicate FromOk(o: Space, tb: nat, c: State) {
    && |c.from| == |o.mem|
    && (forall i: nat :: i < |c.from| && i !in o.blocks ==> c.from[i] == o.mem[i])
    && (forall s: nat :: s in o.blocks ==> s < |c.from| && c.from[s] == if s in c.fwd then tb + c.fwd[s] else 0)
  }

  ghost function ToSpace(tb: nat, c: State): Space {
    Space(tb, c.to, c.starts, c.target)
  }

  ghost predicate Copies(w: Walker, o: Space, tb: nat, c: State)
    requires Orders(o, c)
  {
    forall k: nat {:trigger c.lim[k]} {:trigger c.order[k]} {:trigger c.starts[k]} ::
      k < |c.order| ==> BlockAt(w, o, tb, c.to, c.fwd, c.order[k], c.starts[k], c.lim[k])
  }

  ghost predicate AllReachable(w: Walker, o: Space, roots: seq<int>, c: State) {
    forall k: nat {:trigger c.order[k]} :: k < |c.order| ==> Reachable(w, o, roots, c.order[k])
  }

  /** Words of the blocks from the k-th on that are not in `done`. */
  ghost function Remaining(o: Space, k: nat, done: set<nat>): nat
    decreases |o.blocks| - k
  {
    if k >= |o.blocks| then 0
    else (if o.blocks[k] in done then 0 else Size(o, o.blocks[k])) + Remaining(o, k + 1, done)
  }

  ghost predicate Bounded(o: Space, c: State) {
    o.end <= |c.to| && c.target + Remaining(o, 0, c.fwd.Keys) == o.end
  }

  ghost predicate Inv(w: Walker, o: Space, tb: nat, roots: seq<int>, c: State) {
    && Orders(o, c)
    && FromOk(o, tb, c)
    && Layout(ToSpace(tb, c))
    && Copies(w, o, tb, c)
    && AllReachable(w, o, roots, c)
    && Bounded(o, c)
  }

  // ---- Accounting ----

  lemma {:induction false} RemainingAll(o: Space, k: nat)
    requires Layout(o) && k < |o.blocks|
    ensures Remaining(o, k, {}) == o.end - o.blocks[k]
    decreases |o.blocks| - k
  {
    if k + 1 < |o.blocks| {
      RemainingAll(o, k + 1);
    } else {
      assert Remaining(o, k + 1, {}) == 0;
    }
    assert Contiguous(o, k);
  }

  lemma {:induction false} RemainingSame(o: Space, k: nat, s: nat, done: set<nat>)
    requires s !in o.blocks[if k <= |o.blocks| then k else |o.blocks|..]
    ensures Remaining(o, k, done + {s}) == Remaining(o, k, done)
    decreases |o.blocks| - k
  {
    if k < |o.blocks| {
      assert o.blocks[k..][0] == o.blocks[k];
      assert o.blocks[k + 1..] == o.blocks[k..][1..];
      RemainingSame(o, k + 1, s, done);
    }
  }

  lemma {:induction false} RemainingTake(o: Space, k: nat, s: nat, done: set<nat>)
    requires Layout(o) && k <= |o.blocks| && s in o.blocks[k..] && s !in done
    ensures Remaining(o, k, done) == Remaining(o, k, done + {s}) + Size(o, s)
    decreases |o.blocks| - k
  {
    hide Size;
    assert o.blocks[k..][0] == o.blocks[k];
    assert o.blocks[k + 1..] == o.blocks[k..][1..];
    if o.blocks[k] == s {
      assert forall j: nat :: k < j < |o.blocks| ==> o.blocks[j] != s;
      RemainingSame(o, k + 1, s, done);
    } else {
      RemainingTake(o, k + 1, s, done);
    }
  }

  // ---- Step one: copy a block ----

  ghost predicate Appended(o: Space, tb: nat, c: State, s: nat, c': State) {
    && s < |c.from| && c'.from == c.from[s := tb + c.target]
    && |c'.to| == |c.to|
    && (forall i: nat :: i < c.target && i < |c.to| ==> c'.to[i] == c.to[i])
    && c.target + Size(o, s) <= |c.to|
    && c'.to[c.target] == 0 && c'.to[c.target + 1] == Size(o, s) && c'.to[c.target + 2] == Head(o, s)
    && c'.to[c.target + PROLOG..c.target + Size(o, s)] == Data(o, s)
    && c'.order == c.order + [s] && c'.starts == c.starts + [c.target] && c'.target == c.target + Size(o, s)
    && c'.fwd == c.fwd[s := c.target] && c'.lim == c.lim + [0]
  }

  lemma AppendOrders(o: Space, tb: nat, c: State, s: nat, c': State)
    requires Orders(o, c) && s in o.blocks && s !in c.fwd && Appended(o, tb, c, s, c')
    ensures Orders(o, c')
  {
    hide Size, Head, Data;
    forall r: nat | r in c'.fwd
      ensures r in c'.order
    {
      if r == s {
        assert c'.order[|c.order|] == s;
      } else {
        assert r in c.order;
      }
    }
  }

  lemma AppendFrom(o: Space, tb: nat, c: State, s: nat, c': State)
    requires FromOk(o, tb, c) && s in o.blocks && Appended(o, tb, c, s, c')
    ensures FromOk(o, tb, c')
  {
    hide Size, Head, Data;
  }

  lemma AppendLayout(o: Space, tb: nat, c: State, s: nat, c': State)
    requires Layout(ToSpace(tb, c)) && Appended(o, tb, c, s, c')
    ensures Layout(ToSpace(tb, c'))
  {
    hide Head, Data, Size, Contiguous;
    var a, b := ToSpace(tb, c), ToSpace(tb, c');
    forall k: nat | k < |b.blocks|
      ensures Contiguous(b, k)
      ensures k < |a.blocks| ==> Size(b, a.blocks[k]) == Size(a, a.blocks[k]) && a.blocks[k] + Size(a, a.blocks[k]) <= a.end
    {
      AppendContiguous(o, tb, c, s, c', k);
    }
  }

  lemma AppendContiguous(o: Space, tb: nat, c: State, s: nat, c': State, k: nat)
    requires Layout(ToSpace(tb, c)) && Appended(o, tb, c, s, c') && k < |c'.starts|
    ensures Contiguous(ToSpace(tb, c'), k)
    ensures var a := ToSpace(tb, c);
      k < |a.blocks| ==> Size(ToSpace(tb, c'), a.blocks[k]) == Size(a, a.blocks[k]) && a.blocks[k] + Size(a, a.blocks[k]) <= a.end
  {
    hide Head, Data;
    if k < |c.starts| {
      assert Contiguous(ToSpace(tb, c), k);
    }
  }

  /** A copy stays as it is when to-space only changes beyond it and the forwarding map only grows. */
  lemma BlockAtStays(w: Walker, o: Space, tb: nat, to: seq<int>, to': seq<int>, fwd: map<nat, nat>, fwd': map<nat, nat>,
                     s: nat, t: nat, lim: nat)
    requires BlockAt(w, o, tb, to, fwd, s, t, lim)
    requires |to'| == |to| && forall i: nat :: t <= i < t + Size(o, s) ==> to'[i] == to[i]
    requires forall r :: r in fwd ==> r in fwd' && fwd'[r] == fwd[r]
    ensures BlockAt(w, o, tb, to', fwd', s, t, lim)
  {
    hide Size, Head, Data, PointerIn, IsUser;
    forall q: nat | q < |Data(o, s)|
      ensures to'[t + PROLOG + q] == CopyWord(w, o, tb, fwd', s, lim, q)
    {
      assert to[t + PROLOG + q] == CopyWord(w, o, tb, fwd, s, lim, q);
      if q < lim && PointerIn(w, o, s, q) {
        assert Settled(o, fwd, Data(o, s)[q]);
      }
    }
  }

  lemma AppendedBlockAt(w: Walker, o: Space, tb: nat, c: State, s: nat, c': State)
    requires Layout(o) && s in o.blocks && Appended(o, tb, c, s, c')
    ensures BlockAt(w, o, tb, c'.to, c'.fwd, s, c.target, 0)
  {
    hide PointerIn;
    var k: nat :| k < |o.blocks| && o.blocks[k] == s;
    forall q: nat | q < |Data(o, s)|
      ensures c'.to[c.target + PROLOG + q] == CopyWord(w, o, tb, c'.fwd, s, 0, q)
    {
      assert c'.to[c.target + PROLOG..c.target + Size(o, s)][q] == Data(o, s)[q];
    }
  }

  lemma AppendCopies(w: Walker, o: Space, tb: nat, c: State, s: nat, c': State)
    requires Layout(o) && Orders(o, c) && Orders(o, c') && Layout(ToSpace(tb, c)) && Copies(w, o, tb, c)
    requires s in o.blocks && s !in c.fwd && Appended(o, tb, c, s, c')
    ensures Copies(w, o, tb, c')
  {
    forall k: nat | k < |c'.order|
      ensures BlockAt(w, o, tb, c'.to, c'.fwd, c'.order[k], c'.starts[k], c'.lim[k])
    {
      if k == |c.order| {
        AppendedBlockAt(w, o, tb, c, s, c');
      } else {
        AppendKeepsCopy(w, o, tb, c, s, c', k);
      }
    }
  }

  lemma AppendKeepsCopy(w: Walker, o: Space, tb: nat, c: State, s: nat, c': State, k: nat)
    requires Orders(o, c) && Layout(ToSpace(tb, c)) && Copies(w, o, tb, c) && k < |c.order|
    requires s !in c.fwd && Appended(o, tb, c, s, c')
    ensures BlockAt(w, o, tb, c'.to, c'.fwd, c.order[k], c.starts[k], c.lim[k])
  {
    hide Head, Data, PointerIn;
    var a := ToSpace(tb, c);
    assert Contiguous(a, k);
    assert BlockAt(w, o, tb, c.to, c.fwd, c.order[k], c.starts[k], c.lim[k]);
    BlockAtStays(w, o, tb, c.to, c'.to, c.fwd, c'.fwd, c.order[k], c.starts[k], c.lim[k]);
  }

  /** Copying a block that is not forwarded yet keeps the invariant, and there is room for it. */
  lemma AppendKeepsInv(w: Walker, o: Space, tb: nat, roots: seq<int>, c: State, s: nat, c': State)
    requires Layout(o) && Inv(w, o, tb, roots, c)
    requires s in o.blocks && s !in c.fwd && Reachable(w, o, roots, s) && Appended(o, tb, c, s, c')
    ensures Inv(w, o, tb, roots, c')
  {
    hide Size, Head, Data, PointerIn, Reachable, Layout, FromOk, BlockAt;
    AppendOrders(o, tb, c, s, c');
    AppendFrom(o, tb, c, s, c');
    AppendLayout(o, tb, c, s, c');
    AppendCopies(w, o, tb, c, s, c');
    assert c'.fwd.Keys == c.fwd.Keys + {s};
    assert o.blocks[0..] == o.blocks;
    RemainingTake(o, 0, s, c.fwd.Keys);
  }

  /** There is room in to-space for a block that is not forwarded yet. */
  lemma RoomFor(w: Walker, o: Space, tb: nat, roots: seq<int>, c: State, s: nat)
    requires Layout(o) && Inv(w, o, tb, roots, c) && s in o.blocks && s !in c.fwd
    ensures c.target + Size(o, s) <= o.end <= |c.to|
  {
    hide Size, Layout, FromOk, BlockAt;
    assert o.blocks[0..] == o.blocks;
    RemainingTake(o, 0, s, c.fwd.Keys);
  }

  // ---- Step two: scan on ----

  /** Nothing to do up to word `lim` of the k-th copy: it counts as scanned. */
  lemma SkipKeepsInv(w: Walker, o: Space, tb: nat, roots: seq<int>, c: State, k: nat, lim: nat)
    requires Inv(w, o, tb, roots, c) && k < |c.order| && c.lim[k] <= lim
    requires forall q: nat :: c.lim[k] <= q < lim ==> !PointerIn(w, o, c.order[k], q)
    ensures Inv(w, o, tb, roots, c.(lim := c.lim[k := lim]))
  {
    hide Size, Head, Data, PointerIn, Reachable, Layout;
    var c' := c.(lim := c.lim[k := lim]);
    forall i: nat | i < |c.order|
      ensures BlockAt(w, o, tb, c.to, c.fwd, c.order[i], c.starts[i], c'.lim[i])
    {
      assert BlockAt(w, o, tb, c.to, c.fwd, c.order[i], c.starts[i], c.lim[i]);
      if i == k {
        SkipInBlock(w, o, tb, c.to, c.fwd, c.order[k], c.starts[k], c.lim[k], lim);
      }
    }
  }

  lemma SkipInBlock(w: Walker, o: Space, tb: nat, to: seq<int>, fwd: map<nat, nat>, s: nat, t: nat, lim: nat, lim': nat)
    requires BlockAt(w, o, tb, to, fwd, s, t, lim) && lim <= lim'
    requires forall q: nat :: lim <= q < lim' ==> !PointerIn(w, o, s, q)
    ensures BlockAt(w, o, tb, to, fwd, s, t, lim')
  {
    hide Size, Head, Data, PointerIn, IsUser;
    forall q: nat | q < |Data(o, s)|
      ensures CopyWord(w, o, tb, fwd, s, lim', q) == CopyWord(w, o, tb, fwd, s, lim, q)
    {
    }
  }

  ghost function WriteTo(o: Space, tb: nat, c: State, k: nat, q: nat): State
    requires k < |c.order| == |c.starts| == |c.lim| && q < |Data(o, c.order[k])| && c.starts[k] + PROLOG + q < |c.to|
  {
    c.(to := c.to[c.starts[k] + PROLOG + q := Forwarded(o, tb, c.fwd, Data(o, c.order[k])[q])], lim := c.lim[k := q + 1])
  }

  lemma WriteInBlock(w: Walker, o: Space, tb: nat, to: seq<int>, fwd: map<nat, nat>, s: nat, t: nat, q: nat)
    requires BlockAt(w, o, tb, to, fwd, s, t, q)
    requires PointerIn(w, o, s, q) && q < |Data(o, s)| && Settled(o, fwd, Data(o, s)[q])
    ensures BlockAt(w, o, tb, to[t + PROLOG + q := Forwarded(o, tb, fwd, Data(o, s)[q])], fwd, s, t, q + 1)
  {
    hide Size, Head, Data, PointerIn, IsUser;
    var to' := to[t + PROLOG + q := Forwarded(o, tb, fwd, Data(o, s)[q])];
    forall p: nat {:trigger Data(o, s)[p]} | p < |Data(o, s)|
      ensures to'[t + PROLOG + p] == CopyWord(w, o, tb, fwd, s, q + 1, p)
    {
      assert to[t + PROLOG + p] == CopyWord(w, o, tb, fwd, s, q, p);
    }
  }

  /** Overwriting the next pointer word of a copy with its forwarded value keeps the invariant. */
  lemma WriteKeepsInv(w: Walker, o: Space, tb: nat, roots: seq<int>, c: State, k: nat, q: nat)
    requires Inv(w, o, tb, roots, c) && k < |c.order| && c.lim[k] == q < |Data(o, c.order[k])|
    requires PointerIn(w, o, c.order[k], q) && Settled(o, c.fwd, Data(o, c.order[k])[q])
    requires c.starts[k] + PROLOG + q < |c.to|
    ensures Inv(w, o, tb, roots, WriteTo(o, tb, c, k, q))
  {
    hide PointerIn, Reachable, BlockAt, Layout, Forwarded, Settled, Data, Remaining;
    var c' := WriteTo(o, tb, c, k, q);
    WriteLayout(w, o, tb, roots, c, k, q);
    forall i: nat | i < |c.order|
      ensures BlockAt(w, o, tb, c'.to, c'.fwd, c'.order[i], c'.starts[i], c'.lim[i])
    {
      WriteCopies(w, o, tb, roots, c, k, q, i);
    }
  }

  lemma WriteLayout(w: Walker, o: Space, tb: nat, roots: seq<int>, c: State, k: nat, q: nat)
    requires Inv(w, o, tb, roots, c) && k < |c.order| && q < |Data(o, c.order[k])|
    requires c.starts[k] + PROLOG + q < |c.to|
    ensures Layout(ToSpace(tb, WriteTo(o, tb, c, k, q)))
  {
    hide PointerIn, Reachable, FromOk, Bounded, Remaining, AllReachable, BlockAt, Copies, Forwarded, Data, Contiguous,
      Size;
    var a, b := ToSpace(tb, c), ToSpace(tb, WriteTo(o, tb, c, k, q));
    forall i: nat | i < |b.blocks|
      ensures Size(b, b.blocks[i]) == Size(a, a.blocks[i]) && Contiguous(b, i)
    {
      WriteContiguous(w, o, tb, roots, c, k, q, i);
    }
  }

  lemma WriteContiguous(w: Walker, o: Space, tb: nat, roots: seq<int>, c: State, k: nat, q: nat, i: nat)
    requires Inv(w, o, tb, roots, c) && k < |c.order| && q < |Data(o, c.order[k])|
    requires c.starts[k] + PROLOG + q < |c.to| && i < |c.starts|
    ensures var a, b := ToSpace(tb, c), ToSpace(tb, WriteTo(o, tb, c, k, q));
      Size(b, b.blocks[i]) == Size(a, a.blocks[i]) && Contiguous(b, i)
  {
    hide PointerIn, Reachable, FromOk, Bounded, Remaining, AllReachable, BlockAt, Copies, Forwarded, Data;
    assert Contiguous(ToSpace(tb, c), i);
    WriteMisses(w, o, tb, roots, c, k, q, i);
    CopySize(w, o, tb, roots, c, i);
    assert c.to[c.starts[i] + 1] == WriteTo(o, tb, c, k, q).to[c.starts[i] + 1];
  }

  /** A word of the data of copy k is not in the prolog of copy i, and not in copy i at all when i is not k. */
  lemma WriteMisses(w: Walker, o: Space, tb: nat, roots: seq<int>, c: State, k: nat, q: nat, i: nat)
    requires Inv(w, o, tb, roots, c) && k < |c.order| && q < |Data(o, c.order[k])| && i < |c.order|
    ensures c.starts[i] + Size(o, c.order[i]) <= |c.to|
    ensures c.starts[k] + PROLOG + q < c.starts[k] + Size(o, c.order[k])
    ensures i < k ==> c.starts[i] + Size(o, c.order[i]) <= c.starts[k]
    ensures k < i ==> c.starts[k] + Size(o, c.order[k]) <= c.starts[i]
  {
    hide PointerIn, Reachable, FromOk, Bounded, Remaining, AllReachable, Head, CopyWord, IsUser, Forwarded;
    var a := ToSpace(tb, c);
    CopySize(w, o, tb, roots, c, k);
    CopySize(w, o, tb, roots, c, i);
  }

  lemma CopySize(w: Walker, o: Space, tb: nat, roots: seq<int>, c: State, k: nat)
    requires Inv(w, o, tb, roots, c) && k < |c.order|
    ensures Size(ToSpace(tb, c), c.starts[k]) == Size(o, c.order[k])
    ensures |Data(o, c.order[k])| == Size(o, c.order[k]) - PROLOG
    ensures c.starts[k] + Size(o, c.order[k]) <= |c.to|
  {
    hide PointerIn, Reachable, FromOk, Bounded, Remaining, AllReachable, Head, CopyWord, IsUser, Forwarded, Layout,
      Data;
    assert BlockAt(w, o, tb, c.to, c.fwd, c.order[k], c.starts[k], c.lim[k]);
  }

  lemma WriteCopies(w: Walker, o: Space, tb: nat, roots: seq<int>, c: State, k: nat, q: nat, i: nat)
    requires Inv(w, o, tb, roots, c) && k < |c.order| && c.lim[k] == q < |Data(o, c.order[k])| && i < |c.order|
    requires PointerIn(w, o, c.order[k], q) && Settled(o, c.fwd, Data(o, c.order[k])[q])
    requires c.starts[k] + PROLOG + q < |c.to|
    ensures var c' := WriteTo(o, tb, c, k, q); BlockAt(w, o, tb, c'.to, c.fwd, c.order[i], c.starts[i], c'.lim[i])
  {
    hide PointerIn, Reachable, FromOk, Bounded, Remaining, AllReachable, Head, Data, Size, CopyWord, Layout;
    assert BlockAt(w, o, tb, c.to, c.fwd, c.order[i], c.starts[i], c.lim[i]);
    if i == k {
      WriteInBlock(w, o, tb, c.to, c.fwd, c.order[k], c.starts[k], q);
    } else {
      WriteMisses(w, o, tb, roots, c, k, q, i);
      var c' := WriteTo(o, tb, c, k, q);
      BlockAtStays(w, o, tb, c.to, c'.to, c.fwd, c.fwd, c.order[i], c.starts[i], c.lim[i]);
    }
  }
}
