/** What a program can tell through its roots: reading along pointer words gives the same before and after a
    collection. */
module AccessPaths {
  import opened Wrappers
  import opened HeapModel
  import opened Cheney
  import opened CollectionResult

  /** The value reached from `v` by following the pointer words at these offsets, one block after the other; none if a
      step is not a pointer word of a block. */
  ghost function Follow(w: Walker, sp: Space, v: int, path: seq<nat>): Option<int>
    decreases |path|
  {
    if path == [] then Some(v)
    else if IsUser(sp, v) && PointerIn(w, sp, v - sp.base - PROLOG, path[0]) then
      Follow(w, sp, Data(sp, v - sp.base - PROLOG)[path[0]], path[1..])
    else None
  }

  /** A block as it is seen: its size and header, and its words where they are not pointers. */
  ghost predicate LooksLike(w: Walker, o: Space, s: nat, n: Space, t: nat) {
    && Size(n, t) == Size(o, s) && Head(n, t) == Head(o, s) && |Data(n, t)| == |Data(o, s)|
    && forall q: nat {:trigger PointerIn(w, n, t, q)} :: q < |Data(o, s)| ==>
         (PointerIn(w, n, t, q) <==> PointerIn(w, o, s, q)) && (!PointerIn(w, o, s, q) ==> Data(n, t)[q] == Data(o, s)[q])
  }

  /** A path that leads somewhere before leads to the copy of it afterwards, and one that does not still does not. */
  lemma {:induction false} FollowsAlike(w: Walker, o: Space, roots: seq<int>, n: Space, fwd: map<nat, nat>, v: int,
          path: seq<nat>)
    requires Renamed(w, o, roots, n, fwd) && o.base > 0 && n.base > 0 && Settled(o, fwd, v)
    ensures var before, after := Follow(w, o, v, path), Follow(w, n, Forwarded(o, n.base, fwd, v), path);
      && (before.None? <==> after.None?)
      && (before.Some? ==> Settled(o, fwd, before.value) && after.value == Forwarded(o, n.base, fwd, before.value))
    decreases |path|
  {
    hide Renamed, SameBlock, PointerIn, Data, LooksLike;
    if path != [] {
      if v == 0 {
        NullIsNoUser(o);
        NullIsNoUser(n);
      } else {
        var s := CopyOf(w, o, roots, n, fwd, v);
        StepAlike(w, o, n, fwd, s, path[0]);
        if PointerIn(w, o, s, path[0]) {
          FollowsAlike(w, o, roots, n, fwd, Data(o, s)[path[0]], path[1..]);
        }
      }
    }
  }

  /** The block a value points to has been copied. */
  lemma CopyOf(w: Walker, o: Space, roots: seq<int>, n: Space, fwd: map<nat, nat>, v: int) returns (s: nat)
    requires Renamed(w, o, roots, n, fwd) && Settled(o, fwd, v) && v != 0
    ensures v == o.base + s + PROLOG && s in o.blocks && s in fwd && fwd[s] in n.blocks && SameBlock(w, o, s, n, fwd)
  {
    hide PointerIn, SameBlock;
    s := v - o.base - PROLOG;
    InNewSpace(w, o, s, n, fwd);
  }

  lemma InNewSpace(w: Walker, o: Space, s: nat, n: Space, fwd: map<nat, nat>)
    ensures SameBlock(w, o, s, n, fwd) ==> s in fwd && fwd[s] in n.blocks
  {
  }

  lemma NullIsNoUser(sp: Space)
    requires sp.base > 0
    ensures !IsUser(sp, 0)
  {
  }

  lemma StepAlike(w: Walker, o: Space, n: Space, fwd: map<nat, nat>, s: nat, q: nat)
    requires SameBlock(w, o, s, n, fwd)
    ensures PointerIn(w, n, fwd[s], q) <==> PointerIn(w, o, s, q)
    ensures PointerIn(w, o, s, q) ==> q < |Data(o, s)| && q < |Data(n, fwd[s])| && Settled(o, fwd, Data(o, s)[q]) && Data(n, fwd[s])[q] == Forwarded(o, n.base, fwd, Data(o, s)[q])
    ensures LooksLike(w, o, s, n, fwd[s])
  {
    PointersInData(w, o, s, q);
    PointersInData(w, n, fwd[s], q);
    hide PointerIn;
  }

  lemma PointersInData(w: Walker, sp: Space, s: nat, q: nat)
    ensures PointerIn(w, sp, s, q) ==> q < |Data(sp, s)|
  {
  }

  /** What a path leads to looks the same afterwards. */
  lemma SeesTheSame(w: Walker, o: Space, roots: seq<int>, n: Space, fwd: map<nat, nat>, v: int, path: seq<nat>)
    requires Renamed(w, o, roots, n, fwd) && o.base > 0 && n.base > 0 && Settled(o, fwd, v)
    requires Follow(w, o, v, path).Some?
    ensures var before, after := Follow(w, o, v, path).value, Follow(w, n, Forwarded(o, n.base, fwd, v), path);
      && after.Some? && (before == 0 <==> after.value == 0)
      && (before != 0 ==> IsUser(o, before) && IsUser(n, after.value)
                          && LooksLike(w, o, before - o.base - PROLOG, n, after.value - n.base - PROLOG))
  {
    hide Renamed, SameBlock, LooksLike, Follow;
    FollowsAlike(w, o, roots, n, fwd, v, path);
    var before := Follow(w, o, v, path).value;
    NullIsNoUser(o);
    if before != 0 {
      var s := CopyOf(w, o, roots, n, fwd, before);
      StepAlike(w, o, n, fwd, s, 0);
    }
  }

  /** Two paths lead to one and the same block afterwards exactly if they did before. */
  lemma SharesTheSame(w: Walker, o: Space, roots: seq<int>, n: Space, fwd: map<nat, nat>, v: int, path: seq<nat>,
          v': int, path': seq<nat>)
    requires Renamed(w, o, roots, n, fwd) && o.base > 0 && n.base > 0 && Settled(o, fwd, v) && Settled(o, fwd, v')
    requires Follow(w, o, v, path).Some? && Follow(w, o, v', path').Some?
    ensures Follow(w, o, v, path) == Follow(w, o, v', path') <==>
      Follow(w, n, Forwarded(o, n.base, fwd, v), path) == Follow(w, n, Forwarded(o, n.base, fwd, v'), path')
  {
    hide Renamed, Follow;
    FollowsAlike(w, o, roots, n, fwd, v, path);
    FollowsAlike(w, o, roots, n, fwd, v', path');
    NullIsNoUser(o);
    ForwardedApart(w, o, roots, n, fwd, Follow(w, o, v, path).value, Follow(w, o, v', path').value);
  }

  lemma ForwardedApart(w: Walker, o: Space, roots: seq<int>, n: Space, fwd: map<nat, nat>, a: int, b: int)
    requires Renamed(w, o, roots, n, fwd) && o.base > 0 && n.base > 0 && Settled(o, fwd, a) && Settled(o, fwd, b)
    ensures a == b <==> Forwarded(o, n.base, fwd, a) == Forwarded(o, n.base, fwd, b)
  {
    NullIsNoUser(o);
    hide SameBlock;
  }
}
