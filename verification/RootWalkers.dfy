/** Where the collector finds its roots: a table of handles with a free list and a stack of local scopes. Each walker
    hands out every slot that holds a root exactly once. */
module RootWalkers {
  import opened Sets
  import opened Wrappers

  // ---- Handles ----

  ghost predicate Distinct(s: seq<nat>) {
    forall i: nat, j: nat :: i < j < |s| ==> s[i] != s[j]
  }

  ghost predicate StrictlyIncreasing(s: seq<nat>) {
    forall i: nat, j: nat :: i < j < |s| ==> s[i] < s[j]
  }

  /** The handles in use from the k-th slot on, in order. */
  function LiveFrom(ptrs: seq<nat>, k: nat): seq<nat>
    decreases |ptrs| - k
  {
    if k >= |ptrs| then [] else if ptrs[k] != 0 then [k] + LiveFrom(ptrs, k + 1) else LiveFrom(ptrs, k + 1)
  }

  /** The enumeration is strictly increasing, so it names no slot twice, and it names exactly the slots in use. */
  lemma {:induction false} LiveOnce(ptrs: seq<nat>, k: nat)
    ensures StrictlyIncreasing(LiveFrom(ptrs, k))
    ensures forall h: nat :: h in LiveFrom(ptrs, k) <==> k <= h < |ptrs| && ptrs[h] != 0
    decreases |ptrs| - k
  {
    if k < |ptrs| {
      LiveOnce(ptrs, k + 1);
      var rest := LiveFrom(ptrs, k + 1);
      assert forall i: nat :: i < |rest| ==> rest[i] in rest;
    }
  }

  class RootHandles {
    var ptrs: seq<nat>  // 0 for a slot that is free
    var free: seq<nat>

    /** The free list names each free slot once. */
    ghost predicate Valid()
      reads this
    {
      && Distinct(free) && (forall i: nat :: i < |free| ==> free[i] < |ptrs|)
      && (forall h: nat :: h < |ptrs| ==> (ptrs[h] == 0 <==> h in free))
    }

    constructor ()
      ensures Valid() && ptrs == []
    {
      ptrs, free := [], [];
    }

    /** A handle that was not in use; the others keep their targets. */
    method Add(ptr: nat) returns (handle: nat)
      requires Valid() && ptr != 0
      modifies this
      ensures Valid() && handle < |ptrs| && ptrs[handle] == ptr
      ensures handle >= |old(ptrs)| || old(ptrs)[handle] == 0
      ensures |ptrs| == (if handle < |old(ptrs)| then |old(ptrs)| else |old(ptrs)| + 1)
      ensures forall h: nat :: h < |old(ptrs)| && h != handle ==> ptrs[h] == old(ptrs)[h]
    {
      if free != [] {
        var last := |free| - 1;
        handle := free[last];
        assert handle in free;
        assert forall h: nat :: h in free <==> h == handle || h in free[..last];
        free := free[..last];
        ptrs := ptrs[handle := ptr];
      } else {
        handle := |ptrs|;
        ptrs := ptrs + [ptr];
      }
    }

    /** Gives a handle in use back. */
    method Remove(handle: nat) returns (ptr: nat)
      requires Valid() && handle < |ptrs| && ptrs[handle] != 0
      modifies this
      ensures Valid() && ptr == old(ptrs)[handle] && ptrs == old(ptrs)[handle := 0]
    {
      free := free + [handle];
      ptr := ptrs[handle];
      ptrs := ptrs[handle := 0];
    }

    /** A second handle for the same target. */
    method CloneRoot(handle: nat) returns (copy: nat)
      requires Valid() && handle < |ptrs| && ptrs[handle] != 0
      modifies this
      ensures Valid() && copy != handle && copy < |ptrs| && |old(ptrs)| <= |ptrs|
      ensures ptrs[copy] == ptrs[handle] == old(ptrs)[handle]
      ensures forall h: nat :: h < |old(ptrs)| && h != copy ==> ptrs[h] == old(ptrs)[h]
    {
      var ptr := ptrs[handle];
      copy := Add(ptr);
    }

    /** There is a handle to walk exactly if not every slot is free, which is what the collection tests by counting. */
    lemma AnyInUse()
      requires Valid()
      ensures |ptrs| != |free| <==> LiveFrom(ptrs, 0) != []
    {
      LiveOnce(ptrs, 0);
      if LiveFrom(ptrs, 0) == [] {
        forall h: nat | h < |ptrs|
          ensures h in free
        {
          assert h !in LiveFrom(ptrs, 0);
        }
        AllFree(free, |ptrs|);
      } else {
        var h := LiveFrom(ptrs, 0)[0];
        assert h in LiveFrom(ptrs, 0);
        FewerFree(free, |ptrs|, h);
      }
    }
  }

  ghost function Below(n: nat): set<nat> {
    if n == 0 then {} else Below(n - 1) + {n - 1}
  }

  lemma {:induction false} BelowSize(n: nat)
    ensures |Below(n)| == n && forall k: nat :: k in Below(n) <==> k < n
  {
    if n > 0 {
      BelowSize(n - 1);
    }
  }

  lemma {:induction false} DistinctSize(s: seq<nat>)
    requires Distinct(s)
    ensures |Elements(s)| == |s|
  {
    if s != [] {
      var last := |s| - 1;
      DistinctSize(s[..last]);
      assert Elements(s) == Elements(s[..last]) + {s[last]};
      assert s[last] !in s[..last];
    }
  }

  ghost function Elements(s: seq<nat>): set<nat> {
    set x | x in s
  }

  lemma AllFree(free: seq<nat>, n: nat)
    requires Distinct(free) && (forall i: nat :: i < |free| ==> free[i] < n) && (forall h: nat :: h < n ==> h in free)
    ensures |free| == n
  {
    DistinctSize(free);
    BelowSize(n);
    assert Elements(free) == Below(n);
  }

  lemma FewerFree(free: seq<nat>, n: nat, h: nat)
    requires Distinct(free) && (forall i: nat :: i < |free| ==> free[i] < n) && h < n && h !in free
    ensures |free| < n
  {
    DistinctSize(free);
    BelowSize(n);
    SubsetSize(Elements(free), Below(n) - {h});
  }

  class RootHandlesWalker {
    const ptrs: seq<nat>
    var at: nat

    constructor (ptrs: seq<nat>)
      ensures this.ptrs == ptrs && at == 0
    {
      this.ptrs, at := ptrs, 0;
    }

    /** The next slot in use. */
    method Next() returns (slot: Option<nat>)
      modifies this
      ensures LiveFrom(ptrs, old(at)) == if slot.Some? then [slot.value] + LiveFrom(ptrs, at) else []
      ensures slot.Some? ==> old(at) < at <= |ptrs|
    {
      while at < |ptrs|
        invariant old(at) <= at && LiveFrom(ptrs, old(at)) == LiveFrom(ptrs, at)
      {
        var slot := at;
        at := at + 1;
        if ptrs[slot] != 0 {
          return Some(slot);
        }
      }
      return None;
    }

    /** Calling it until it has no more gives every handle in use, once. */
    method Drain() returns (slots: seq<nat>)
      modifies this
      ensures slots == LiveFrom(ptrs, old(at))
    {
      slots := [];
      var next := Next();
      while next.Some?
        invariant next.Some? ==> at <= |ptrs| && LiveFrom(ptrs, old(at)) == slots + [next.value] + LiveFrom(ptrs, at)
        invariant next.None? ==> LiveFrom(ptrs, old(at)) == slots
        decreases next.Some?, |ptrs| - at
      {
        slots := slots + [next.value];
        next := Next();
      }
    }
  }

  // ---- Local scopes ----

  /** A scope's handles: the block in use and the full ones it has outgrown. */
  datatype Scope = Scope(current: seq<nat>, full: seq<seq<nat>>)

  /** A slot of a local handle: its scope, its block there (0 for the current one) and its place. */
  datatype Slot = Slot(scope: nat, block: nat, index: nat)

  function BlockOf(s: Scope, block: nat): seq<nat>
    requires block <= |s.full|
  {
    if block == 0 then s.current else s.full[block - 1]
  }

  ghost predicate Exists(scopes: seq<Scope>, x: Slot) {
    x.scope < |scopes| && x.block <= |scopes[x.scope].full| && x.index < |BlockOf(scopes[x.scope], x.block)|
  }

  ghost predicate Before(x: Slot, y: Slot) {
    x.scope < y.scope || (x.scope == y.scope && (x.block < y.block || (x.block == y.block && x.index < y.index)))
  }

  /** From the given position on, in the order the walker goes. */
  ghost predicate From(x: Slot, y: Slot) {
    x == y || Before(x, y)
  }

  class LocalScopesWalker {
    const scopes: seq<Scope>
    var scope: nat
    var block: nat
    var index: nat

    constructor (scopes: seq<Scope>)
      ensures this.scopes == scopes && scope == 0 && block == 0 && index == 0
    {
      this.scopes, scope, block, index := scopes, 0, 0, 0;
    }

    ghost predicate Valid()
      reads this
    {
      && scope <= |scopes| && (scope == |scopes| ==> block == 0 && index == 0)
      && (scope < |scopes| ==> block <= |scopes[scope].full| + 1)
      && (scope < |scopes| && block == |scopes[scope].full| + 1 ==> index == 0)
      && (scope < |scopes| && block <= |scopes[scope].full| ==> index <= |BlockOf(scopes[scope], block)|)
    }

    ghost function Position(): Slot
      reads this
    {
      Slot(scope, block, index)
    }

    /** The next slot: no existing slot between the old position and it is left out. */
    method Next() returns (slot: Option<Slot>)
      requires Valid()
      modifies this
      ensures Valid()
      ensures slot.None? ==> forall x :: Exists(scopes, x) ==> !From(old(Position()), x)
      ensures slot.Some? ==> Exists(scopes, slot.value) && From(old(Position()), slot.value) && Before(slot.value, Position())
      ensures slot.Some? ==> forall x :: Exists(scopes, x) && From(old(Position()), x) ==> x == slot.value || From(Position(), x)
    {
      while true
        invariant Valid()
        invariant From(old(Position()), Position())
        invariant forall x :: Exists(scopes, x) && From(old(Position()), x) ==> From(Position(), x)
        decreases |scopes| - scope, if scope < |scopes| then |scopes[scope].full| + 1 - block else 0
      {
        if scope == |scopes| {
          return None;
        }
        if block > |scopes[scope].full| {
          block := 0;
          scope := scope + 1;
          continue;
        }
        if index >= |BlockOf(scopes[scope], block)| {
          index := 0;
          block := block + 1;
          continue;
        }
        slot := Some(Slot(scope, block, index));
        index := index + 1;
        return;
      }
    }

    /** Calling it until it has no more gives every slot that exists, once and in order. */
    method Drain() returns (slots: seq<Slot>)
      requires Valid()
      modifies this
      ensures forall x {:trigger Exists(scopes, x)} {:trigger x in slots} :: x in slots <==> Exists(scopes, x) && From(old(Position()), x)
      ensures forall i: nat, j: nat :: i < j < |slots| ==> Before(slots[i], slots[j])
    {
      slots := [];
      var next := Next();
      while next.Some?
        invariant Valid()
        invariant forall i: nat, j: nat :: i < j < |slots| ==> Before(slots[i], slots[j])
        invariant forall x :: x in slots ==> Exists(scopes, x) && From(old(Position()), x)
        invariant next.Some? ==> Exists(scopes, next.value) && From(old(Position()), next.value) && Before(next.value, Position())
        invariant next.Some? ==> forall x :: x in slots ==> Before(x, next.value)
        invariant next.Some? ==> forall x :: Exists(scopes, x) && From(old(Position()), x) ==> x in slots || x == next.value || From(Position(), x)
        invariant next.None? ==> forall x :: Exists(scopes, x) && From(old(Position()), x) ==> x in slots
        decreases next.Some?, |scopes| - scope, if scope < |scopes| then |scopes[scope].full| + 1 - block else 0,
                  if scope < |scopes| && block <= |scopes[scope].full| then |BlockOf(scopes[scope], block)| - index else 0
      {
        ghost var before := slots;
        ghost var last := next.value;
        slots := slots + [next.value];
        assert forall x :: x in slots <==> x in before || x == last;
        next := Next();
      }
    }
  }
}
