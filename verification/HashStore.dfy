/** The property table: a chained scatter table whose chains run through the array itself. Every operation refines
    the same operation on a finite map. */
module HashStore {
  import opened Sets
  import opened Wrappers

  /** Slots are zeroed when they are cleared, so an invalid one reads as name 0 linked to slot 0. */
  datatype Entry<V> = Empty | Full(name: nat, next: int, value: V) {
    function Name(): nat {
      if Full? then name else 0
    }

    function Next(): int {
      if Full? then next else 0
    }
  }

  datatype StoreKey = End(length: nat) | Key(name: nat) | Missing

  function Home(name: nat, length: nat): nat
    requires length > 0
    ensures Home(name, length) < length
  {
    name % length
  }

  // ---- The table as a value ----

  /** Slot indices of one chain in order. */
  type Chain = seq<nat>

  ghost predicate Link<V>(es: seq<Entry<V>>, c: Chain, h: nat, k: nat) {
    && k < |c| && c[k] < |es| && es[c[k]].Full? && Home(es[c[k]].name, |es|) == h
    && es[c[k]].next == (if k + 1 < |c| then c[k + 1] else -1)
  }

  /** A chain starts at its home slot, never comes back to a slot and links exactly its own slots. */
  ghost predicate ChainOk<V>(es: seq<Entry<V>>, c: Chain, h: nat) {
    && (c != [] ==> c[0] == h)
    && (forall k: nat :: k < |c| ==> Link(es, c, h, k))
    && (forall j: nat, k: nat {:trigger c[j], c[k]} :: j < k < |c| ==> c[j] != c[k])
  }

  ghost predicate Chained<V>(es: seq<Entry<V>>, chains: seq<Chain>) {
    && es != [] && |chains| == |es|
    && (forall h: nat {:trigger chains[h]} :: h < |es| ==> ChainOk(es, chains[h], h))
    && (forall s: nat {:trigger es[s]} :: s < |es| && es[s].Full? ==> s in chains[Home(es[s].name, |es|)])
  }

  /** Each name is in one slot, and each valid slot is the slot of its name. */
  ghost predicate Indexed<V>(es: seq<Entry<V>>, slots: map<nat, nat>) {
    && (forall n: nat {:trigger slots[n]} :: n in slots ==> slots[n] < |es| && es[slots[n]].Full? && es[slots[n]].name == n)
    && (forall s: nat {:trigger es[s]} :: s < |es| && es[s].Full? ==> es[s].name in slots && slots[es[s].name] == s)
  }

  ghost function Contents<V>(es: seq<Entry<V>>, slots: map<nat, nat>): map<nat, V>
    requires Indexed(es, slots)
  {
    map n | n in slots :: es[slots[n]].value
  }

  // ---- Frames ----

  lemma SameChain<V>(es: seq<Entry<V>>, es': seq<Entry<V>>, c: Chain, h: nat)
    requires es != [] && |es'| == |es| && ChainOk(es, c, h)
    requires forall k: nat {:trigger c[k]} :: k < |c| && c[k] < |es| ==> es'[c[k]] == es[c[k]]
    ensures ChainOk(es', c, h)
  {
    forall k: nat | k < |c|
      ensures Link(es', c, h, k)
    {
      assert Link(es, c, h, k);
    }
  }

  /** A slot in a chain is valid and its name's home is the chain's. */
  lemma InChain<V>(es: seq<Entry<V>>, c: Chain, h: nat, s: nat)
    requires es != [] && ChainOk(es, c, h) && s in c
    ensures s < |es| && es[s].Full? && Home(es[s].name, |es|) == h
  {
    var k: nat :| k < |c| && c[k] == s;
    assert Link(es, c, h, k);
  }

  /** A change to slots whose entries are invalid or belong to chain `h` leaves the other chains alone. */
  lemma OtherChain<V>(es: seq<Entry<V>>, es': seq<Entry<V>>, chains: seq<Chain>, h: nat, g: nat)
    requires Chained(es, chains) && |es'| == |es| && h < |es| && g < |es| && g != h
    requires forall s: nat {:trigger es'[s]} :: s < |es| && es'[s] != es[s] ==> es[s].Empty? || Home(es[s].name, |es|) == h
    ensures ChainOk(es', chains[g], g)
  {
    var c := chains[g];
    forall k: nat {:trigger c[k]} | k < |c| && c[k] < |es|
      ensures es'[c[k]] == es[c[k]]
    {
      InChain(es, c, g, c[k]);
    }
    SameChain(es, es', c, g);
  }

  ghost predicate OnlyHome<V>(es: seq<Entry<V>>, es': seq<Entry<V>>, h: nat)
    requires es != []
  {
    && |es'| == |es|
    && (forall s: nat {:trigger es'[s]} :: s < |es| && es'[s] != es[s] ==>
          (es[s].Empty? || Home(es[s].name, |es|) == h) && (es'[s].Empty? || Home(es'[s].name, |es|) == h))
  }

  /** After a change confined to one home, it is enough to look at that home's chain. */
  lemma RebuildChained<V>(es: seq<Entry<V>>, es': seq<Entry<V>>, chains: seq<Chain>, h: nat, c: Chain)
    requires Chained(es, chains) && h < |es| && OnlyHome(es, es', h) && ChainOk(es', c, h)
    requires forall s: nat {:trigger es'[s]} :: s < |es| && es'[s].Full? && Home(es'[s].name, |es|) == h ==> s in c
    ensures Chained(es', chains[h := c])
  {
    var chains' := chains[h := c];
    forall g: nat {:trigger chains'[g]} | g < |es|
      ensures ChainOk(es', chains'[g], g)
    {
      if g != h {
        OtherChain(es, es', chains, h, g);
      }
    }
    forall s: nat {:trigger es'[s]} | s < |es'| && es'[s].Full?
      ensures s in chains'[Home(es'[s].name, |es'|)]
    {
      if Home(es'[s].name, |es|) != h {
        assert es'[s] == es[s];
      }
    }
  }

  // ---- What changes mean ----

  lemma ContentsAt<V>(es: seq<Entry<V>>, slots: map<nat, nat>, n: nat)
    requires Indexed(es, slots)
    ensures n in Contents(es, slots) <==> n in slots
    ensures n in slots ==> slots[n] < |es| && es[slots[n]].Full? && es[slots[n]].name == n && Contents(es, slots)[n] == es[slots[n]].value
  {
  }

  lemma Added<V>(es: seq<Entry<V>>, slots: map<nat, nat>, es': seq<Entry<V>>, name: nat, value: V, at: nat)
    requires Indexed(es, slots) && name !in slots && Indexed(es', slots[name := at]) && |es'| == |es|
    requires at < |es| && es[at].Empty? && es'[at].Full? && es'[at].value == value
    requires forall s: nat {:trigger es'[s]} :: s < |es| && s != at && es[s].Full? ==> es'[s].Full? && es'[s].value == es[s].value
    ensures Contents(es', slots[name := at]) == Contents(es, slots)[name := value] && |slots[name := at]| == |slots| + 1
  {
    hide Indexed, Contents;
    var slots' := slots[name := at];
    assert slots'.Keys == slots.Keys + {name};
    forall n: nat
      ensures n in Contents(es', slots') <==> n in Contents(es, slots)[name := value]
      ensures n in Contents(es', slots') ==> Contents(es', slots')[n] == Contents(es, slots)[name := value][n]
    {
      ContentsAt(es, slots, n);
      ContentsAt(es', slots', n);
      if n in slots {
        assert es'[slots[n]].value == es[slots[n]].value;
      }
    }
  }

  lemma Removed<V>(es: seq<Entry<V>>, slots: map<nat, nat>, es': seq<Entry<V>>, slots': map<nat, nat>, name: nat)
    requires Indexed(es, slots) && Indexed(es', slots') && name in slots && slots'.Keys == slots.Keys - {name}
    requires forall n: nat {:trigger slots'[n]} :: n in slots' && slots'[n] < |es'| && slots[n] < |es| && es'[slots'[n]].Full? && es[slots[n]].Full? ==>
               es'[slots'[n]].value == es[slots[n]].value
    ensures Contents(es', slots') == Contents(es, slots) - {name} && |slots'| == |slots| - 1
  {
    hide Indexed, Contents;
    assert slots.Keys == slots'.Keys + {name};
    forall n: nat
      ensures n in Contents(es', slots') <==> n in Contents(es, slots) - {name}
      ensures n in Contents(es', slots') ==> Contents(es', slots')[n] == (Contents(es, slots) - {name})[n]
    {
      ContentsAt(es, slots, n);
      ContentsAt(es', slots', n);
    }
  }

  // ---- Adding ----

  /** A new name at its free home slot. */
  lemma StartChain<V>(es: seq<Entry<V>>, chains: seq<Chain>, slots: map<nat, nat>, name: nat, value: V)
    requires Chained(es, chains) && Indexed(es, slots) && name !in slots && es[Home(name, |es|)].Empty?
    ensures var h := Home(name, |es|);
      var es' := es[h := Full(name, -1, value)];
      Chained(es', chains[h := [h]]) && Indexed(es', slots[name := h])
      && Contents(es', slots[name := h]) == Contents(es, slots)[name := value] && |slots[name := h]| == |slots| + 1
  {
    var h := Home(name, |es|);
    var es' := es[h := Full(name, -1, value)];
    NoChain(es, chains, h);
    assert Link(es', [h], h, 0);
    RebuildChained(es, es', chains, h, [h]);
    StartIndexed(es, slots, name, value, h);
    Added(es, slots, es', name, value, h);
  }

  /** A home slot that is free has no chain, and no name has its home there. */
  lemma NoChain<V>(es: seq<Entry<V>>, chains: seq<Chain>, h: nat)
    requires Chained(es, chains) && h < |es| && es[h].Empty?
    ensures chains[h] == []
    ensures forall s: nat {:trigger es[s]} :: s < |es| && es[s].Full? ==> Home(es[s].name, |es|) != h
  {
    assert ChainOk(es, chains[h], h);
    assert chains[h] != [] ==> Link(es, chains[h], h, 0);
  }

  lemma StartIndexed<V>(es: seq<Entry<V>>, slots: map<nat, nat>, name: nat, value: V, at: nat)
    requires Indexed(es, slots) && name !in slots && at < |es| && es[at].Empty?
    ensures Indexed(es[at := Full(name, -1, value)], slots[name := at])
  {
  }

  /** A new name in any free slot, linked behind the end of its home's chain. */
  lemma ExtendChain<V>(es: seq<Entry<V>>, chains: seq<Chain>, slots: map<nat, nat>, name: nat, value: V, free: nat)
    requires Chained(es, chains) && Indexed(es, slots) && name !in slots && free < |es| && es[free].Empty?
    requires chains[Home(name, |es|)] != []
    ensures var h := Home(name, |es|);
      var last := chains[h][|chains[h]| - 1];
      && last < |es| && es[last].Full?
      && var es' := es[free := Full(name, -1, value)][last := es[last].(next := free)];
      Chained(es', chains[h := chains[h] + [free]]) && Indexed(es', slots[name := free])
      && Contents(es', slots[name := free]) == Contents(es, slots)[name := value] && |slots[name := free]| == |slots| + 1
  {
    var h := Home(name, |es|);
    var c := chains[h];
    var last := c[|c| - 1];
    InChain(es, c, h, last);
    var es' := es[free := Full(name, -1, value)][last := es[last].(next := free)];
    var c' := c + [free];
    ExtendedChainOk(es, c, h, name, value, free);
    forall s: nat {:trigger es'[s]} | s < |es| && es'[s].Full? && Home(es'[s].name, |es|) == h
      ensures s in c'
    {
      if s != free {
        assert es[s].Full? && es[s].name == es'[s].name && s in chains[h];
      }
    }
    RebuildChained(es, es', chains, h, c');
    ExtendIndexed(es, slots, name, value, free, last);
    Added(es, slots, es', name, value, free);
  }

  lemma ExtendedChainOk<V>(es: seq<Entry<V>>, c: Chain, h: nat, name: nat, value: V, free: nat)
    requires es != [] && c != [] && ChainOk(es, c, h) && Home(name, |es|) == h && free < |es| && es[free].Empty?
    ensures var last := c[|c| - 1];
      && last < |es| && es[last].Full?
      && ChainOk(es[free := Full(name, -1, value)][last := es[last].(next := free)], c + [free], h)
  {
    var last := c[|c| - 1];
    var c' := c + [free];
    assert Link(es, c, h, |c| - 1);
    var es' := es[free := Full(name, -1, value)][last := es[last].(next := free)];
    forall k: nat | k < |c'|
      ensures Link(es', c', h, k) && (k < |c| ==> c'[k] != free)
    {
      if k < |c| {
        assert Link(es, c, h, k) && c'[k] == c[k];
      }
    }
    forall j: nat, k: nat {:trigger c'[j], c'[k]} | j < k < |c'|
      ensures c'[j] != c'[k]
    {
      if k < |c| {
        assert c'[j] == c[j] && c'[k] == c[k];
      }
    }
  }

  lemma ExtendIndexed<V>(es: seq<Entry<V>>, slots: map<nat, nat>, name: nat, value: V, free: nat, last: nat)
    requires Indexed(es, slots) && name !in slots && free < |es| && es[free].Empty? && last < |es| && es[last].Full?
    ensures Indexed(es[free := Full(name, -1, value)][last := es[last].(next := free)], slots[name := free])
  {
    StartIndexed(es, slots, name, value, free);
    RelinkIndexed(es[free := Full(name, -1, value)], slots[name := free], last, free);
  }

  lemma RelinkIndexed<V>(es: seq<Entry<V>>, slots: map<nat, nat>, s: nat, next: int)
    requires Indexed(es, slots) && s < |es| && es[s].Full?
    ensures Indexed(es[s := es[s].(next := next)], slots)
  {
  }

  // ---- Removing ----

  ghost function Without<T>(c: seq<T>, k: nat): seq<T>
    requires k < |c|
  {
    c[..k] + c[k + 1..]
  }

  /** A name that is not the head of its chain: the one before it is linked past it. */
  lemma Unlink<V>(es: seq<Entry<V>>, chains: seq<Chain>, slots: map<nat, nat>, h: nat, k: nat)
    requires Chained(es, chains) && Indexed(es, slots) && h < |es| && 0 < k < |chains[h]|
    ensures var last, at := chains[h][k - 1], chains[h][k];
      && last < |es| && at < |es| && es[last].Full? && es[at].Full? && last != at
      && var es' := es[last := es[last].(next := es[at].next)][at := Empty];
      Chained(es', chains[h := Without(chains[h], k)]) && Indexed(es', slots - {es[at].name})
      && Contents(es', slots - {es[at].name}) == Contents(es, slots) - {es[at].name} && |slots - {es[at].name}| == |slots| - 1
  {
    var c := chains[h];
    var last, at := c[k - 1], c[k];
    InChain(es, c, h, last);
    InChain(es, c, h, at);
    var es' := es[last := es[last].(next := es[at].next)][at := Empty];
    UnlinkedChainOk(es, c, h, k);
    forall s: nat {:trigger es'[s]} | s < |es| && es'[s].Full? && Home(es'[s].name, |es|) == h
      ensures s in Without(c, k)
    {
      assert es[s].Full? && es[s].name == es'[s].name && s in chains[h];
      StaysIn(c, k, s);
    }
    RebuildChained(es, es', chains, h, Without(c, k));
    RelinkIndexed(es, slots, last, es[at].next);
    ClearIndexed(es[last := es[last].(next := es[at].next)], slots, at);
    Removed(es, slots, es', slots - {es[at].name}, es[at].name);
  }

  lemma StaysIn(c: Chain, k: nat, s: nat)
    requires k < |c| && s in c && s != c[k]
    ensures s in Without(c, k)
  {
    var j: nat :| j < |c| && c[j] == s;
    if j < k {
      assert Without(c, k)[j] == s;
    } else {
      assert Without(c, k)[j - 1] == s;
    }
  }

  lemma ClearIndexed<V>(es: seq<Entry<V>>, slots: map<nat, nat>, s: nat)
    requires Indexed(es, slots) && s < |es| && es[s].Full?
    ensures Indexed(es[s := Empty], slots - {es[s].name})
  {
  }

  lemma UnlinkedChainOk<V>(es: seq<Entry<V>>, c: Chain, h: nat, k: nat)
    requires es != [] && 0 < k < |c| && ChainOk(es, c, h)
    ensures var last, at := c[k - 1], c[k];
      && last < |es| && at < |es| && es[last].Full? && es[at].Full?
      && ChainOk(es[last := es[last].(next := es[at].next)][at := Empty], Without(c, k), h)
  {
    var last, at := c[k - 1], c[k];
    var c' := Without(c, k);
    assert Link(es, c, h, k - 1) && Link(es, c, h, k);
    var es' := es[last := es[last].(next := es[at].next)][at := Empty];
    forall j: nat | j < |c'|
      ensures Link(es', c', h, j)
    {
      var i := if j < k then j else j + 1;
      assert Link(es, c, h, i) && c'[j] == c[i] && c[i] != at;
    }
    forall i: nat, j: nat {:trigger c'[i], c'[j]} | i < j < |c'|
      ensures c'[i] != c'[j]
    {
      assert c'[i] == c[if i < k then i else i + 1] && c'[j] == c[if j < k then j else j + 1];
    }
  }

  /** The head of a longer chain: the second entry takes its place. */
  lemma ReplaceHead<V>(es: seq<Entry<V>>, chains: seq<Chain>, slots: map<nat, nat>, h: nat)
    requires Chained(es, chains) && Indexed(es, slots) && h < |es| && |chains[h]| > 1
    ensures var next := chains[h][1];
      && next < |es| && es[next].Full? && es[h].Full? && next != h
      && var es' := es[h := es[next]][next := Empty];
      Chained(es', chains[h := Without(chains[h], 1)]) && Indexed(es', (slots - {es[h].name})[es[next].name := h])
      && Contents(es', (slots - {es[h].name})[es[next].name := h]) == Contents(es, slots) - {es[h].name}
      && |(slots - {es[h].name})[es[next].name := h]| == |slots| - 1
  {
    hide Home, Indexed, Contents, Without;
    var c := chains[h];
    var next := c[1];
    LinkAt(es, chains, h, 0);
    LinkAt(es, chains, h, 1);
    var es' := es[h := es[next]][next := Empty];
    HeadReplacedChainOk(es, c, h);
    forall s: nat {:trigger es'[s]} | s < |es| && es'[s].Full? && Home(es'[s].name, |es|) == h
      ensures s in Without(c, 1)
    {
      HeadStaysIn(c, h, s);
      assert s != h ==> es[s] == es'[s] && s in chains[h];
    }
    RebuildChained(es, es', chains, h, Without(c, 1));
    HeadIndexed(es, slots, h, next);
    HeadRemoved(es, slots, h, next);
  }

  lemma HeadStaysIn(c: Chain, h: nat, s: nat)
    requires |c| > 1 && c[0] == h && (s != h ==> s in c && s != c[1])
    ensures s in Without(c, 1)
  {
    if s == h {
      assert Without(c, 1)[0] == h;
    } else {
      StaysIn(c, 1, s);
    }
  }

  lemma HeadRemoved<V>(es: seq<Entry<V>>, slots: map<nat, nat>, h: nat, next: nat)
    requires Indexed(es, slots) && h < |es| && next < |es| && h != next && es[h].Full? && es[next].Full?
    requires Indexed(es[h := es[next]][next := Empty], (slots - {es[h].name})[es[next].name := h])
    ensures var es' := es[h := es[next]][next := Empty];
      var slots' := (slots - {es[h].name})[es[next].name := h];
      Contents(es', slots') == Contents(es, slots) - {es[h].name} && |slots'| == |slots| - 1
  {
    Removed(es, slots, es[h := es[next]][next := Empty], (slots - {es[h].name})[es[next].name := h], es[h].name);
  }

  lemma HeadIndexed<V>(es: seq<Entry<V>>, slots: map<nat, nat>, h: nat, next: nat)
    requires Indexed(es, slots) && h < |es| && next < |es| && h != next && es[h].Full? && es[next].Full?
    ensures Indexed(es[h := es[next]][next := Empty], (slots - {es[h].name})[es[next].name := h])
  {
  }

  lemma HeadReplacedChainOk<V>(es: seq<Entry<V>>, c: Chain, h: nat)
    requires es != [] && |c| > 1 && ChainOk(es, c, h)
    ensures var next := c[1];
      && h < |es| && next < |es| && ChainOk(es[h := es[next]][next := Empty], Without(c, 1), h)
  {
    var next := c[1];
    var c' := Without(c, 1);
    assert Link(es, c, h, 0) && Link(es, c, h, 1);
    var es' := es[h := es[next]][next := Empty];
    forall j: nat | j < |c'|
      ensures Link(es', c', h, j)
    {
      if j > 0 {
        assert Link(es, c, h, j + 1) && c'[j] == c[j + 1] && c[j + 1] != next && c[j + 1] != c[0];
      } else if |c'| > 1 {
        assert c'[1] == c[2];
      }
    }
    forall i: nat, j: nat {:trigger c'[i], c'[j]} | i < j < |c'|
      ensures c'[i] != c'[j]
    {
      assert c'[i] == c[if i < 1 then i else i + 1] && c'[j] == c[j + 1];
    }
  }

  /** A chain of one. */
  lemma EndChain<V>(es: seq<Entry<V>>, chains: seq<Chain>, slots: map<nat, nat>, h: nat)
    requires Chained(es, chains) && Indexed(es, slots) && h < |es| && |chains[h]| == 1
    ensures es[h].Full? && Chained(es[h := Empty], chains[h := []]) && Indexed(es[h := Empty], slots - {es[h].name})
    ensures Contents(es[h := Empty], slots - {es[h].name}) == Contents(es, slots) - {es[h].name}
    ensures |slots - {es[h].name}| == |slots| - 1
  {
    var c := chains[h];
    InChain(es, c, h, h) by { assert c[0] == h; }
    var es' := es[h := Empty];
    assert forall s: nat {:trigger es[s]} :: s < |es| && es[s].Full? && Home(es[s].name, |es|) == h ==> s in c;
    RebuildChained(es, es', chains, h, []);
    ClearIndexed(es, slots, h);
    Removed(es, slots, es', slots - {es[h].name}, es[h].name);
  }

  // ---- Replacing a value ----

  lemma Revalue<V>(es: seq<Entry<V>>, chains: seq<Chain>, slots: map<nat, nat>, s: nat, value: V)
    requires Chained(es, chains) && Indexed(es, slots) && s < |es| && es[s].Full?
    ensures var es' := es[s := es[s].(value := value)];
      Chained(es', chains) && Indexed(es', slots) && Contents(es', slots) == Contents(es, slots)[es[s].name := value]
  {
    hide Home;
    var es' := es[s := es[s].(value := value)];
    forall h: nat {:trigger chains[h]} | h < |es|
      ensures ChainOk(es', chains[h], h)
    {
      var c := chains[h];
      assert ChainOk(es, c, h);
      forall k: nat | k < |c|
        ensures Link(es', c, h, k)
      {
        assert Link(es, c, h, k);
      }
    }
    forall t: nat {:trigger es'[t]} | t < |es'| && es'[t].Full?
      ensures t in chains[Home(es'[t].name, |es'|)]
    {
      assert es[t].Full? && es[t].name == es'[t].name;
    }
  }

  // ---- Free slots ----

  ghost function ValidSlots<V>(es: seq<Entry<V>>): set<nat> {
    set s: nat | s < |es| && es[s].Full?
  }

  /** The count of names is the number of valid slots. */
  lemma CountsValidSlots<V>(es: seq<Entry<V>>, slots: map<nat, nat>)
    requires Indexed(es, slots)
    ensures |ValidSlots(es)| == |slots|
  {
    forall s | s in ValidSlots(es)
      ensures s in slots.Values
    {
      assert slots[es[s].name] == s && es[s].name in slots;
    }
    assert ValidSlots(es) == slots.Values;
    ValuesCount(slots);
  }

  lemma {:induction false} ValuesCount(m: map<nat, nat>)
    requires forall a, b :: a in m && b in m && m[a] == m[b] ==> a == b
    ensures |m.Values| == |m|
    decreases |m|
  {
    if m.Keys == {} {
      assert m.Values == {};
    } else {
      var a :| a in m;
      var rest := m - {a};
      assert rest.Keys == m.Keys - {a};
      forall v | v in m.Values && v != m[a]
        ensures v in rest.Values
      {
        var b :| b in m && m[b] == v;
        assert b in rest && rest[b] == v;
      }
      forall v | v in rest.Values
        ensures v in m.Values && v != m[a]
      {
        var b :| b in rest && rest[b] == v;
        assert m[b] == v;
      }
      assert m[a] in m.Values;
      assert m.Values == rest.Values + {m[a]} && m[a] !in rest.Values;
      ValuesCount(rest);
    }
  }

  ghost function NamesBelow<V>(es: seq<Entry<V>>, k: nat): set<nat>
    requires k <= |es| && forall s: nat {:trigger es[s]} :: s < k ==> es[s].Full?
  {
    if k == 0 then {} else NamesBelow(es, k - 1) + {es[k - 1].name}
  }

  lemma {:induction false} NamesCount<V>(es: seq<Entry<V>>, slots: map<nat, nat>, k: nat)
    requires Indexed(es, slots) && k <= |es| && forall s: nat {:trigger es[s]} :: s < k ==> es[s].Full?
    ensures |NamesBelow(es, k)| == k && NamesBelow(es, k) <= slots.Keys
    ensures forall n :: n in NamesBelow(es, k) ==> n in slots && slots[n] < k
  {
    if k > 0 {
      NamesCount(es, slots, k - 1);
      assert slots[es[k - 1].name] == k - 1;
    }
  }

  /** A table with fewer names than slots has a free slot. */
  lemma FreeSlot<V>(es: seq<Entry<V>>, slots: map<nat, nat>) returns (s: nat)
    requires Indexed(es, slots) && |slots| < |es|
    ensures s < |es| && es[s].Empty?
  {
    if forall s: nat {:trigger es[s]} :: s < |es| ==> es[s].Full? {
      NamesCount(es, slots, |es|);
      SubsetSize(NamesBelow(es, |es|), slots.Keys);
      assert false;
    }
    s :| s < |es| && es[s].Empty?;
  }

  // ---- Following a chain ----

  /** Where name `n` is looked for: from its home slot along the links. */
  lemma FirstLink<V>(es: seq<Entry<V>>, chains: seq<Chain>, h: nat)
    requires Chained(es, chains) && h < |es| && chains[h] != []
    ensures chains[h][0] == h && es[h].Full? && Home(es[h].name, |es|) == h
  {
    assert ChainOk(es, chains[h], h);
    assert Link(es, chains[h], h, 0);
  }

  lemma LinkAt<V>(es: seq<Entry<V>>, chains: seq<Chain>, h: nat, k: nat)
    requires Chained(es, chains) && h < |es| && k < |chains[h]|
    ensures Link(es, chains[h], h, k)
  {
    assert ChainOk(es, chains[h], h);
  }

  /** A stored name is in its home's chain. */
  lemma NameInChain<V>(es: seq<Entry<V>>, chains: seq<Chain>, slots: map<nat, nat>, name: nat)
    requires Chained(es, chains) && Indexed(es, slots) && name in slots
    ensures slots[name] in chains[Home(name, |es|)] && slots[name] < |es| && es[slots[name]].Full?
    ensures es[slots[name]].name == name
  {
    assert es[slots[name]].Full?;
  }

  lemma StartOfSearch<V>(es: seq<Entry<V>>, chains: seq<Chain>, home: nat, h: nat, k: nat)
    requires Chained(es, chains) && home < |es| && es[home].Full? && h == Home(es[home].name, |es|) && k < |chains[h]|
    requires chains[h][k] == home
    ensures h == home ==> k == 0
  {
    FirstLink(es, chains, h);
    assert ChainOk(es, chains[h], h);
  }

  /** Having gone through a whole chain without meeting the name, it is not there. */
  lemma NotThere<V>(es: seq<Entry<V>>, chains: seq<Chain>, slots: map<nat, nat>, name: nat, h: nat)
    requires Chained(es, chains) && Indexed(es, slots) && h < |es|
    requires h == Home(name, |es|) ==> forall k: nat {:trigger chains[h][k]} :: k < |chains[h]| && chains[h][k] < |es| ==> es[chains[h][k]].Name() != name
    requires h != Home(name, |es|) ==> es[Home(name, |es|)].Empty? || Home(es[Home(name, |es|)].name, |es|) != Home(name, |es|)
    ensures name !in slots
  {
    if name in slots {
      NameInChain(es, chains, slots, name);
      var home := Home(name, |es|);
      FirstLink(es, chains, home);
    }
  }

  // ---- The store ----

  const PRIMES: seq<nat> := [
    3, 7, 11, 17, 23, 29, 37, 47, 59, 71, 89, 107, 131, 163, 197, 239, 293, 353, 431, 521, 631, 761, 919, 1103, 1327,
    1597, 1931, 2333, 2801, 3371, 4049, 4861, 5839, 7013, 8419, 10103, 12143, 14591, 17519, 21023, 25229, 30293, 36353,
    43627, 52361, 62851, 75431, 90523, 108631, 130363, 156437, 187751, 225307, 270371, 324449, 389357, 467237, 560689,
    672827, 807403, 968897, 1162687, 1395263, 1674319, 2009191, 2411033, 2893249, 3471899, 4166287, 4999559, 5999471,
    7199369]

  const U32_MAX: nat := 0xFFFF_FFFF

  ghost predicate Divides(d: nat, n: nat) {
    d > 0 && n % d == 0
  }

  ghost predicate Prime(n: nat) {
    n >= 2 && forall d: nat :: 2 <= d < n ==> !Divides(d, n)
  }

  /** Tries the odd numbers up to the square root. One passes as well. */
  method IsPrime(candidate: nat) returns (r: bool)
    ensures r <==> Prime(candidate) || candidate == 1
  {
    hide Divides, Prime;
    if candidate % 2 != 0 {
      var divisor := 3;
      OddOnly(2, candidate);
      while divisor * divisor <= candidate
        invariant divisor % 2 == 1 && divisor >= 3
        invariant NoneBelow(divisor, candidate)
        decreases candidate - divisor
      {
        SmallDivisor(divisor, candidate);
        if candidate % divisor == 0 {
          return false;
        }
        OddOnly(divisor + 1, candidate);
        divisor := divisor + 2;
      }
      NoneUpToRoot(divisor, candidate);
      return true;
    }
    EvenIsNotPrime(candidate);
    return candidate == 2;
  }

  ghost predicate NoneBelow(bound: nat, n: nat) {
    forall d: nat :: 2 <= d < bound ==> !Divides(d, n)
  }

  lemma SmallDivisor(d: nat, n: nat)
    requires d >= 3 && d * d <= n
    ensures d < n && (Divides(d, n) <==> n % d == 0) && (Divides(d, n) ==> !Prime(n) && n != 1)
  {
    MulGrows(d, d);
  }

  lemma MulGrows(d: nat, e: nat)
    requires d >= 2 && e >= 2
    ensures d < d * e && e < d * e
  {
  }

  lemma OddOnly(d: nat, n: nat)
    requires n % 2 != 0 && d % 2 == 0
    ensures !Divides(d, n)
  {
    if d > 0 && n % d == 0 {
      EvenMultiple(d, n);
    }
  }

  lemma EvenMultiple(d: nat, n: nat)
    requires d > 0 && d % 2 == 0 && n % d == 0
    ensures n % 2 == 0
  {
    var h, k := d / 2, n / d;
    assert n == d * k && d == 2 * h;
    Regrouped(h, k);
    WholeMultiple(h * k, 2, n);
  }

  lemma Regrouped(h: nat, k: nat)
    ensures 2 * h * k == h * k * 2
  {
  }

  lemma WholeMultiple(q: nat, d: nat, n: nat)
    requires d > 0 && n == q * d
    ensures n % d == 0
  {
    var k := n / d;
    Difference(q, k, d);
    AtLeastOne(q - k, d);
    AtLeastOne(k - q, d);
  }

  lemma Difference(q: int, k: int, d: int)
    ensures (q - k) * d == q * d - k * d && (k - q) * d == k * d - q * d
  {
  }

  lemma AtLeastOne(a: int, d: nat)
    ensures a >= 1 ==> a * d >= d
  {
  }

  lemma EvenIsNotPrime(n: nat)
    requires n % 2 == 0
    ensures Prime(n) <==> n == 2
  {
    assert n > 2 ==> Divides(2, n);
  }

  /** Of two factors one is at most the root. */
  lemma NoneUpToRoot(bound: nat, n: nat)
    requires bound * bound > n && n % 2 != 0 && NoneBelow(bound, n)
    ensures n != 1 ==> Prime(n)
  {
    hide Divides;
    forall d: nat | 2 <= d < n
      ensures !Divides(d, n)
    {
      if Divides(d, n) {
        Cofactor(d, n);
        if d >= bound && n / d >= bound {
          Larger(bound, d, n / d);
        }
      }
    }
  }

  lemma Cofactor(d: nat, n: nat)
    requires Divides(d, n) && 2 <= d < n
    ensures n == d * (n / d) && 2 <= n / d && Divides(n / d, n)
  {
    var e := n / d;
    assert n == d * e;
    assert e != 0 && e != 1;
    WholeMultiple(d, e, n);
  }

  lemma Larger(b: nat, c: nat, d: nat)
    requires b <= c && b <= d
    ensures b * b <= c * d
  {
    assert b * b <= b * d;
    assert b * d <= c * d;
  }

  ghost predicate Listed(minimum: nat) {
    exists k: nat :: k < |PRIMES| && PRIMES[k] >= minimum
  }

  /** The size of a new table: the first prime of the list that is large enough, beyond the list the least prime that
      is, and what was asked for if there is none below the largest word. */
  method GetPrime(minimum: nat) returns (prime: nat)
    ensures prime >= minimum
    ensures Listed(minimum) ==>
              exists k: nat :: k < |PRIMES| && prime == PRIMES[k] && forall j: nat :: j < k ==> PRIMES[j] < minimum
    ensures !Listed(minimum) && minimum > 2 ==>
              if exists p: nat :: minimum <= p < U32_MAX && Prime(p) then
                prime < U32_MAX && Prime(prime) && forall p: nat :: minimum <= p < prime ==> !Prime(p)
              else prime == minimum
  {
    hide Prime;
    for k := 0 to |PRIMES|
      invariant forall j: nat :: j < k ==> PRIMES[j] < minimum
    {
      if PRIMES[k] >= minimum {
        return PRIMES[k];
      }
    }
    prime := if minimum % 2 == 0 then minimum + 1 else minimum;
    if minimum % 2 == 0 {
      EvenIsNotPrime(minimum);
    }
    while prime < U32_MAX
      invariant prime >= minimum && prime % 2 == 1
      invariant minimum > 2 ==> forall p: nat :: minimum <= p < prime ==> !Prime(p)
    {
      var ok := IsPrime(prime);
      if ok {
        return;
      }
      EvenIsNotPrime(prime + 1);
      prime := prime + 2;
    }
    return minimum;
  }

  lemma Sizes<V>(es: seq<Entry<V>>, chains: seq<Chain>)
    requires Chained(es, chains)
    ensures |chains| == |es| > 0
  {
  }

  lemma NamesDiffer<V>(es: seq<Entry<V>>, slots: map<nat, nat>, s: nat, t: nat)
    requires Indexed(es, slots) && s < |es| && t < |es| && es[s].Full? && es[t].Full?
    ensures es[s].name in slots && es[t].name in slots && (s != t ==> es[s].name != es[t].name)
  {
  }

  lemma NameAt<V>(es: seq<Entry<V>>, slots: map<nat, nat>, s: nat)
    requires Indexed(es, slots) && s < |es| && es[s].Full?
    ensures es[s].name in slots && slots[es[s].name] == s
  {
  }

  /** The entry in a foreign home slot is stored under its own name, in a slot that is not its home. */
  lemma ForeignEntry<V>(es: seq<Entry<V>>, slots: map<nat, nat>, name: nat, s: nat)
    requires Indexed(es, slots) && name !in slots && s < |es| && es[s].Full?
    ensures es[s].name in slots && slots[es[s].name] == s && es[s].name != name
    ensures es[s].name in Contents(es, slots) && Contents(es, slots)[es[s].name] == es[s].value
  {
  }

  lemma BackAgain<V>(m: map<nat, V>, moved: nat, name: nat, value: V)
    requires moved in m && moved != name
    ensures (m - {moved})[name := value][moved := m[moved]] == m[name := value]
  {
  }

  lemma NewTable<V>(table: seq<Entry<V>>, chains: seq<Chain>, es: seq<Entry<V>>, slots: map<nat, nat>)
    requires table != [] && |chains| == |table| && Indexed(es, slots)
    requires forall s: nat {:trigger table[s]} {:trigger chains[s]} :: s < |table| ==> table[s].Empty? && chains[s] == []
    ensures Chained(table, chains) && Indexed(table, map[]) && Contents(table, map[]) == Prefix(es, slots, 0) == map[]
  {
  }

  lemma SameCount<V>(es: seq<Entry<V>>, slots: map<nat, nat>, es': seq<Entry<V>>, slots': map<nat, nat>)
    requires Indexed(es, slots) && Indexed(es', slots') && Contents(es, slots) == Contents(es', slots')
    ensures slots.Keys == slots'.Keys && |slots| == |slots'|
  {
    assert slots.Keys == Contents(es, slots).Keys == slots'.Keys;
  }

  /** The names stored in the first `k` slots. */
  ghost function Prefix<V>(es: seq<Entry<V>>, slots: map<nat, nat>, k: nat): map<nat, V>
    requires Indexed(es, slots)
  {
    map n | n in slots && slots[n] < k :: es[slots[n]].value
  }

  lemma NextPrefix<V>(es: seq<Entry<V>>, slots: map<nat, nat>, k: nat)
    requires Indexed(es, slots) && k < |es|
    ensures es[k].Empty? ==> Prefix(es, slots, k + 1) == Prefix(es, slots, k)
    ensures es[k].Full? ==>
              es[k].name !in Prefix(es, slots, k) && Prefix(es, slots, k + 1) == Prefix(es, slots, k)[es[k].name := es[k].value]
  {
    if es[k].Full? {
      assert slots[es[k].name] == k;
      forall n | n in slots && slots[n] == k
        ensures n == es[k].name
      {
      }
    } else {
      forall n | n in slots
        ensures slots[n] != k
      {
      }
    }
  }

  lemma WholePrefix<V>(es: seq<Entry<V>>, slots: map<nat, nat>)
    requires Indexed(es, slots)
    ensures Prefix(es, slots, |es|) == Contents(es, slots) && Prefix(es, slots, 0) == map[]
  {
  }

  /** What an object does to its store: define a property that may be there, or delete one that may not be. */
  datatype Step<V> = Put(name: nat, value: V) | Delete(name: nat)

  ghost function Taken<V>(m: map<nat, V>, step: Step<V>): map<nat, V> {
    match step
    case Put(name, value) => m[name := value]
    case Delete(name) => m - {name}
  }

  ghost function After<V>(m: map<nat, V>, steps: seq<Step<V>>): map<nat, V> {
    if steps == [] then m else Taken(After(m, steps[..|steps| - 1]), steps[|steps| - 1])
  }

  class HashStore<V> {
    var entries: array<Entry<V>>
    var count: nat
    ghost var chains: seq<Chain>
    ghost var slots: map<nat, nat>

    /** Chains are acyclic and disjoint, all entries of one share its home slot and the head is at home; each name
        is stored once; `count` is the number of names; and the table is never full. */
    ghost predicate Valid()
      reads this, entries
    {
      Chained(entries[..], chains) && Indexed(entries[..], slots) && count == |slots| && count <= MaxLoad(entries.Length) + 1
    }

    /** The properties stored, by name. */
    ghost function Map(): map<nat, V>
      requires Valid()
      reads this, entries
    {
      Contents(entries[..], slots)
    }

    static function MaxLoad(length: nat): nat {
      length * 7 / 10
    }

    constructor ()
      ensures Valid() && Map() == map[] && fresh(entries) && entries.Length == 23
    {
      entries := new Entry<V>[23](_ => Empty);
      count := 0;
      chains := seq(23, _ => []);
      slots := map[];
    }

    /** Looks a name up: from its home slot along the links. */
    method FindEntry(name: nat) returns (r: Option<nat>)
      requires Valid()
      ensures r == if name in slots then Some(slots[name]) else None
    {
      hide Home;
      ghost var es := entries[..];
      var home := Home(name, entries.Length);
      var offset := home;
      if entries[offset].Empty? {
        NotThere(es, chains, slots, name, home) by { NoChain(es, chains, home); }
        return None;
      }
      ghost var h := Home(es[home].name, |es|);
      assert home in chains[h];
      ghost var k: nat :| k < |chains[h]| && chains[h][k] == home;
      StartOfSearch(es, chains, home, h, k);
      while true
        invariant k < |chains[h]| && offset == chains[h][k] && h < |es| && offset < |es| && es == entries[..]
        invariant h == home ==> forall j: nat {:trigger chains[h][j]} :: j < k && chains[h][j] < |es| ==> es[chains[h][j]].Name() != name
        decreases |chains[h]| - k
      {
        LinkAt(es, chains, h, k);
        if entries[offset].name == name {
          assert es[offset].Full?;
          return Some(offset);
        }
        var next := entries[offset].next;
        if next < 0 {
          NotThere(es, chains, slots, name, h);
          return None;
        }
        offset := next;
        k := k + 1;
        LinkAt(es, chains, h, k);
      }
    }

    method Get(name: nat) returns (r: Option<V>)
      requires Valid()
      ensures r == if name in Map() then Some(Map()[name]) else None
    {
      var at := FindEntry(name);
      if at.None? {
        return None;
      }
      return Some(entries[at.value].value);
    }

    method Replace(name: nat, value: V) returns (found: bool)
      requires Valid()
      modifies entries
      ensures Valid() && found == (name in old(Map()))
      ensures Map() == if found then old(Map())[name := value] else old(Map())
    {
      hide Home, Chained, Contents;
      MapKeys();
      var at := FindEntry(name);
      if at.None? {
        return false;
      }
      ghost var es := entries[..];
      var entry := entries[at.value];
      entries[at.value] := Full(entry.name, entry.next, value);
      assert entries[..] == es[at.value := es[at.value].(value := value)];
      Revalue(es, chains, slots, at.value, value);
      return true;
    }

    /** Enumeration by slot: every stored name comes up at exactly one offset. */
    method GetKey(offset: nat) returns (key: StoreKey)
      requires Valid()
      ensures key == if offset >= entries.Length then End(entries.Length)
                     else if entries[offset].Full? then Key(entries[offset].name) else Missing
      ensures key.Key? <==> exists n :: n in slots && slots[n] == offset
      ensures key.Key? ==> key.name in Map() && slots[key.name] == offset
    {
      if offset >= entries.Length {
        return End(entries.Length);
      }
      assert entries[..][offset] == entries[offset];
      if entries[offset].Full? {
        return Key(entries[offset].name);
      }
      return Missing;
    }

    /** Adds a new name; the table grows when it is too full, and an entry that occupies another name's home slot is
        moved out of it. */
    method Add(name: nat, value: V)
      requires Valid() && name !in slots
      modifies this, entries
      ensures Valid() && Map() == old(Map())[name := value] && count == old(count) + 1
      ensures entries == old(entries) || fresh(entries)
      ensures old(count <= MaxLoad(entries.Length)) ==> entries == old(entries)
      decreases if count > MaxLoad(entries.Length) then 1 else 0, if Occupied(name) then 2 else 1, 1
    {
      hide Home, Chained, Indexed, MaxLoad;
      if count > MaxLoad(entries.Length) {
        Grow();
      }
      if Occupied(name) {
        MoveAndAdd(name, value);
      } else {
        AddToChain(name, value);
      }
    }

    /** The home slot of the name holds an entry of another chain. */
    predicate Occupied(name: nat)
      requires Valid()
      reads this, entries
    {
      assert |entries[..]| > 0;
      var hash := Home(name, entries.Length);
      entries[hash].Full? && Home(entries[hash].name, entries.Length) != hash
    }

    /** A new name goes to its free home slot. */
    method PutAtHome(name: nat, value: V)
      requires Valid() && name !in slots && count <= MaxLoad(entries.Length)
      requires |entries[..]| > 0 && entries[Home(name, entries.Length)].Empty?
      modifies this, entries
      ensures Valid() && Map() == old(Map())[name := value] && count == old(count) + 1 && entries == old(entries)
      ensures |old(chains)| == entries.Length
      ensures chains == old(chains)[Home(name, entries.Length) := [Home(name, entries.Length)]]
      ensures slots.Keys == old(slots.Keys) + {name}
    {
      hide Home, Indexed, MaxLoad, Contents, Chained;
      ghost var es := entries[..];
      Shape();
      var h := Home(name, entries.Length);
      StartChain(es, chains, slots, name, value);
      entries[h] := Full(name, -1, value);
      chains, slots := chains[h := [h]], slots[name := h];
      count := count + 1;
      assert entries[..] == es[h := Full(name, -1, value)];
    }

    /** Removes the foreign entry from the name's home slot, puts the new entry there and adds the other again. */
    method MoveAndAdd(name: nat, value: V)
      requires Valid() && name !in slots && count <= MaxLoad(entries.Length) && Occupied(name)
      modifies this, entries
      ensures Valid() && Map() == old(Map())[name := value] && count == old(count) + 1 && entries == old(entries)
      decreases 0, 1, 3
    {
      hide Home, Chained, Indexed, MaxLoad, Contents;
      ghost var before := Map();
      Shape();
      var hash := Home(name, entries.Length);
      var copy := entries[hash];
      ForeignEntry(entries[..], slots, name, hash);
      Remove(copy.name);
      PutAtHome(name, value);
      AddMoved(copy, hash);
      BackAgain(before, copy.name, name, value);
    }

    /** Adds the moved entry again: its own home slot holds the head of its chain. */
    method AddMoved(copy: Entry<V>, hash: nat)
      requires Valid() && copy.Full? && copy.name !in slots && count <= MaxLoad(entries.Length)
      requires entries.Length > 0 && Home(copy.name, entries.Length) < |chains|
      requires chains[Home(copy.name, entries.Length)] != []
      modifies this, entries
      ensures Valid() && Map() == old(Map())[copy.name := copy.value] && count == old(count) + 1
      ensures entries == old(entries)
      decreases 0, 1, 2
    {
      hide Home, Chained, Indexed, MaxLoad, Contents;
      Shape();
      FirstLink(entries[..], chains, Home(copy.name, entries.Length));
      Add(copy.name, copy.value);
    }

    /** Appends to the chain of the name's home slot, in the next free slot behind the chain's end. */
    method AddToChain(name: nat, value: V)
      requires Valid() && name !in slots && count <= MaxLoad(entries.Length) && !Occupied(name)
      modifies this, entries
      ensures Valid() && Map() == old(Map())[name := value] && count == old(count) + 1 && entries == old(entries)
      decreases 0, 0, 0
    {
      hide Home, Indexed, MaxLoad, Contents, Chained;
      ghost var es := entries[..];
      Shape();
      var h := Home(name, entries.Length);
      if entries[h].Empty? {
        PutAtHome(name, value);
        return;
      }
      var last := LastOfChain(h);
      LinkAt(es, chains, h, |chains[h]| - 1);
      var free := NextFree(last);
      ExtendChain(es, chains, slots, name, value, free);
      entries[free] := Full(name, -1, value);
      entries[last] := Full(entries[last].name, free, entries[last].value);
      chains, slots := chains[h := chains[h] + [free]], slots[name := free];
      count := count + 1;
      assert entries[..] == es[free := Full(name, -1, value)][last := es[last].(next := free)];
    }

    method LastOfChain(h: nat) returns (last: nat)
      requires Valid() && h < entries.Length && entries[h].Full? && Home(entries[h].name, entries.Length) == h
      ensures chains[h] != [] && last == chains[h][|chains[h]| - 1]
    {
      hide Home, Indexed;
      ghost var es := entries[..];
      assert es[h].Full? && h in chains[h];
      FirstLink(es, chains, h);
      LinkAt(es, chains, h, 0);
      last := h;
      ghost var k := 0;
      while entries[last].next != -1
        invariant k < |chains[h]| && last == chains[h][k] && Link(es, chains[h], h, k)
        decreases |chains[h]| - k
      {
        last := entries[last].next;
        k := k + 1;
        LinkAt(es, chains, h, k);
      }
    }

    /** The first free slot after `last`, wrapping around at the end of the table. */
    method NextFree(last: nat) returns (free: nat)
      requires Valid() && last < entries.Length && count <= MaxLoad(entries.Length)
      ensures free < entries.Length && entries[free].Empty?
    {
      hide Home, Indexed, Chained;
      assert MaxLoad(entries.Length) < entries.Length;
      ghost var w := FreeSlot(entries[..], slots);
      assert entries[..][w] == entries[w];
      free := last + 1;
      if free == entries.Length {
        free := 0;
      }
      while entries[free].Full?
        invariant free < entries.Length
        decreases if free <= w then w - free else entries.Length - free + w
      {
        free := free + 1;
        if free == entries.Length {
          free := 0;
        }
      }
    }

    /** Removes a name that is present. */
    method Remove(name: nat)
      requires Valid() && name in slots
      modifies this, entries
      ensures Valid() && entries.Length > 0 && Map() == old(Map()) - {name} && count == old(count) - 1
      ensures entries == old(entries)
      ensures slots.Keys == old(slots.Keys) - {name}
      ensures var h := Home(name, entries.Length);
        old(slots[name]) != h ==>
          h < |old(chains)| && chains[h] != [] && entries[old(slots[name])].Empty?
    {
      hide Home, Indexed, Chained, Contents, MaxLoad, Without;
      Shape();
      ghost var h := Home(name, entries.Length);
      var last, index, k := SearchChain(name);
      LinkAt(entries[..], chains, h, k);
      var next := entries[index].next;
      if last != -1 {
        LinkAt(entries[..], chains, h, k - 1);
        UnlinkEntry(last, index, h, k);
      } else if next != -1 {
        LinkAt(entries[..], chains, h, 1);
        FirstLink(entries[..], chains, h);
        PromoteNext(index, next);
      } else {
        FirstLink(entries[..], chains, h);
        ClearHead(index);
      }
      count := count - 1;
    }

    method Take(step: Step<V>)
      requires Valid()
      modifies this, entries
      ensures Valid() && Map() == Taken(old(Map()), step) && (entries == old(entries) || fresh(entries))
    {
      hide Indexed, Chained, Contents, MaxLoad, Home;
      ghost var before := Map();
      MapKeys();
      match step
      case Put(name, value) =>
        var found := Replace(name, value);
        if !found {
          MapKeys();
          Add(name, value);
        }
      case Delete(name) =>
        var at := FindEntry(name);
        if at.Some? {
          Remove(name);
        } else {
          assert before - {name} == before;
        }
    }

    /** Over any run of the steps objects take, with all the growing and moving in between: the store is the map. */
    method Perform(steps: seq<Step<V>>)
      requires Valid()
      modifies this, entries
      ensures Valid() && Map() == After(old(Map()), steps) && count == |After(old(Map()), steps)|
    {
      hide Valid, Taken, Map;
      ghost var before, all := Map(), entries;
      assert steps[..0] == [];
      for i := 0 to |steps|
        invariant Valid() && Map() == After(before, steps[..i]) && (entries == all || fresh(entries))
      {
        assert steps[..i + 1][..i] == steps[..i];
        Take(steps[i]);
      }
      assert steps[..|steps|] == steps;
      CountIsSize();
    }

    lemma CountIsSize()
      requires Valid()
      ensures count == |Map()|
    {
      MapKeys();
      assert |Map()| == |Map().Keys|;
      assert |slots| == |slots.Keys|;
    }

    /** The entry before it is linked past the removed one. */
    method UnlinkEntry(last: nat, index: nat, ghost h: nat, ghost k: nat)
      requires Chained(entries[..], chains) && Indexed(entries[..], slots) && h < |entries[..]| && 0 < k < |chains[h]|
      requires last < entries.Length && index < entries.Length && last == chains[h][k - 1] && index == chains[h][k]
      requires entries[last].Full? && entries[index].Full?
      modifies this`chains, this`slots, entries
      ensures Chained(entries[..], chains) && Indexed(entries[..], slots)
      ensures var name := old(entries[index].name);
        slots.Keys == old(slots.Keys) - {name} && |slots| == |old(slots)| - 1
        && Contents(entries[..], slots) == Contents(old(entries[..]), old(slots)) - {name}
      ensures |chains| == |old(chains)| && chains[h] != [] && entries[index].Empty?
    {
      hide Home, Indexed, Chained, Contents;
      ghost var es, name := entries[..], entries[index].name;
      Unlink(es, chains, slots, h, k);
      Sizes(es, chains);
      entries[last] := Full(entries[last].name, entries[index].next, entries[last].value);
      entries[index] := Empty;
      chains, slots := chains[h := Without(chains[h], k)], slots - {name};
      assert entries[..] == es[last := es[last].(next := es[index].next)][index := Empty];
    }

    /** The second entry takes the place of the head. */
    method PromoteNext(index: nat, next: nat)
      requires Chained(entries[..], chains) && Indexed(entries[..], slots) && index < |entries[..]|
      requires |chains| == entries.Length && |chains[index]| > 1
      requires next < entries.Length && entries[index].Full? && entries[next].Full? && next == chains[index][1]
      requires chains[index][0] == index
      modifies this`chains, this`slots, entries
      ensures Chained(entries[..], chains) && Indexed(entries[..], slots)
      ensures var name := old(entries[index].name);
        slots.Keys == old(slots.Keys) - {name} && |slots| == |old(slots)| - 1
        && Contents(entries[..], slots) == Contents(old(entries[..]), old(slots)) - {name}
    {
      hide Home, Indexed, Chained, Contents;
      ghost var es, name := entries[..], entries[index].name;
      ReplaceHead(es, chains, slots, index);
      NamesDiffer(es, slots, index, next);
      entries[index] := entries[next];
      entries[next] := Empty;
      assert entries[..] == es[index := es[next]][next := Empty];
      chains, slots := chains[index := Without(chains[index], 1)], (slots - {name})[es[next].name := index];
    }

    /** A chain of one ends. */
    method ClearHead(index: nat)
      requires Chained(entries[..], chains) && Indexed(entries[..], slots) && index < |entries[..]|
      requires |chains| == entries.Length && |chains[index]| == 1
      requires entries[index].Full? && chains[index][0] == index
      modifies this`chains, this`slots, entries
      ensures Chained(entries[..], chains) && Indexed(entries[..], slots)
      ensures var name := old(entries[index].name);
        slots.Keys == old(slots.Keys) - {name} && |slots| == |old(slots)| - 1
        && Contents(entries[..], slots) == Contents(old(entries[..]), old(slots)) - {name}
    {
      hide Home, Indexed, Chained, Contents;
      ghost var es, name := entries[..], entries[index].name;
      EndChain(es, chains, slots, index);
      entries[index] := Empty;
      assert entries[..] == es[index := Empty];
      chains, slots := chains[index := []], slots - {name};
    }

    /** The slot of a name that is present, and the one linked to it, -1 for the head. */
    method SearchChain(name: nat) returns (last: int, index: nat, ghost k: nat)
      requires Valid() && name in slots
      ensures |entries[..]| == |chains| == entries.Length > 0
      ensures var c := chains[Home(name, entries.Length)];
        index < entries.Length && entries[index].Full? && entries[index].name == name && k < |c| && index == c[k] == slots[name] && last == (if k == 0 then -1 else c[k - 1])
    {
      hide Home, Indexed;
      ghost var es := entries[..];
      var h := Home(name, entries.Length);
      NameInChain(es, chains, slots, name);
      ghost var p: nat :| p < |chains[h]| && chains[h][p] == slots[name];
      FirstLink(es, chains, h);
      last, index, k := -1, h, 0;
      LinkAt(es, chains, h, 0);
      while entries[index].name != name
        invariant k <= p && index == chains[h][k] && last == (if k == 0 then -1 else chains[h][k - 1])
        invariant Link(es, chains[h], h, k)
        decreases p - k
      {
        assert k < p;
        last := index;
        index := entries[index].next;
        k := k + 1;
        LinkAt(es, chains, h, k);
      }
      NameAt(es, slots, index);
    }

    /** A table at least twice as long, with the same properties. */
    method Grow()
      requires Valid()
      modifies this
      ensures Valid() && Map() == old(Map()) && count == old(count) && fresh(entries) && slots.Keys == old(slots.Keys)
      ensures entries.Length >= 2 * old(entries.Length) && count <= MaxLoad(entries.Length)
      decreases 0, 3, 0
    {
      hide Home, Indexed, Chained, Contents, Prefix, MaxLoad;
      var was := entries;
      ghost var es, os := was[..], slots;
      Shape();
      var length := GetPrime(was.Length * 2);
      Clear(length, es, os);
      DoubleLoad(was.Length, length);
      var i := 0;
      while i < was.Length
        invariant i <= was.Length && was[..] == es && Valid() && Map() == Prefix(es, os, i) && count <= i
        invariant fresh(entries) && entries.Length == length && was != entries
      {
        NextPrefix(es, os, i);
        assert es[i] == was[i];
        if was[i].Full? {
          MapKeys();
          Add(was[i].name, was[i].value);
        }
        i := i + 1;
      }
      WholePrefix(es, os);
      SameCount(entries[..], slots, es, os);
    }

    /** An empty table of the given length. */
    method Clear(length: nat, ghost es: seq<Entry<V>>, ghost os: map<nat, nat>)
      requires length > 0 && Indexed(es, os)
      modifies this
      ensures Valid() && Map() == Prefix(es, os, 0) && count == 0 && fresh(entries) && entries.Length == length
    {
      hide Indexed, Chained, Contents, Prefix;
      entries := new Entry<V>[length](_ => Empty);
      count := 0;
      chains := seq(length, _ => []);
      slots := map[];
      NewTable(entries[..], chains, es, os);
    }

    static lemma DoubleLoad(before: nat, length: nat)
      requires length >= 2 * before
      ensures MaxLoad(length) >= before
    {
    }

    lemma Shape()
      requires Valid()
      ensures entries.Length > 0 && |chains| == entries.Length == |entries[..]|
    {
    }

    lemma MapKeys()
      requires Valid()
      ensures Map().Keys == slots.Keys
    {
    }
  }
}
