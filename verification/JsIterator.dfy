/** Enumerating the properties of an object and its prototypes, as for-in does. */
module JsIterator {
  import opened Wrappers
  import opened ObjectRules

  /** What a store holds at an offset: nothing, or a name and whether it is enumerable. */
  datatype Slot = Missing | Key(name: Name, enumerable: bool)

  const INITIAL_SEEN := 8

  /** The slots of an object and its prototypes, one after the other. */
  function Flat(chain: seq<seq<Slot>>): seq<Slot> {
    if chain == [] then [] else chain[0] + Flat(chain[1..])
  }

  /** The names still to be given: those that are enumerable and have not been seen. */
  ghost function Names(slots: seq<Slot>, seen: set<Name>): seq<Name> {
    if slots == [] then []
    else match slots[0]
      case Missing => Names(slots[1..], seen)
      case Key(n, enumerable) =>
        if enumerable && n !in seen then [n] + Names(slots[1..], seen + {n}) else Names(slots[1..], seen + {n})
  }

  // ---- Which names are given ----

  /** The slot is the first one with its name. */
  ghost predicate First(slots: seq<Slot>, k: nat) {
    k < |slots| && slots[k].Key? && forall j: nat :: j < k && slots[j].Key? ==> slots[j].name != slots[k].name
  }

  /** The first property of that name on the way up is enumerable: it shadows all others. */
  ghost predicate Visible(slots: seq<Slot>, n: Name) {
    exists k: nat :: First(slots, k) && slots[k] == Key(n, true)
  }

  /** Exactly the visible names are given, each once. */
  lemma {:induction false} GivesVisible(slots: seq<Slot>, seen: set<Name>, n: Name)
    ensures n in Names(slots, seen) <==> n !in seen && Visible(slots, n)
    decreases |slots|
  {
    if slots != [] {
      var rest := slots[1..];
      var here := slots[0];
      GivesVisible(rest, if here.Key? then seen + {here.name} else seen, n);
      VisibleLater(slots, n);
    }
  }

  lemma VisibleLater(slots: seq<Slot>, n: Name)
    requires slots != []
    ensures Visible(slots, n) <==> slots[0] == Key(n, true) || ((slots[0].Missing? || slots[0].name != n) && Visible(slots[1..], n))
  {
    var rest := slots[1..];
    if slots[0] == Key(n, true) {
      assert First(slots, 0);
    }
    if Visible(slots, n) && slots[0] != Key(n, true) {
      var k: nat :| First(slots, k) && slots[k] == Key(n, true);
      assert First(rest, k - 1) && rest[k - 1] == Key(n, true) by {
        forall j: nat | j < k - 1 && rest[j].Key?
          ensures rest[j].name != n
        {
          assert slots[j + 1] == rest[j];
        }
      }
      assert slots[0].Key? ==> slots[0].name != n;
    }
    if (slots[0].Missing? || slots[0].name != n) && Visible(rest, n) {
      var k: nat :| First(rest, k) && rest[k] == Key(n, true);
      assert First(slots, k + 1) && slots[k + 1] == Key(n, true) by {
        forall j: nat | j < k + 1 && slots[j].Key?
          ensures slots[j].name != n
        {
          if j > 0 {
            assert slots[j] == rest[j - 1];
          }
        }
      }
    }
  }

  lemma {:induction false} GivesOnce(slots: seq<Slot>, seen: set<Name>, i: nat, j: nat)
    requires i < j < |Names(slots, seen)|
    ensures Names(slots, seen)[i] != Names(slots, seen)[j]
    decreases |slots|
  {
    match slots[0]
    case Missing => GivesOnce(slots[1..], seen, i, j);
    case Key(n, enumerable) =>
      if enumerable && n !in seen {
        var rest := Names(slots[1..], seen + {n});
        if i == 0 {
          assert rest[j - 1] in rest;
          GivesVisible(slots[1..], seen + {n}, rest[j - 1]);
        } else {
          GivesOnce(slots[1..], seen + {n}, i - 1, j - 1);
        }
      } else {
        GivesOnce(slots[1..], seen + {n}, i, j);
      }
  }

  // ---- The iterator ----

  method Grown(seen: array<Name>) returns (newSeen: array<Name>)
    requires seen.Length > 0
    ensures fresh(newSeen) && newSeen.Length == 2 * seen.Length && newSeen[..seen.Length] == seen[..]
  {
    newSeen := new Name[seen.Length * 2](i => Index(0));
    for i := 0 to seen.Length
      invariant newSeen[..i] == seen[..i]
    {
      newSeen[i] := seen[i];
    }
  }

  class Iterator {
    const chain: seq<seq<Slot>>
    var target: Option<nat>    // which object of the chain, none at the end
    var offset: nat
    var name: Option<Name>
    var seen: array<Name>
    var len: nat

    ghost predicate Valid()
      reads this, seen
    {
      && len <= seen.Length && seen.Length > 0
      && (target.Some? ==> target.value < |chain| && offset <= |chain[target.value]|)
    }

    ghost function Seen(): set<Name>
      reads this`seen, this`len, seen
    {
      if len <= seen.Length then set n | n in seen[..len] else {}
    }

    /** The slots that are still ahead. */
    ghost function Ahead(): seq<Slot>
      reads this`target, this`offset
    {
      if target.Some? && target.value < |chain| && offset <= |chain[target.value]| then
        chain[target.value][offset..] + Flat(chain[target.value + 1..])
      else []
    }

    constructor (chain: seq<seq<Slot>>)
      ensures Valid() && Seen() == {} && Ahead() == Flat(chain) && fresh(seen)
    {
      this.chain := chain;
      target := if chain == [] then None else Some(0);
      offset, name, len := 0, None, 0;
      seen := new Name[INITIAL_SEEN](i => Index(0));
      new;
      assert chain != [] ==> chain[0][0..] == chain[0];
    }

    /** Remembers a name, and tells whether it is new. */
    method Add(n: Name) returns (isNew: bool)
      requires Valid()
      modifies this`seen, this`len, seen
      ensures Valid() && isNew == (n !in old(Seen())) && Seen() == old(Seen()) + {n}
      ensures fresh(seen) || seen == old(seen)
    {
      for i := 0 to len
        invariant n !in seen[..i]
      {
        if seen[i] == n {
          return false;
        }
      }
      ghost var before := seen[..len];
      if len == seen.Length {
        seen := Grown(seen);
      }
      assert seen[..len] == before;
      seen[len] := n;
      len := len + 1;
      assert seen[..len] == before + [n];
      isNew := true;
    }

    /** Looks at the next slot of the current object; tells whether its name is to be given. */
    method Visit() returns (found: bool)
      requires Valid() && target.Some? && offset < |chain[target.value]|
      modifies this`offset, this`name, this`seen, this`len, seen
      ensures Valid() && (fresh(seen) || seen == old(seen)) && offset == old(offset) + 1
      ensures found ==> name.Some? && Names(old(Ahead()), old(Seen())) == [name.value] + Names(Ahead(), Seen())
      ensures !found ==> Names(old(Ahead()), old(Seen())) == Names(Ahead(), Seen())
    {
      hide Seen;
      ghost var ahead := Ahead();
      var slot := chain[target.value][offset];
      offset := offset + 1;
      assert ahead[0] == slot && ahead[1..] == Ahead();
      hide Ahead, Flat;
      found := false;
      if slot.Key? {
        ghost var seenBefore := Seen();
        var isNew := Add(slot.name);
        if isNew && slot.enumerable {
          name := Some(slot.name);
          found := true;
        }
        assert isNew || seenBefore + {slot.name} == seenBefore;
      }
    }

    /** Goes on with the prototype at the end of an object. */
    method Climb() returns (more: bool)
      requires Valid() && target.Some? && offset == |chain[target.value]|
      modifies this`target, this`offset, this`name
      ensures Valid() && Ahead() == old(Ahead()) && more == target.Some?
      ensures more ==> target == Some(old(target).value + 1)
      ensures Names(Ahead(), Seen()) == Names(old(Ahead()), old(Seen())) && (!more ==> Names(Ahead(), Seen()) == [])
    {
      var t := target.value;
      assert Ahead() == Flat(chain[t + 1..]);
      offset := 0;
      more := t + 1 < |chain|;
      if more {
        target := Some(t + 1);
        assert chain[t + 1..][1..] == chain[t + 2..] && chain[t + 1][0..] == chain[t + 1];
      } else {
        target := None;
        name := None;
      }
    }

    lemma NoMore()
      requires Valid() && target.None?
      ensures Names(Ahead(), Seen()) == []
    {
    }

    /** Moves on to the next name, if there is one. */
    method Next() returns (more: bool)
      requires Valid()
      modifies this`target, this`offset, this`name, this`seen, this`len, seen
      ensures Valid() && (fresh(seen) || seen == old(seen))
      ensures more == (Names(old(Ahead()), old(Seen())) != [])
      ensures more ==> name == Some(Names(old(Ahead()), old(Seen()))[0])
      ensures Names(Ahead(), Seen()) == if more then Names(old(Ahead()), old(Seen()))[1..] else []
    {
      hide Seen, Ahead, Flat, Names;
      if target.None? {
        NoMore();
        return false;
      }
      ghost var all := Names(Ahead(), Seen());
      while true
        invariant Valid() && (fresh(seen) || seen == old(seen)) && target.Some? && Names(Ahead(), Seen()) == all
        decreases |chain| - target.value, |chain[target.value]| - offset
      {
        if offset < |chain[target.value]| {
          var found := Visit();
          if found {
            return true;
          }
        } else {
          more := Climb();
          if !more {
            return;
          }
        }
      }
    }

    /** Over a whole run: exactly the visible names, each once. */
    method Drain() returns (names: seq<Name>)
      requires Valid() && Seen() == {} && Ahead() == Flat(chain)
      modifies this, seen
      ensures forall n: Name :: n in names <==> Visible(Flat(chain), n)
      ensures forall i: nat, j: nat :: i < j < |names| ==> names[i] != names[j]
    {
      hide Names, Flat, Visible, Ahead, Seen;
      ghost var all := Names(Flat(chain), {});
      names := [];
      while true
        invariant Valid() && (fresh(seen) || seen == old(seen)) && names + Names(Ahead(), Seen()) == all
        decreases |Names(Ahead(), Seen())|
      {
        var more := Next();
        if !more {
          break;
        }
        names := names + [name.value];
      }
      forall n: Name
        ensures n in names <==> Visible(Flat(chain), n)
      {
        GivesVisible(Flat(chain), {}, n);
      }
      forall i: nat, j: nat | i < j < |names|
        ensures names[i] != names[j]
      {
        GivesOnce(Flat(chain), {}, i, j);
      }
    }
  }
}
