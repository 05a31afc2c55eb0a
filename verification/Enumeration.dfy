/** What for-in gives, section 12.6.4, in terms of the properties of the objects it walks. */
module Enumeration {
  import opened Wrappers
  import opened Properties
  import opened ObjectRules
  import opened JsObject
  import opened JsIterator

  /** The nearest object on the chain that has the property has it enumerable. */
  ghost predicate Enumerable(chain: seq<View>, n: Name) {
    chain != [] && if chain[0][n].Some? then chain[0][n].value.enumerable else Enumerable(chain[1..], n)
  }

  ghost predicate Names(slots: seq<Slot>, n: Name) {
    exists k: nat {:trigger slots[k]} :: k < |slots| && slots[k].Key? && slots[k].name == n
  }

  /** The slots give every property, with its attribute, and nothing else. */
  ghost predicate Lists(slots: seq<Slot>, v: View) {
    && (forall k: nat {:trigger slots[k]} :: k < |slots| && slots[k].Key? ==>
          v[slots[k].name].Some? && slots[k].enumerable == v[slots[k].name].value.enumerable)
    && forall n: Name :: v[n].Some? ==> Names(slots, n)
  }

  /** The slots of an object as they are read one by one. */
  ghost function Keys(o: JsObject): (slots: seq<Slot>)
    requires o.Base()
    reads o, o.items
  {
    KeysOf(o.Slots(), o.Props())
  }

  ghost function KeysOf(names: seq<Option<Name>>, v: View): (slots: seq<Slot>)
    ensures |slots| == |names|
    ensures forall k: nat {:trigger slots[k]} :: k < |names| ==> slots[k] == SlotOf(names[k], v)
  {
    seq(|names|, k requires 0 <= k < |names| => SlotOf(names[k], v))
  }

  ghost function SlotOf(n: Option<Name>, v: View): Slot {
    if n.Some? && v[n.value].Some? then Slot.Key(n.value, v[n.value].value.enumerable) else Slot.Missing
  }

  /** An object's slots list its properties. */
  lemma KeysList(o: JsObject)
    requires o.Base()
    ensures Lists(Keys(o), o.Props())
  {
    hide JsObject.Slots, JsObject.SlotAt, JsObject.Own, JsObject.Props, JsObject.Base;
    var v, names := o.Props(), o.Slots();
    forall n: Name | v[n].Some?
      ensures Names(Keys(o), n)
    {
      o.EveryName(n);
      assert Option.Some(n) in names;
      var k: nat :| k < |names| && names[k] == Option.Some(n);
      assert Keys(o)[k] == SlotOf(names[k], v);
    }
  }

  /** In two lists one after the other the first decides about the names it has. */
  lemma {:induction false} VisibleInTwo(a: seq<Slot>, b: seq<Slot>, n: Name)
    ensures Visible(a + b, n) <==> if Names(a, n) then Visible(a, n) else Visible(b, n)
    decreases |a|
  {
    hide Visible;
    if a == [] {
      assert a + b == b;
    } else {
      assert (a + b)[1..] == a[1..] + b && (a + b)[0] == a[0];
      VisibleLater(a + b, n);
      VisibleLater(a, n);
      VisibleInTwo(a[1..], b, n);
      NamesLater(a, n);
      if Visible(a[1..], n) {
        VisibleIsNamed(a[1..], n);
      }
    }
  }

  lemma NamesLater(a: seq<Slot>, n: Name)
    requires a != []
    ensures Names(a, n) <==> (a[0].Key? && a[0].name == n) || Names(a[1..], n)
  {
    if Names(a[1..], n) {
      var k: nat :| k < |a| - 1 && a[1..][k].Key? && a[1..][k].name == n;
      assert a[k + 1] == a[1..][k];
    }
    if k: nat :| 0 < k < |a| && a[k].Key? && a[k].name == n {
      assert a[1..][k - 1] == a[k];
    }
  }

  lemma VisibleIsNamed(a: seq<Slot>, n: Name)
    requires Visible(a, n)
    ensures Names(a, n)
  {
    var k: nat :| First(a, k) && a[k] == Slot.Key(n, true);
    assert a[k].name == n;
  }

  lemma VisibleInOne(a: seq<Slot>, v: View, n: Name)
    requires Lists(a, v)
    ensures Names(a, n) <==> v[n].Some?
    ensures Names(a, n) ==> (Visible(a, n) <==> v[n].value.enumerable)
  {
    if Names(a, n) {
      var at: nat :| at < |a| && a[at].Key? && a[at].name == n;
      var k := FirstOf(a, n, at);
      assert First(a, k);
      if Visible(a, n) {
        var j: nat :| First(a, j) && a[j] == Slot.Key(n, true);
        assert j == k;
      }
    }
  }

  lemma {:induction false} FirstOf(a: seq<Slot>, n: Name, at: nat) returns (k: nat)
    requires at < |a| && a[at].Key? && a[at].name == n
    ensures k < |a| && a[k].Key? && a[k].name == n && First(a, k)
    decreases at
  {
    if j: nat :| j < at && a[j].Key? && a[j].name == n {
      k := FirstOf(a, n, j);
    } else {
      k := at;
    }
  }

  /** Enumerating a chain of objects gives exactly the names whose nearest property is enumerable. */
  lemma {:induction false} ChainMeans(chain: seq<seq<Slot>>, views: seq<View>, n: Name)
    requires |chain| == |views| && forall i: nat {:trigger chain[i]} :: i < |chain| ==> Lists(chain[i], views[i])
    ensures Visible(Flat(chain), n) <==> Enumerable(views, n)
    decreases |chain|
  {
    hide Visible, Lists;
    if chain == [] {
      if Visible([], n) {
        VisibleIsNamed([], n);
      }
    } else {
      assert forall i: nat {:trigger chain[1..][i]} :: i < |chain| - 1 ==> chain[1..][i] == chain[i + 1];
      ChainMeans(chain[1..], views[1..], n);
      VisibleInTwo(chain[0], Flat(chain[1..]), n);
      assert Lists(chain[0], views[0]);
      VisibleInOne(chain[0], views[0], n);
    }
  }

  /** For objects: the names that an iterator over their slots gives. */
  lemma ObjectsMean(objects: seq<JsObject>, chain: seq<seq<Slot>>, views: seq<View>, n: Name)
    requires |chain| == |views| == |objects| && forall i: nat {:trigger objects[i]} :: i < |objects| ==>
      objects[i].Base() && chain[i] == Keys(objects[i]) && views[i] == objects[i].Props()
    ensures Visible(Flat(chain), n) <==> Enumerable(views, n)
  {
    hide Visible, Enumerable, Lists, Keys;
    forall i: nat {:trigger chain[i]} | i < |chain|
      ensures Lists(chain[i], views[i])
    {
      assert chain[i] == Keys(objects[i]);
      KeysList(objects[i]);
    }
    ChainMeans(chain, views, n);
  }
}
