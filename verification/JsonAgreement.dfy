/** What the parser makes of a text, objects included, against what the text means. */
module JsonAgreement {
  import opened Wrappers
  import opened JsonText
  import opened JsonLexer
  import opened JsonNumber
  import opened JsonParser
  import opened JsonGrammar
  import opened JsonTokens
  import opened JsonStrict
  import Uri

  // ---- Keys ----

  lemma SameUnits(c: char, d: char, a: seq<Unit>, b: seq<Unit>)
    requires a + Uri.Utf16(c as int) == b + Uri.Utf16(d as int)
    ensures a == b && c == d
  {
    var u, v := Uri.Utf16(c as int), Uri.Utf16(d as int);
    assert (a + u)[|a + u| - 1] == u[|u| - 1] && (b + v)[|b + v| - 1] == v[|v| - 1];
    assert |u| == |v|;
    assert (a + u)[..|a|] == a && (b + v)[..|b|] == b;
    assert (a + u)[|a|..] == u && (b + v)[|b|..] == v;
  }

  lemma {:induction false} SameText(s: string, t: string)
    requires Utf16(s) == Utf16(t)
    ensures s == t
    decreases |s|
  {
    if s == "" || t == "" {
      SomeUnits(s);
      SomeUnits(t);
    } else {
      SameUnits(s[|s| - 1], t[|t| - 1], Utf16(s[..|s| - 1]), Utf16(t[..|t| - 1]));
      SameText(s[..|s| - 1], t[..|t| - 1]);
      assert s == s[..|s| - 1] + [s[|s| - 1]] && t == t[..|t| - 1] + [t[|t| - 1]];
    }
  }

  lemma SomeUnits(s: string)
    ensures Utf16(s) == [] <==> s == ""
  {
  }

  // ---- Objects ----

  lemma {:induction false} PutStd(ms: seq<Member>, m: Member)
    ensures StdMembers(Put(ms, m)) == JPut(StdMembers(ms), JMember(Utf16(m.key), Std(m.value)))
  {
    hide Std, Utf16;
    if ms != [] {
      if ms[0].key != m.key && Utf16(ms[0].key) == Utf16(m.key) {
        SameText(ms[0].key, m.key);
      }
      PutStd(ms[1..], m);
      assert StdMembers(ms)[1..] == StdMembers(ms[1..]);
    }
  }

  lemma {:induction false} DefineStd(ms: seq<Member>)
    ensures StdMembers(Define(ms)) == JDefine(StdMembers(ms))
    decreases ms, 0
  {
    hide Put, JPut, Std, Utf16;
    if ms != [] {
      var n := |ms| - 1;
      DefineStd(ms[..n]);
      MergedStd(ms[n].value);
      PutStd(Define(ms[..n]), Member(ms[n].key, Merged(ms[n].value)));
      assert StdMembers(ms)[..n] == StdMembers(ms[..n]);
    }
  }

  /** Defining the members of an object means the same on both sides. */
  lemma {:induction false} MergedStd(t: Tree)
    ensures Std(Merged(t)) == JMerged(Std(t))
    decreases t, 1
  {
    hide Define, JDefine, Utf16;
    match t
    case Arr(es) =>
      forall k: nat | k < |es|
        ensures Std(Merged(es[k])) == JMerged(Std(es[k]))
      {
        MergedStd(es[k]);
      }
      assert StdAll(DefineAll(es)) == JDefineAll(StdAll(es));
    case Obj(ms) => DefineStd(ms);
    case _ =>
  }

  // ---- Objects without repeated keys ----

  predicate Distinct(v: Json) {
    match v
    case JArray(vs) => forall k: nat :: k < |vs| ==> Distinct(vs[k])
    case JObject(ms) => (forall k: nat :: k < |ms| ==> Distinct(ms[k].value)) && forall j: nat, k: nat :: j < k < |ms| ==> ms[j].key != ms[k].key
    case _ => true
  }

  lemma {:induction false} PutAtEnd(ms: seq<JMember>, m: JMember)
    requires forall k: nat :: k < |ms| ==> ms[k].key != m.key
    ensures JPut(ms, m) == ms + [m]
  {
    if ms != [] {
      PutAtEnd(ms[1..], m);
    }
  }

  lemma {:induction false} DistinctDefines(ms: seq<JMember>)
    requires Distinct(JObject(ms))
    ensures JDefine(ms) == ms
    decreases ms, 0
  {
    hide JPut;
    if ms != [] {
      var n := |ms| - 1;
      assert ms == ms[..n] + [ms[n]];
      DistinctDefines(ms[..n]);
      DistinctMerges(ms[n].value);
      PutAtEnd(ms[..n], ms[n]);
    }
  }

  lemma {:induction false} DistinctMerges(v: Json)
    requires Distinct(v)
    ensures JMerged(v) == v
    decreases v, 1
  {
    hide JDefine;
    match v
    case JArray(vs) =>
      forall k: nat | k < |vs|
        ensures JMerged(vs[k]) == vs[k]
      {
        DistinctMerges(vs[k]);
      }
      assert JDefineAll(vs) == vs;
    case JObject(ms) => DistinctDefines(ms);
    case _ =>
  }

  lemma {:induction false} PutSize(ms: seq<Member>, m: Member)
    ensures |Put(ms, m)| <= |ms| + 1 && (|Put(ms, m)| == |ms| + 1 ==> Put(ms, m) == ms + [m])
  {
    if ms != [] {
      PutSize(ms[1..], m);
    }
  }

  /** If no member was lost every one is where it was read. */
  lemma {:induction false} DefineSize(ms: seq<Member>)
    ensures |Define(ms)| <= |ms|
    ensures |Define(ms)| == |ms| ==> forall k: nat :: k < |ms| ==> Define(ms)[k] == Member(ms[k].key, Merged(ms[k].value))
  {
    hide Put, Merged;
    if ms != [] {
      var n := |ms| - 1;
      DefineSize(ms[..n]);
      PutSize(Define(ms[..n]), Member(ms[n].key, Merged(ms[n].value)));
    }
  }

  lemma {:induction false} MergedBack(t: Tree, v: Json)
    requires Like(t, v) && Std(Merged(t)) == v
    ensures Std(t) == v
    decreases t
  {
    hide Define, Utf16;
    match t
    case Arr(es) =>
      forall k: nat | k < |es|
        ensures StdAll(es)[k] == v.elements[k]
      {
        assert StdAll(DefineAll(es))[k] == Std(Merged(es[k]));
        MergedBack(es[k], v.elements[k]);
      }
      assert StdAll(es) == v.elements;
    case Obj(ms) =>
      DefineSize(ms);
      forall k: nat | k < |ms|
        ensures StdMembers(ms)[k] == v.members[k]
      {
        assert StdMembers(Define(ms))[k] == JMember(Utf16(ms[k].key), Std(Merged(ms[k].value)));
        MergedBack(ms[k].value, v.members[k].value);
      }
      assert StdMembers(ms) == v.members;
    case _ =>
  }

  /** What the parser makes of a clean text is what the text means. Where no key is repeated, only of those texts, and of
      those it rejects. */
  lemma AgreesExactly(s: string)
    ensures CleanText(s, true) || ParseJson(s).Invalid? ==> Same(ParseJson(s), ParseStrictly(s))
    ensures (DeriveText(s).Derived? ==> Distinct(DeriveText(s).t)) ==>
      (Same(ParseJson(s), ParseStrictly(s)) <==> CleanText(s, true) || ParseJson(s).Invalid?)
  {
    hide ReadJson, DeriveText, CleanText, Std, Merged, JMerged, Like, Distinct;
    ReadsExactly(s);
    var p, d := ReadJson(s), DeriveText(s);
    if p.Parsed? {
      MergedStd(p.t);
    }
    if d.Derived? && Distinct(d.t) {
      DistinctMerges(d.t);
      TakesAllJson(s);
      if p.Parsed? && Same(ParseJson(s), ParseStrictly(s)) {
        MergedBack(p.t, d.t);
      }
    }
  }
}
