/** Where the parser agrees with the grammar of section 15.12.1 of ECMA-262 5.1. */
module JsonStrict {
  import opened Wrappers
  import opened JsonText
  import opened JsonLexer
  import opened JsonNumber
  import opened JsonParser
  import opened JsonGrammar
  import opened JsonTokens

  // ---- What the parser meets ----

  predicate Closes(s: string, token: Token) {
    NextToken(s).Got? && NextToken(s).token == token
  }

  /** What follows a comma, if one comes next. */
  function AfterComma(s: string): (rest: Option<string>)
    ensures rest.Some? ==> |rest.value| < |s|
  {
    if Closes(s, Comma) then Some(NextToken(s).rest) else None
  }

  /** Every token that the parser meets in a value fits, every key is followed by a colon, and every point in a number
      is between two digits. If it has to be read exactly, no string has an escaped surrogate, and no zero is negative. */
  predicate Clean(s: string, exactly: bool)
    decreases |s|, 0
  {
    var next := NextToken(s);
    && Fits(s)
    && (next.Got? ==>
          match next.token
          case Literal(t) => (t.Float? ==> PointsStand(t.text)) && (exactly ==> Exact(s))
          case OpenBracket => Closes(next.rest, CloseBracket) || CleanElements(next.rest, exactly)
          case OpenBrace => Closes(next.rest, CloseBrace) || CleanMembers(next.rest, exactly)
          case _ => true)
  }

  predicate CleanElements(s: string, exactly: bool)
    decreases |s|, 1
  {
    var p := ParseValue(s);
    && Clean(s, exactly)
    && (p.Parsed? ==>
          Fits(p.rest) && (AfterComma(p.rest).Some? ==> CleanElements(AfterComma(p.rest).value, exactly)))
  }

  predicate CleanMember(s: string, exactly: bool)
    decreases |s|, 0
  {
    var key := NextToken(s);
    && Fits(s)
    && (key.Got? && key.token.Literal? && key.token.t.Str? ==>
          && (exactly ==> Exact(s)) && Fits(key.rest)
          && (NextToken(key.rest).Got? ==> NextToken(key.rest).token == Colon)
          && Clean(SkipColon(key.rest), exactly))
  }

  predicate CleanMembers(s: string, exactly: bool)
    decreases |s|, 1
  {
    var e := ParseMember(s);
    && CleanMember(s, exactly)
    && (e.Entry? ==>
          Fits(e.rest) && (AfterComma(e.rest).Some? ==> CleanMembers(AfterComma(e.rest).value, exactly)))
  }

  predicate CleanText(s: string, exactly: bool) {
    var p := ParseValue(s);
    Clean(s, exactly) && (p.Parsed? ==> Fits(p.rest))
  }

  // ---- The same shape ----

  predicate Like(t: Tree, v: Json) {
    match t
    case Arr(es) => v.JArray? && LikeAll(es, v.elements)
    case Obj(ms) => v.JObject? && LikeMembers(ms, v.members)
    case _ => LeafLike(t, v)
  }

  predicate LikeAll(es: seq<Tree>, vs: seq<Json>) {
    |es| == |vs| && forall k: nat :: k < |es| ==> Like(es[k], vs[k])
  }

  predicate LikeMembers(ms: seq<Member>, vs: seq<JMember>) {
    |ms| == |vs| && forall k: nat :: k < |ms| ==> Like(ms[k].value, vs[k].value)
  }

  // ---- Following the parser ----

  /** Nothing can be derived that goes on from here. */
  predicate Dead(d: Derived) {
    d.Derived? ==> Junk(d.rest)
  }

  /** The same shape, up to the same place. */
  ghost predicate Gives(p: Parsed, d: Derived)
    requires p.Parsed?
  {
    d.Derived? && d.rest == p.rest && Like(p.t, d.t)
  }

  ghost predicate ValueFollows(s: string, p: Parsed, d: Derived) {
    if Clean(s, false) then
      && !p.Crashed? && (p.Invalid? ==> Dead(d))
      && (p.Parsed? ==> Gives(p, d) && (d.t == Std(p.t) <==> Clean(s, true)))
    else p.Crashed? || Dead(d)
  }

  ghost predicate ElementsFollow(s: string, before: seq<Tree>, given: seq<Json>, p: Parsed, d: Derived) {
    if CleanElements(s, false) then
      && !p.Crashed? && (p.Invalid? ==> d.Underivable?)
      && (p.Parsed? ==> Gives(p, d) && (d.t == Std(p.t) <==> given == StdAll(before) && CleanElements(s, true)))
    else p.Crashed? || d.Underivable?
  }

  ghost predicate MemberFollows(s: string, e: Entry, d: DerivedMember) {
    if CleanMember(s, false) then
      && !e.CrashedEntry? && (e.BadEntry? ==> d.NoMember? || Junk(d.rest))
      && (e.Entry? ==> d.DerivedMember? && d.rest == e.rest && Like(e.m.value, d.m.value))
      && (e.Entry? ==> (d.m == JMember(Utf16(e.m.key), Std(e.m.value)) <==> CleanMember(s, true)))
    else e.CrashedEntry? || d.NoMember? || Junk(d.rest)
  }

  ghost predicate MembersFollow(s: string, before: seq<Member>, given: seq<JMember>, p: Parsed, d: Derived) {
    if CleanMembers(s, false) then
      && !p.Crashed? && (p.Invalid? ==> d.Underivable?)
      && (p.Parsed? ==> Gives(p, d) && (d.t == Std(p.t) <==> given == StdMembers(before) && CleanMembers(s, true)))
    else p.Crashed? || d.Underivable?
  }

  lemma StdNext(es: seq<Tree>, t: Tree, vs: seq<Json>, v: Json)
    requires LikeAll(es, vs) && Like(t, v)
    ensures LikeAll(es + [t], vs + [v])
    ensures vs + [v] == StdAll(es + [t]) <==> vs == StdAll(es) && v == Std(t)
  {
    hide Like, Std;
    if vs + [v] == StdAll(es + [t]) {
      assert (vs + [v])[|vs|] == v;
      forall k: nat | k < |es|
        ensures vs[k] == StdAll(es)[k]
      {
        assert (vs + [v])[k] == vs[k] && (es + [t])[k] == es[k];
        assert StdAll(es + [t])[k] == Std(es[k]);
      }
    }
  }

  lemma StdMembersNext(ms: seq<Member>, m: Member, vs: seq<JMember>, v: JMember)
    requires LikeMembers(ms, vs) && Like(m.value, v.value)
    ensures LikeMembers(ms + [m], vs + [v])
    ensures vs + [v] == StdMembers(ms + [m]) <==> vs == StdMembers(ms) && v == JMember(Utf16(m.key), Std(m.value))
  {
    hide Like, Std, Utf16;
    if vs + [v] == StdMembers(ms + [m]) {
      assert (vs + [v])[|vs|] == v;
      forall k: nat | k < |ms|
        ensures vs[k] == StdMembers(ms)[k]
      {
        assert (vs + [v])[k] == vs[k] && (ms + [m])[k] == ms[k];
        assert StdMembers(ms + [m])[k] == JMember(Utf16(ms[k].key), Std(ms[k].value));
      }
    }
  }

  lemma {:induction false} FollowsValue(s: string)
    ensures ValueFollows(s, ParseValue(s), DeriveValue(s))
    decreases |s|, 0
  {
    hide NextToken, Scan, PointsStand, Fits, Exact, Utf16, ParseElements, ParseMembers, DeriveElements, DeriveMembers;
    hide CleanElements, CleanMembers;
    TokenAlike(s);
    var next := NextToken(s);
    if next.Got? {
      TokenAlike(next.rest);
      if next.token == OpenBracket {
        FollowsElements(next.rest, [], []);
      } else if next.token == OpenBrace {
        FollowsMembers(next.rest, [], []);
      }
    }
  }

  lemma {:induction false} FollowsElements(s: string, before: seq<Tree>, given: seq<Json>)
    requires LikeAll(before, given)
    ensures ElementsFollow(s, before, given, ParseElements(s, before), DeriveElements(s, given))
    decreases |s|, 1
  {
    hide NextToken, Scan, PointsStand, Fits, Exact, ParseValue, DeriveValue, Clean;
    FollowsValue(s);
    var p, d := ParseValue(s), DeriveValue(s);
    if p.Parsed? {
      TokenAlike(p.rest);
      if d.Derived? && d.rest == p.rest && Like(p.t, d.t) {
        StdNext(before, p.t, given, d.t);
        if AfterComma(p.rest).Some? {
          FollowsElements(AfterComma(p.rest).value, before + [p.t], given + [d.t]);
        }
      }
    }
  }

  lemma {:induction false} FollowsMember(s: string)
    ensures MemberFollows(s, ParseMember(s), DeriveMember(s))
    decreases |s|, 1
  {
    hide NextToken, Scan, PointsStand, Fits, Exact, ParseValue, DeriveValue, Clean, Std, Utf16, Like;
    TokenAlike(s);
    var key := NextToken(s);
    if key.Got? {
      TokenAlike(key.rest);
      NothingRead(key.rest);
      if key.token.Literal? {
        StdLeaf(key.token.t);
      }
      FollowsValue(SkipColon(key.rest));
    }
  }

  lemma StdLeaf(t: Tree)
    ensures t.Str? ==> Std(t) == JString(Utf16(t.s))
    ensures !t.Str? ==> !Std(t).JString?
  {
    hide Utf16;
  }

  /** Where there is no token there is nothing more to meet. */
  lemma NothingRead(s: string)
    ensures !NextToken(s).Got? ==> (Clean(s, false) <==> Fits(s)) && (Clean(s, true) <==> Fits(s)) && ParseValue(s) == Failed(NextToken(s))
  {
    hide NextToken, Fits;
  }

  lemma {:induction false} FollowsMembers(s: string, before: seq<Member>, given: seq<JMember>)
    requires LikeMembers(before, given)
    ensures MembersFollow(s, before, given, ParseMembers(s, before), DeriveMembers(s, given))
    decreases |s|, 2
  {
    hide NextToken, Scan, PointsStand, Fits, Exact, ParseMember, DeriveMember, CleanMember;
    FollowsMember(s);
    var e, d := ParseMember(s), DeriveMember(s);
    if e.Entry? {
      TokenAlike(e.rest);
      if d.DerivedMember? && d.rest == e.rest && Like(e.m.value, d.m.value) {
        StdMembersNext(before, e.m, given, d.m);
        if AfterComma(e.rest).Some? {
          FollowsMembers(AfterComma(e.rest).value, before + [e.m], given + [d.m]);
        }
      }
    }
  }

  // ---- Exactly is cleaner ----

  lemma {:induction false} CleanerValue(s: string)
    requires Clean(s, true)
    ensures Clean(s, false)
    decreases |s|, 0
  {
    hide NextToken, Fits, Exact, PointsStand;
    var next := NextToken(s);
    if next.Got? {
      if next.token == OpenBracket && !Closes(next.rest, CloseBracket) {
        CleanerElements(next.rest);
      } else if next.token == OpenBrace && !Closes(next.rest, CloseBrace) {
        CleanerMembers(next.rest);
      }
    }
  }

  lemma {:induction false} CleanerElements(s: string)
    requires CleanElements(s, true)
    ensures CleanElements(s, false)
    decreases |s|, 1
  {
    hide NextToken, Fits, ParseValue, Clean;
    CleanerValue(s);
    var p := ParseValue(s);
    if p.Parsed? && AfterComma(p.rest).Some? {
      CleanerElements(AfterComma(p.rest).value);
    }
  }

  lemma {:induction false} CleanerMembers(s: string)
    requires CleanMembers(s, true)
    ensures CleanMembers(s, false)
    decreases |s|, 1
  {
    hide NextToken, Fits, ParseMember, Clean;
    var key := NextToken(s);
    if key.Got? && key.token.Literal? && key.token.t.Str? {
      CleanerValue(SkipColon(key.rest));
    }
    var e := ParseMember(s);
    if e.Entry? && AfterComma(e.rest).Some? {
      CleanerMembers(AfterComma(e.rest).value);
    }
  }

  // ---- Whole texts ----

  /** The same value up to the same place, or no value. */
  ghost predicate Same(p: Parsed, d: Derived) {
    match p
    case Parsed(t, rest) => d == Derived(Std(t), rest)
    case Invalid => d.Underivable?
    case Crashed => false
  }

  /** For every text: what is read is what the grammar derives exactly if the text is clean or is rejected; and what is
      rejected cannot be derived. */
  lemma ReadsExactly(s: string)
    ensures Same(ReadJson(s), DeriveText(s)) <==> CleanText(s, true) || ReadJson(s).Invalid?
    ensures ReadJson(s).Invalid? ==> DeriveText(s).Underivable?
  {
    hide NextToken, Scan, Fits, ParseValue, DeriveValue, Clean, Std, Like;
    FollowsValue(s);
    if Clean(s, true) {
      CleanerValue(s);
    }
    var p := ParseValue(s);
    if p.Parsed? {
      TokenAlike(p.rest);
    }
  }

  /** Of what the grammar derives the parser reads everything in the same shape, and panics exactly if it meets an integer
      that does not fit 64 bits. */
  lemma TakesAllJson(s: string)
    requires DeriveText(s).Derived?
    ensures if CleanText(s, false) then ReadJson(s).Parsed? && Gives(ReadJson(s), DeriveText(s)) else ReadJson(s).Crashed?
  {
    hide NextToken, Scan, Fits, ParseValue, DeriveValue, Clean, Std, Like;
    FollowsValue(s);
    var p := ParseValue(s);
    if p.Parsed? {
      TokenAlike(p.rest);
    }
  }
}
