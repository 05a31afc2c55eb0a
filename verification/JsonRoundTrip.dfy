/** What is written is JSON, and reads back. */
module JsonRoundTrip {
  import opened Wrappers
  import opened JsonText
  import opened JsonLexer
  import opened JsonNumber
  import opened JsonParser
  import JsonGrammar
  import opened JsonTokens
  import opened JsonStrict
  import JsonAgreement
  import JsonWriter

  // ---- Written tokens ----

  /** The token is there, and is read exactly. */
  ghost predicate Reads(s: string, token: Token, rest: string) {
    NextToken(s) == Got(token, rest) && Fits(s) && Exact(s)
  }

  lemma MarkReads(c: char, s: string)
    requires c == '[' || c == ']' || c == '{' || c == '}' || c == ',' || c == ':'
    ensures Reads([c] + s, if c == '[' then OpenBracket else if c == ']' then CloseBracket else if c == '{' then OpenBrace
                           else if c == '}' then CloseBrace else if c == ',' then Comma else Colon, s)
  {
    hide NextToken, Fits;
    LexesMark(c, s);
    TokenAlike([c] + s);
  }

  lemma WordReads(t: Tree, s: string)
    requires (t.Null? || t.Bool?) && Ends(s)
    ensures Reads(Text(t) + s, Literal(t), s)
  {
    hide NextToken, Fits;
    LexesWord(t, s);
    TokenAlike(Text(t) + s);
  }

  lemma IntReads(i: int, s: string)
    requires -0x8000_0000_0000_0000 <= i < 0x8000_0000_0000_0000 && Ends(s)
    ensures Reads(IntText(i) + s, Literal(Int(i)), s)
  {
    hide NextToken, Fits, NatText;
    LexesInt(i, s);
    var t := IntText(i) + s;
    TokenAlike(t);
    var n := if i < 0 then -i else i;
    DecimalDigits(n);
    assert IsDigit(NatText(n)[0]);
    var d := JsonGrammar.NumberText(t);
    assert |d| >= 2 ==> t[0] == d[0] && t[1] == d[1];
  }

  /** No escape that is written is a surrogate. */
  lemma EscapeIsNone(c: char, s: string)
    ensures NoSurrogates(EscapeChar(c) + s) <==> NoSurrogates(s)
  {
    hide NoSurrogates, JsonGrammar.HexUnit;
    var e := EscapeChar(c);
    assert (e + s)[1..] == e[1..] + s;
    if |e| == 1 {
      assert e[1..] + s == s;
      PlainCharacter(e + s);
    } else {
      if |e| == 6 {
        ControlIsNone(c, s);
      } else {
        assert (e[1..] + s)[1..] == s;
      }
      EscapedCharacter(e + s);
    }
  }

  lemma PlainCharacter(s: string)
    requires s != "" && s[0] != '\"' && s[0] != '\\'
    ensures NoSurrogates(s) <==> NoSurrogates(s[1..])
  {
    hide JsonGrammar.Escape;
  }

  lemma EscapedCharacter(s: string)
    requires s != "" && s[0] == '\\' && JsonGrammar.Escape(s[1..]).Escaped?
    requires !IsSurrogate(JsonGrammar.Escape(s[1..]).u)
    ensures NoSurrogates(s) <==> NoSurrogates(JsonGrammar.Escape(s[1..]).rest)
  {
    hide JsonGrammar.Escape;
  }

  lemma ControlIsNone(c: char, s: string)
    requires |EscapeChar(c)| == 6
    ensures JsonGrammar.Escape(EscapeChar(c)[1..] + s) == JsonGrammar.Escaped(c as int, s)
  {
    var high, low := c as int / 16, c as int % 16;
    var digits := ['0', '0', JsonText.HexDigit(high), JsonText.HexDigit(low)] + s;
    assert EscapeChar(c)[1..] + s == ['u'] + digits;
    assert (['u'] + digits)[1..] == digits;
    assert HexValue(digits[2]) == Some(high) && HexValue(digits[3]) == Some(low) && HexValue('0') == Some(0);
    hide HexValue, JsonGrammar.HexUnit;
    assert digits[4..] == s;
    FourDigits(digits, 0, 0, high, low);
  }

  /** A character is written as itself unless it is a quote, a backslash or a control character, in the forms of `Quote`
      in section 15.12.3. */
  lemma QuotesAsStandard(c: char)
    ensures EscapeChar(c) == [c] <==> c >= ' ' && c != '\"' && c != '\\'
    ensures c == '\"' || c == '\\' ==> EscapeChar(c) == ['\\', c]
    ensures c < ' ' && c in "\U{8}\U{C}\n\r\t" ==>
      exists k: nat :: k < 5 && c == "\U{8}\U{C}\n\r\t"[k] && EscapeChar(c) == ['\\', "bfnrt"[k]]
    ensures c < ' ' && c !in "\U{8}\U{C}\n\r\t" ==>
      |EscapeChar(c)| == 6 && EscapeChar(c)[0] == '\\'
      && JsonGrammar.Escape(EscapeChar(c)[1..]) == JsonGrammar.Escaped(c as int, "")
  {
    var controls, letters := "\U{8}\U{C}\n\r\t", "bfnrt";
    assert controls[0] == '\U{8}' && controls[1] == '\U{C}' && controls[2] == '\n' && controls[3] == '\r' && controls[4] == '\t';
    hide JsonGrammar.Escape;
    if |EscapeChar(c)| == 6 {
      ControlIsNone(c, "");
      assert EscapeChar(c)[1..] + "" == EscapeChar(c)[1..];
    }
  }

  lemma {:induction false} TextIsNone(t: string, s: string)
    ensures NoSurrogates(EscapeText(t) + "\"" + s)
  {
    hide NoSurrogates;
    if t == "" {
      assert EscapeText(t) + "\"" + s == "\"" + s;
      QuoteIsNone(s);
    } else {
      var rest := EscapeText(t[1..]) + "\"" + s;
      assert EscapeText(t) + "\"" + s == EscapeChar(t[0]) + rest;
      EscapeIsNone(t[0], rest);
      TextIsNone(t[1..], s);
    }
  }

  lemma QuoteIsNone(s: string)
    ensures NoSurrogates("\"" + s)
  {
  }

  lemma StringReads(t: string, s: string)
    ensures Reads(Quoted(t) + s, Literal(Str(t)), s)
  {
    hide NextToken, Fits, NoSurrogates;
    LexesString(t, s);
    TokenAlike(Quoted(t) + s);
    TextIsNone(t, s);
    assert (Quoted(t) + s)[1..] == EscapeText(t) + "\"" + s;
  }

  // ---- Written values ----

  ghost predicate ReadsAs(s: string, t: Tree, rest: string) {
    ParseValue(s) == Parsed(t, rest) && Clean(s, true)
  }

  ghost predicate ElementsRead(s: string, before: seq<Tree>, es: seq<Tree>, rest: string) {
    ParseElements(s, before) == Parsed(Arr(before + es), rest) && CleanElements(s, true)
  }

  ghost predicate MembersRead(s: string, before: seq<Member>, ms: seq<Member>, rest: string) {
    ParseMembers(s, before) == Parsed(Obj(before + ms), rest) && CleanMembers(s, true)
  }

  /** The text of a tree reads as the tree, up to exactly its end, and nothing in it is unclean. */
  lemma {:induction false} ReadsBack(t: Tree, s: string)
    requires WellFormed(t) && Ends(s)
    ensures ReadsAs(Text(t) + s, t, s)
    decreases t, 1
  {
    hide NextToken, Quoted, IntText, ElementsText, MembersText, ParseArray, ParseObject, Ends, DistinctKeys, Fits,
      Exact;
    match t
    case Null => WordReads(t, s);
    case Bool(b) => WordReads(t, s);
    case Int(i) => IntReads(i, s);
    case Str(v) => StringReads(v, s);
    case Arr(es) =>
      if es != [] {
        ElementsReadBack(es, [], s);
      }
      ArrayReads(es, s);
    case Obj(ms) =>
      if ms != [] {
        MembersReadBack(ms, [], s);
      }
      ObjectReads(ms, s);
  }

  lemma ArrayReads(es: seq<Tree>, s: string)
    requires es != [] ==> ElementsRead(ElementsText(es) + "]" + s, [], es, s)
    ensures ReadsAs(Text(Arr(es)) + s, Arr(es), s)
  {
    hide NextToken, ElementsText, ParseElements, CleanElements, Fits, Exact;
    var inner := ElementsText(es) + "]" + s;
    assert Text(Arr(es)) + s == ['['] + inner;
    MarkReads('[', inner);
    if es == [] {
      NoElementsText();
      assert inner == [']'] + s;
      MarkReads(']', s);
    } else {
      NotClosed(inner, []);
      assert [] + es == es;
    }
    assert ParseArray(inner) == Parsed(Arr(es), s);
    assert Clean(['['] + inner, true);
  }

  lemma NoElementsText()
    ensures ElementsText([]) == "" && MembersText([]) == ""
  {
  }

  /** Where elements parse there is no closing bracket yet. */
  lemma NotClosed(s: string, before: seq<Tree>)
    requires ParseElements(s, before).Parsed?
    ensures NextToken(s).Got? && NextToken(s).token != CloseBracket
  {
    hide NextToken;
  }

  lemma NotClosedObject(s: string, before: seq<Member>)
    requires ParseMembers(s, before).Parsed?
    ensures NextToken(s).Got? && NextToken(s).token != CloseBrace
  {
    hide NextToken;
  }

  lemma ObjectReads(ms: seq<Member>, s: string)
    requires ms != [] ==> MembersRead(MembersText(ms) + "}" + s, [], ms, s)
    ensures ReadsAs(Text(Obj(ms)) + s, Obj(ms), s)
  {
    hide NextToken, MembersText, ParseMembers, CleanMembers, Fits, Exact;
    var inner := MembersText(ms) + "}" + s;
    assert Text(Obj(ms)) + s == ['{'] + inner;
    MarkReads('{', inner);
    if ms == [] {
      NoElementsText();
      assert inner == ['}'] + s;
      MarkReads('}', s);
    } else {
      NotClosedObject(inner, []);
      assert [] + ms == ms;
    }
    assert ParseObject(inner) == Parsed(Obj(ms), s);
    assert Clean(['{'] + inner, true);
  }

  lemma {:induction false} ElementsReadBack(es: seq<Tree>, before: seq<Tree>, s: string)
    requires es != [] && forall k: nat :: k < |es| ==> WellFormed(es[k])
    ensures ElementsRead(ElementsText(es) + "]" + s, before, es, s)
    decreases es, 0
  {
    hide NextToken, ParseValue, Text, WellFormed, Clean, Fits, Exact;
    var rest := MoreElements(es[1..]) + "]" + s;
    assert ElementsText(es) + "]" + s == Text(es[0]) + rest;
    if es[1..] == [] {
      assert rest == "]" + s && es == [es[0]];
      assert rest == [']'] + s;
      MarkReads(']', s);
      ReadsBack(es[0], rest);
    } else {
      var more := es[1..];
      assert rest == "," + (ElementsText(more) + "]" + s);
      MarkReads(',', ElementsText(more) + "]" + s);
      ReadsBack(es[0], rest);
      ElementsReadBack(more, before + [es[0]], s);
      assert before + [es[0]] + more == before + es;
    }
  }

  lemma {:induction false} MembersReadBack(ms: seq<Member>, before: seq<Member>, s: string)
    requires ms != [] && forall k: nat :: k < |ms| ==> WellFormed(ms[k].value)
    ensures MembersRead(MembersText(ms) + "}" + s, before, ms, s)
    decreases ms, 0
  {
    hide NextToken, ParseValue, Text, WellFormed, Quoted, ParseMember, MemberText, CleanMember, Fits, Exact, Clean;
    var m := ms[0];
    var rest := MoreMembers(ms[1..]) + "}" + s;
    assert MembersText(ms) + "}" + s == MemberText(m) + rest;
    if ms[1..] == [] {
      assert rest == ['}'] + s && ms == [m];
      MarkReads('}', s);
      ReadsBack(m.value, rest);
    } else {
      var more := ms[1..];
      assert rest == [','] + (MembersText(more) + "}" + s);
      MarkReads(',', MembersText(more) + "}" + s);
      ReadsBack(m.value, rest);
      assert before + [m] + more == before + ms;
      MembersReadBack(more, before + [m], s);
    }
    MemberReads(m, rest);
  }

  lemma MemberReads(m: Member, rest: string)
    requires ReadsAs(Text(m.value) + rest, m.value, rest)
    ensures ParseMember(MemberText(m) + rest) == Entry(m, rest) && CleanMember(MemberText(m) + rest, true)
  {
    hide NextToken, ParseValue, Text, Quoted, Clean, Fits, Exact;
    var value := Text(m.value) + rest;
    assert MemberText(m) + rest == Quoted(m.key) + ([':'] + value);
    StringReads(m.key, [':'] + value);
    MarkReads(':', value);
  }

  // ---- Round trip ----

  lemma {:induction false} PutNew(ms: seq<Member>, m: Member)
    requires forall k: nat :: k < |ms| ==> ms[k].key != m.key
    ensures Put(ms, m) == ms + [m]
  {
    if ms != [] {
      PutNew(ms[1..], m);
    }
  }

  lemma {:induction false} DistinctDefined(ms: seq<Member>)
    requires WellFormed(Obj(ms))
    ensures Define(ms) == ms
    decreases ms, 0
  {
    hide Put;
    if ms != [] {
      var n := |ms| - 1;
      assert ms == ms[..n] + [ms[n]];
      DistinctDefined(ms[..n]);
      WellFormedMerged(ms[n].value);
      PutNew(ms[..n], ms[n]);
    }
  }

  lemma {:induction false} WellFormedMerged(t: Tree)
    requires WellFormed(t)
    ensures Merged(t) == t
    decreases t, 1
  {
    hide Define;
    match t
    case Arr(es) =>
      forall k: nat | k < |es|
        ensures Merged(es[k]) == es[k]
      {
        WellFormedMerged(es[k]);
      }
      assert DefineAll(es) == es;
    case Obj(ms) => DistinctDefined(ms);
    case _ =>
  }

  /** The text of a tree parses to the tree, up to exactly its end. */
  lemma ValueRoundTrip(t: Tree, s: string)
    requires WellFormed(t) && Ends(s)
    ensures ParseValue(Text(t) + s) == Parsed(t, s)
    ensures JsonGrammar.DeriveValue(Text(t) + s) == JsonGrammar.Derived(Std(t), s)
  {
    hide ParseValue, Text, Clean, Std, JsonGrammar.DeriveValue, Like;
    ReadsBack(t, s);
    CleanerValue(Text(t) + s);
    FollowsValue(Text(t) + s);
  }

  lemma RoundTrip(t: Tree)
    requires WellFormed(t)
    ensures ParseJson(Text(t)) == Parsed(t, "") && JsonGrammar.ParseStrictly(Text(t)) == JsonGrammar.Derived(Std(t), "")
  {
    hide ParseValue, Clean, Std, Text, JsonGrammar.ParseStrictly, Fits;
    ReadsBack(t, "");
    assert Text(t) + "" == Text(t);
    WellFormedMerged(t);
    NothingLeft();
    assert CleanText(Text(t), true);
    JsonAgreement.AgreesExactly(Text(t));
  }

  lemma NothingLeft()
    ensures NextToken("") == AtEnd && Fits("")
  {
  }

  /** What is written for a value that does not contain itself is JSON and parses back to what the value unfolds to. */
  lemma StringifyThenParse(h: JsonWriter.Heap, v: JsonWriter.Value)
    requires JsonWriter.Closed(h) && JsonWriter.Writable(h) && JsonWriter.Inside(h, v) && JsonWriter.InRange(v)
    requires !JsonWriter.Cyclic(h, v)
    ensures var t := JsonWriter.Unfold(h, v, {});
      && t.Some? && ParseJson(Text(t.value)) == Parsed(t.value, "")
      && JsonGrammar.ParseStrictly(Text(t.value)) == JsonGrammar.Derived(Std(t.value), "")
  {
    JsonWriter.RejectsExactlyCycles(h, v);
    JsonWriter.UnfoldsWellFormed(h, v, {});
    RoundTrip(JsonWriter.Unfold(h, v, {}).value);
  }
}
