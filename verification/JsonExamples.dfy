/** Texts that the parser takes although they are no JSON, reads as something else, or panics on. */
module JsonExamples {
  import opened Wrappers
  import opened JsonText
  import opened JsonLexer
  import opened JsonNumber
  import opened JsonParser
  import opened JsonGrammar
  import opened JsonTokens
  import opened JsonStrict
  import opened JsonAgreement
  import Uri

  // ---- Texts of one token ----

  lemma OneToken(s: string)
    requires s != "" && !IsBlank(First(s))
    ensures NextToken(s) == match Lex(s) { case Tok(t, rest) => Got(t, rest) case Blank(rest) => NextToken(rest) case Fatal => Unreadable case Panics => Panicked }
    ensures NextToken("") == AtEnd && Scan("").AtTheEnd? && Skip(s) == s
  {
  }

  /** A text of one token that is no mark. */
  lemma OneLeaf(s: string, v: Json)
    requires Scan(s) == Read(Value(v), "") && JMerged(v) == v
    ensures ParseStrictly(s) == Derived(v, "")
  {
    hide Scan, JMerged;
    assert Scan("").AtTheEnd? by {
      OneToken("0");
    }
  }

  lemma NoLeaf(s: string)
    requires Scan(s).NoToken?
    ensures ParseStrictly(s).Underivable?
  {
    hide Scan;
  }

  /** A number is scanned whole. */
  lemma NumberScans(text: string, s: string)
    requires IsNumber(text) && (s != "" ==> Next(FormOf(text), First(s)) == Bad)
    ensures NumberText(text + s) == text
  {
    hide FormOf, Next, Run, IsNumber;
    var t := text + s;
    Appended("", '0');
    RunStops("", t);
    var n := Run(Empty, t);
    assert "" + t[..n] == t[..n];
    if n < |text| {
      assert t[..n + 1] + text[n + 1..] == text && t[..n] + [t[n]] == t[..n + 1];
      GoesBad(t[..n], t[n], text[n + 1..]);
    } else if n > |text| {
      assert t[..n] == t[..|text|] + [t[|text|]] + t[|text| + 1..n];
      assert t[..n] == text + [s[0]] + s[1..n - |text|];
      GoesBad(text, s[0], s[1..n - |text|]);
    }
    assert t[..|text|] == text;
  }

  lemma GoesBad(s: string, c: char, more: string)
    requires Next(FormOf(s), c) == Bad
    ensures FormOf(s + [c] + more) == Bad && !IsNumber(s + [c] + more)
  {
    hide FormOf, Next;
    Appended(s, c);
    BadStays(s + [c], more);
  }

  /** Every integer that does not fit 64 bits is JSON, and the parser panics on it. */
  lemma LongIntegers(text: string)
    requires IsInteger(text) && !Fits64(IntegerValue(text))
    ensures ParseJson(text).Crashed? && ParseStrictly(text) == Derived(JInteger(IntegerValue(text)), "")
  {
    hide NextToken, IntegerValue, NumberText, FormOf;
    NumberScans(text, "");
    NumberStarts(text);
    NumbersAreRead(text, "");
    ReadsInteger(text);
    assert text + "" == text;
    MinusZeroIsZero();
    SkipNothing(text);
    assert Scan(text) == Read(Value(JInteger(IntegerValue(text))), "");
    OneLeaf(text, JInteger(IntegerValue(text)));
  }

  lemma {:induction false} WrittenNat(n: nat)
    ensures DecimalValue(NatText(n)) == n && FormOf(NatText(n)) == if n == 0 then Zero else Whole
  {
    hide FormOf, Next;
    if n < 10 {
      var c := Digit(n);
      assert NatText(n) == "" + [c];
      Appended("", c);
      DigitForm(c);
      assert NatText(n)[..0] == "";
    } else {
      WrittenNat(n / 10);
      Appended(NatText(n / 10), Digit(n % 10));
      DigitForm(Digit(n % 10));
      assert NatText(n)[..|NatText(n)| - 1] == NatText(n / 10);
    }
  }

  lemma DigitForm(c: char)
    requires IsDigit(c)
    ensures Next(Empty, c) == (if c == '0' then Zero else Whole) && Next(Whole, c) == Whole
  {
  }

  /** The least integer that does not fit. */
  lemma TwoTo63()
    ensures var s := NatText(0x8000_0000_0000_0000);
      ParseJson(s).Crashed? && ParseStrictly(s) == Derived(JInteger(0x8000_0000_0000_0000), "") && s == "9223372036854775808"
  {
    hide NatText, DecimalValue, FormOf, ParseJson, ParseStrictly;
    var n := 0x8000_0000_0000_0000;
    WrittenNat(n);
    DecimalDigits(n);
    Spelled();
    IsItself(NatText(n));
    LongIntegers(NatText(n));
  }

  lemma IsItself(s: string)
    requires s != "" && IsDigit(First(s))
    ensures IntegerValue(s) == DecimalValue(s)
  {
  }

  lemma FirstDigits()
    ensures NatText(9223372) == "9223372"
  {
    hide NatText;
    OneDigit(9);
    NextDigit(9, 2);
    assert NatText(92) == "92";
    NextDigit(92, 2);
    assert NatText(922) == "922";
    NextDigit(922, 3);
    assert NatText(9223) == "9223";
    NextDigit(9223, 3);
    assert NatText(92233) == "92233";
    NextDigit(92233, 7);
    assert NatText(922337) == "922337";
    NextDigit(922337, 2);
    assert NatText(9223372) == "9223372";
  }

  lemma MoreDigits()
    ensures NatText(9223372036854) == "9223372036854"
  {
    hide NatText;
    FirstDigits();
    NextDigit(9223372, 0);
    assert NatText(92233720) == "92233720";
    NextDigit(92233720, 3);
    assert NatText(922337203) == "922337203";
    NextDigit(922337203, 6);
    assert NatText(9223372036) == "9223372036";
    NextDigit(9223372036, 8);
    assert NatText(92233720368) == "92233720368";
    NextDigit(92233720368, 5);
    assert NatText(922337203685) == "922337203685";
    NextDigit(922337203685, 4);
    assert NatText(9223372036854) == "9223372036854";
  }

  lemma Spelled()
    ensures NatText(9223372036854775808) == "9223372036854775808"
  {
    hide NatText;
    MoreDigits();
    NextDigit(9223372036854, 7);
    assert NatText(92233720368547) == "92233720368547";
    NextDigit(92233720368547, 7);
    assert NatText(922337203685477) == "922337203685477";
    NextDigit(922337203685477, 5);
    assert NatText(9223372036854775) == "9223372036854775";
    NextDigit(9223372036854775, 8);
    assert NatText(92233720368547758) == "92233720368547758";
    NextDigit(92233720368547758, 0);
    assert NatText(922337203685477580) == "922337203685477580";
    NextDigit(922337203685477580, 8);
    assert NatText(9223372036854775808) == "9223372036854775808";
  }

  lemma OneDigit(d: nat)
    requires d < 10
    ensures NatText(d) == [Digit(d)]
  {
  }

  lemma NextDigit(n: nat, d: nat)
    requires n > 0 && d < 10
    ensures NatText(10 * n + d) == NatText(n) + [Digit(d)]
  {
  }

  // ---- Escapes ----

  /** A string cut off after a backslash is no JSON, and the parser panics on it. */
  lemma CutEscapes()
    ensures ParseJson("\"\\").Crashed? && ParseStrictly("\"\\").Underivable?
  {
    var s := "\"\\";
    assert s[1..] == "\\" && "\\"[1..] == "";
    assert ReadString("\\", "").Panics?;
    assert StringOf("\\", []).CutOff?;
    OneToken(s);
    NoLeaf(s);
  }

  /** An escaped pair of surrogates is one character, and is read as two replacement characters. */
  lemma EscapedPairs()
    ensures var s := "\"\\ud83d\\ude00\"";
      ParseJson(s) == Parsed(Str("\U{FFFD}\U{FFFD}"), "") && ParseStrictly(s) == Derived(JString(Utf16("\U{1F600}")), "")
  {
    hide Escape, ReadEscape, NextToken, Scan;
    var s, t, u := "\"\\ud83d\\ude00\"", "\\ud83d\\ude00\"", "\\ude00\"";
    assert s[1..] == t;
    PairEscapes();
    assert ReadString("\"", "\U{FFFD}\U{FFFD}") == Tok(Literal(Str("\U{FFFD}\U{FFFD}")), "");
    assert "" + ['\U{FFFD}'] == "\U{FFFD}" && "\U{FFFD}" + ['\U{FFFD}'] == "\U{FFFD}\U{FFFD}";
    assert ReadString(t, "") == ReadString(u, "\U{FFFD}") == ReadString("\"", "\U{FFFD}\U{FFFD}");
    assert StringOf("\"", [0xD83D, 0xDE00]) == Closed([0xD83D, 0xDE00], "");
    assert StringOf(t, []) == StringOf(u, [0xD83D]) == StringOf("\"", [0xD83D, 0xDE00]);
    PairUnits();
    OneToken(s);
    StringScans(s, [0xD83D, 0xDE00]);
    OneLeaf(s, JString([0xD83D, 0xDE00]));
  }

  lemma StringScans(s: string, units: seq<Unit>)
    requires s != "" && First(s) == '\"' && StringOf(s[1..], []) == Closed(units, "")
    ensures Scan(s) == Read(Value(JString(units)), "")
  {
    hide StringOf;
  }

  lemma PairUnits()
    ensures Utf16("\U{1F600}") == [0xD83D, 0xDE00]
  {
    assert "\U{1F600}"[..0] == "";
    assert Utf16("") == [];
  }

  lemma PairEscapes()
    ensures ReadEscape("ud83d\\ude00\"") == Char('\U{FFFD}', "\\ude00\"")
    ensures ReadEscape("ude00\"") == Char('\U{FFFD}', "\"")
    ensures Escape("ud83d\\ude00\"") == Escaped(0xD83D, "\\ude00\"") && Escape("ude00\"") == Escaped(0xDE00, "\"")
    ensures "\\ud83d\\ude00\""[1..] == "ud83d\\ude00\"" && "\\ude00\""[1..] == "ude00\""
  {
    hide HexUnit, ReadHex;
    FourDigits("d83d\\ude00\"", 0xD, 8, 3, 0xD);
    FourDigits("de00\"", 0xD, 0xE, 0, 0);
    assert "ud83d\\ude00\""[1..] == "d83d\\ude00\"" && "ude00\""[1..] == "de00\"";
    assert "d83d\\ude00\""[4..] == "\\ude00\"" && "de00\""[4..] == "\"";
    Replaced(0xD83D, "\\ude00\"");
    Replaced(0xDE00, "\"");
  }

  lemma Replaced(u: nat, s: string)
    requires IsSurrogate(u)
    ensures ReadHex(s, 0, u) == Char('\U{FFFD}', s)
  {
  }

  // ---- Zeros ----

  /** A zero followed by a capital i is no JSON, and the parser panics on it. */
  lemma ZeroThenI()
    ensures ParseJson("0I").Crashed? && ParseStrictly("0I").Underivable?
  {
    hide ReadDecimal, NumberText;
    NumberAlike("0I");
    ZeroRuns();
    OneToken("0I");
    assert Scan("I").NoToken?;
    assert Scan("0I") == Read(Value(JInteger(0)), "I");
  }

  lemma ZeroRuns()
    ensures NumberText("0I") == "0" && "0I"[1..] == "I" && FormOf("0") == Zero && IntegerValue("0") == 0
    ensures NumberText("-0") == "-0" && FormOf("-0") == Zero && "-0"[2..] == ""
  {
    assert "0I"[..1] == "0" && "0"[..0] == "";
    assert Run(Empty, "0I") == 1 + Run(Zero, "I");
    assert "-0"[1..] == "0" && "-0"[..1] == "-" && "-"[..0] == "" && "0"[1..] == "" && "-0"[..2] == "-0";
    assert Run(Empty, "-0") == 1 + Run(Minus, "0") && Run(Minus, "0") == 1 + Run(Zero, "");
    assert FormOf("-") == Minus;
  }

  /** Negative zero is read as zero. */
  lemma MinusZeroReadsAsZero()
    ensures ParseJson("-0") == Parsed(Int(0), "") && ParseStrictly("-0") == Derived(JMinusZero, "")
  {
    hide ReadDecimal, NumberText;
    NumberAlike("-0");
    ZeroRuns();
    MinusZeroIsZero();
    OneToken("-0");
    assert Scan("-0") == Read(Value(JMinusZero), "");
    OneLeaf("-0", JMinusZero);
  }

  // ---- Points ----

  /** Fractions without digits on one side of the point. */
  lemma PointsAreLoose()
    ensures ParseJson(".5") == Parsed(Float(".5"), "") && ParseStrictly(".5").Underivable?
    ensures ParseJson("1.") == Parsed(Float("1."), "") && ParseStrictly("1.").Underivable?
  {
    hide ReadDecimal, NumberText, IsNumber;
    LoosePoints();
    OneToken(".5");
    OneToken("1.");
    LooseNumber();
    NoLeaf(".5");
    NoLeaf("1.");
  }

  lemma LooseNumber()
    ensures NumberText("1.") == "1." && !IsNumber("1.")
  {
    assert "1."[1..] == "." && "1."[..1] == "1" && "1"[..0] == "" && "."[1..] == "" && "1."[..2] == "1.";
    assert Run(Empty, "1.") == 1 + Run(Whole, ".") && Run(Whole, ".") == 1 + Run(Point, "");
    assert FormOf("1") == Whole;
  }

  lemma LoosePoints()
    ensures ReadDecimal(".5") == Tok(Literal(Float(".5")), "") && ReadDecimal("1.") == Tok(Literal(Float("1.")), "")
  {
    PointFirst();
    PointLast();
  }

  lemma PointFirst()
    ensures ReadDecimal(".5") == Tok(Literal(Float(".5")), "")
  {
    var point := Matcher(".", HadDecimal, Normal, false, false);
    assert "" + "." == "." && "." + "5" == ".5";
    assert START.Allowed('.') == Some(point);
    assert ".5"[1..] == "5" && "5"[1..] == "";
    assert point.Allowed('5') == Some(Matcher(".5", HadDecimal, Normal, true, false));
    assert Munch(point, "5") == Munch(Matcher(".5", HadDecimal, Normal, true, false), "");
  }

  lemma PointLast()
    ensures ReadDecimal("1.") == Tok(Literal(Float("1.")), "")
  {
    var one := Matcher("1", HadSign, Normal, true, false);
    assert "" + "1" == "1" && "1" + "." == "1.";
    assert START.Allowed('1') == Some(one);
    assert "1."[1..] == "." && "."[1..] == "";
    assert Munch(one, ".") == Munch(Matcher("1.", HadDecimal, Normal, true, false), "");
  }

  // ---- Objects ----

  /** What both make of a text that begins with a mark. */
  lemma MarkIsRead(c: char, s: string)
    requires c == '[' || c == ']' || c == '{' || c == '}' || c == ',' || c == ':'
    ensures NextToken([c] + s) == Got(if c == '[' then OpenBracket else if c == ']' then CloseBracket else if c == '{' then OpenBrace
                                 else if c == '}' then CloseBrace else if c == ',' then Comma else Colon, s)
    ensures Scan([c] + s) == Read(Mark(c), s)
  {
    hide NextToken, Scan;
    LexesMark(c, s);
    TokenAlike([c] + s);
  }

  lemma KeyA(s: string)
    ensures NextToken("\"a\"" + s) == Got(Literal(Str("a")), s)
    ensures Scan("\"a\"" + s) == Read(Value(JString(Utf16("a"))), s)
  {
    hide ReadDecimal, NumberText, Utf16;
    var t := "\"a\"" + s;
    assert t[1..] == "a\"" + s && ("a\"" + s)[1..] == "\"" + s && ("\"" + s)[1..] == s;
    assert "" + ['a'] == "a";
    assert ReadString("a\"" + s, "") == ReadString("\"" + s, "a") == Tok(Literal(Str("a")), s);
    LetterA();
    assert [] + Uri.Utf16('a' as int) == Utf16("a");
    assert StringOf("a\"" + s, []) == StringOf("\"" + s, Utf16("a")) == Closed(Utf16("a"), s);
  }

  lemma LetterA()
    ensures Utf16("a") == [0x61] == Uri.Utf16('a' as int)
  {
    assert "a"[..0] == "";
    assert Utf16("") == [];
  }

  /** The integer one, before whatever may follow a value. */
  lemma OneReads(s: string)
    requires Ends(s)
    ensures NextToken("1" + s) == Got(Literal(Int(1)), s) && Scan("1" + s) == Read(Value(JInteger(1)), s)
    ensures Fits("1" + s)
  {
    hide NextToken, Scan, Exact, Fits;
    assert IntText(1) == "1";
    LexesInt(1, s);
    TokenAlike("1" + s);
  }

  // ---- Members ----

  lemma LastMember(s: string, before: seq<Member>, m: Member)
    requires ParseMember(s) == Entry(m, "}")
    ensures ParseMembers(s, before) == Parsed(Obj(before + [m]), "")
  {
    hide NextToken, ParseMember;
    MarkIsRead('}', "");
    assert "}" == ['}'] + "";
  }

  lemma MoreMembers(s: string, before: seq<Member>, m: Member, rest: string)
    requires ParseMember(s) == Entry(m, [','] + rest)
    ensures ParseMembers(s, before) == ParseMembers(rest, before + [m])
  {
    hide NextToken, ParseMember;
    MarkIsRead(',', rest);
  }

  lemma Braced(inner: string, ms: seq<Member>)
    requires ParseMembers(inner, []) == Parsed(Obj(ms), "")
    ensures ReadJson(['{'] + inner) == Parsed(Obj(ms), "")
  {
    hide NextToken, ParseMembers;
    MarkIsRead('{', inner);
    NotBraced(inner);
    OneToken("0");
    assert ParseObject(inner) == Parsed(Obj(ms), "");
    assert ParseValue(['{'] + inner) == Parsed(Obj(ms), "");
  }

  lemma NotBraced(inner: string)
    requires ParseMembers(inner, []).Parsed?
    ensures NextToken(inner).Got? && NextToken(inner).token != CloseBrace
  {
    hide NextToken;
  }

  lemma DefineOne(m: Member)
    ensures Define([m]) == [Member(m.key, Merged(m.value))]
  {
    hide Merged;
    assert [m][..0] == [];
    assert Define([]) == [];
  }

  /** An object without the colon. */
  lemma ColonIsOptional()
    ensures ParseJson("{\"a\"1}") == Parsed(Obj([Member("a", Int(1))]), "") && ParseStrictly("{\"a\"1}").Underivable?
  {
    hide NextToken, Scan, Utf16, ParseMembers, ParseValue, ReadJson, ParseStrictly, Define;
    var s, inner, m := "{\"a\"1}", "\"a\"1}", Member("a", Int(1));
    assert s == ['{'] + inner && inner == "\"a\"" + "1}" && "1}" == "1" + "}";
    KeyA("1}");
    OneReads("}");
    OneIsValue("1}", "}");
    assert [] + [m] == [m];
    LastMember(inner, [], m);
    Braced(inner, [m]);
    DefineOne(m);
    NoColon(inner);
  }

  lemma OneIsValue(s: string, rest: string)
    requires NextToken(s) == Got(Literal(Int(1)), rest)
    ensures ParseValue(s) == Parsed(Int(1), rest)
  {
    hide NextToken;
  }

  lemma NoColon(inner: string)
    requires inner == "\"a\"1}"
    ensures ParseStrictly(['{'] + inner).Underivable?
  {
    hide Scan, Utf16, DeriveMembers;
    assert inner == "\"a\"" + "1}" && "1}" == "1" + "}";
    MarkIsRead('{', inner);
    KeyA("1}");
    OneReads("}");
    MissingColon(inner, "1}");
  }

  lemma MissingColon(s: string, rest: string)
    requires Scan(s).Read? && Scan(s).rest == rest && !Marks(rest, ':')
    ensures DeriveMembers(s, []).Underivable?
  {
    hide Scan;
    assert DeriveMember(s).NoMember?;
  }

  // ---- Repeated keys ----

  lemma MemberA(value: string, t: Leaf, v: Json, rest: string)
    requires NextToken(value) == Got(Literal(t), rest) && Scan(value) == Read(Value(v), rest)
    ensures ParseMember("\"a\":" + value) == Entry(Member("a", t), rest)
    ensures DeriveMember("\"a\":" + value) == DerivedMember(JMember(Utf16("a"), v), rest)
  {
    hide NextToken, Scan, Utf16;
    var s := [':'] + value;
    assert "\"a\":" + value == "\"a\"" + s;
    KeyA(s);
    MarkIsRead(':', value);
    assert ParseValue(value) == Parsed(t, rest) && DeriveValue(value) == Derived(v, rest);
  }

  lemma MinusZeroReads(s: string)
    requires s != "" && Ends(s)
    ensures NextToken("-0" + s) == Got(Literal(Int(0)), s) && Scan("-0" + s) == Read(Value(JMinusZero), s)
  {
    hide NextToken, NumberText, FormOf, StringOf, IntegerValue, ParseI64;
    ZeroRuns();
    MinusZeroIsZero();
    ReadsInteger("-0");
    NumbersAreRead("-0", s);
    NumberScans("-0", s);
    var t := "-0" + s;
    assert t[0] == '-' && t[|"-0"|..] == s;
    SkipNothing(t);
  }

  lemma LastDerived(s: string, before: seq<JMember>, m: JMember)
    requires DeriveMember(s) == DerivedMember(m, "}")
    ensures DeriveMembers(s, before) == Derived(JObject(before + [m]), "")
  {
    hide Scan, DeriveMember;
    MarkIsRead('}', "");
    assert "}" == ['}'] + "";
  }

  lemma MoreDerived(s: string, before: seq<JMember>, m: JMember, rest: string)
    requires DeriveMember(s) == DerivedMember(m, [','] + rest)
    ensures DeriveMembers(s, before) == DeriveMembers(rest, before + [m])
  {
    hide Scan, DeriveMember;
    MarkIsRead(',', rest);
  }

  lemma BracedDerives(inner: string, ms: seq<JMember>)
    requires DeriveMembers(inner, []) == Derived(JObject(ms), "")
    ensures DeriveText(['{'] + inner) == Derived(JObject(ms), "")
  {
    hide Scan, DeriveMembers;
    MarkIsRead('{', inner);
    NotMarked(inner);
    OneToken("0");
    assert DeriveValue(['{'] + inner) == Derived(JObject(ms), "");
  }

  lemma NotMarked(inner: string)
    requires DeriveMembers(inner, []).Derived?
    ensures !Marks(inner, '}')
  {
    hide Scan;
  }

  /** A later member with the same key hides what the parser reads as something else. */
  lemma RepetitionHides()
    ensures var s := "{\"a\":-0,\"a\":1}";
      !CleanText(s, true) && ParseJson(s) == Parsed(Obj([Member("a", Int(1))]), "") && Same(ParseJson(s), ParseStrictly(s))
  {
    hide ReadJson, DeriveText, CleanText, Define, JDefine, Utf16;
    RepeatedMembers();
    OneStays();
    NotTheSame("{\"a\":-0,\"a\":1}");
  }

  lemma RepeatedMembers()
    ensures var s := "{\"a\":-0,\"a\":1}";
      && ReadJson(s) == Parsed(Obj([Member("a", Int(0)), Member("a", Int(1))]), "")
      && DeriveText(s) == Derived(JObject([JMember(Utf16("a"), JMinusZero), JMember(Utf16("a"), JInteger(1))]), "")
  {
    hide NextToken, Scan, Utf16, ParseMembers, DeriveMembers, ParseMember, DeriveMember, ReadJson, DeriveText;
    var s, first, second := "{\"a\":-0,\"a\":1}", "\"a\":-0,\"a\":1}", "\"a\":1}";
    var rest := [','] + second;
    var m, n, i, j := Member("a", Int(0)), Member("a", Int(1)), JMember(Utf16("a"), JMinusZero), JMember(Utf16("a"), JInteger(1));
    assert s == ['{'] + first && first == "\"a\":" + ("-0" + rest) && second == "\"a\":" + ("1" + "}");
    MinusZeroReads(rest);
    MemberA("-0" + rest, Int(0), JMinusZero, rest);
    OneReads("}");
    MemberA("1" + "}", Int(1), JInteger(1), "}");
    MoreMembers(first, [], m, second);
    LastMember(second, [] + [m], n);
    MoreDerived(first, [], i, second);
    LastDerived(second, [] + [i], j);
    assert [] + [m] + [n] == [m, n] && [] + [i] + [j] == [i, j];
    Braced(first, [m, n]);
    BracedDerives(first, [i, j]);
  }

  lemma OneStays()
    ensures Define([Member("a", Int(0)), Member("a", Int(1))]) == [Member("a", Int(1))]
    ensures JDefine([JMember(Utf16("a"), JMinusZero), JMember(Utf16("a"), JInteger(1))]) == [JMember(Utf16("a"), JInteger(1))]
    ensures Std(Obj([Member("a", Int(1))])) == JObject([JMember(Utf16("a"), JInteger(1))])
  {
    hide Utf16;
    var a, b := JMember(Utf16("a"), JMinusZero), JMember(Utf16("a"), JInteger(1));
    var m, n := Member("a", Int(0)), Member("a", Int(1));
    assert [m, n][..1] == [m] && [m][..0] == [] && [a, b][..1] == [a] && [a][..0] == [];
    assert Define([]) == [] && JDefine([]) == [];
    assert Define([m]) == [m] && JDefine([a]) == [a];
    assert Put([m], n) == [n] && JPut([a], b) == [b];
    assert StdMembers([n]) == [b];
  }

  lemma NotTheSame(s: string)
    requires ReadJson(s) == Parsed(Obj([Member("a", Int(0)), Member("a", Int(1))]), "")
    requires DeriveText(s) == Derived(JObject([JMember(Utf16("a"), JMinusZero), JMember(Utf16("a"), JInteger(1))]), "")
    ensures !CleanText(s, true)
  {
    hide ReadJson, DeriveText, CleanText, Utf16;
    ReadsExactly(s);
    var ms := [Member("a", Int(0)), Member("a", Int(1))];
    assert StdMembers(ms)[0] == JMember(Utf16("a"), JInteger(0));
  }
}
