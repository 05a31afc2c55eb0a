/** The tokens the lexer reads, against those of the grammar: which of them it panics on, and which it reads as something
    else. */
module JsonTokens {
  import opened Wrappers
  import opened JsonText
  import opened JsonLexer
  import opened JsonNumber
  import opened JsonGrammar
  import Uri

  // ---- Numbers ----

  predicate StartsNumber(c: char) {
    IsDigit(c) || c == '-'
  }

  /** What the lexer goes on with although no number does. */
  predicate Stray(f: Form, c: char) {
    (f.Zero? && (IsDigit(c) || c == 'x' || c == 'X' || c == 'I')) || (f.Whole? && c == 'I')
  }

  /** A run stops where the text is no number any more. */
  lemma {:induction false} RunStops(p: string, s: string)
    requires FormOf(p) != Bad
    ensures var n := Run(FormOf(p), s);
      FormOf(p + s[..n]) != Bad && (n < |s| ==> Next(FormOf(p + s[..n]), s[n]) == Bad)
    decreases |s|
  {
    hide FormOf, Next;
    var f := FormOf(p);
    if s != "" && Next(f, s[0]) != Bad {
      Appended(p, s[0]);
      RunStops(p + [s[0]], s[1..]);
      var n := Run(f, s);
      assert p + [s[0]] + s[1..][..n - 1] == p + s[..n];
    } else {
      assert p + s[..0] == p;
    }
  }

  /** The lexer takes the run. */
  lemma {:induction false} MunchesRun(m: Matcher, s: string) returns (m': Matcher)
    requires Follows(m) && !m.state.Before? && FormOf(m.value) != Bad
    ensures var n := Run(FormOf(m.value), s);
      Follows(m') && !m'.state.Before? && m'.value == m.value + s[..n] && Munch(m, s) == Munch(m', s[n..])
    decreases |s|
  {
    hide Follows, FormOf, Next, Matcher.Allowed;
    var f := FormOf(m.value);
    if s != "" && Next(f, s[0]) != Bad {
      FollowsNext(m, s[0]);
      Appended(m.value, s[0]);
      m' := MunchesRun(m.Allowed(s[0]).value, s[1..]);
      var n := Run(f, s);
      assert m.value + [s[0]] + s[1..][..n - 1] == m.value + s[..n];
      assert s[1..][n - 1..] == s[n..];
    } else {
      m' := m;
      assert m.value + s[..0] == m.value;
    }
  }

  /** Beyond a number the lexer takes exactly what is stray, and is lost then. */
  ghost predicate Lost(m: Matcher) {
    (m.state.HadSign? && (m.kind.Hex? || m.kind.Octal?)) || m.state.Infinity?
  }

  lemma StrayIsTaken(m: Matcher, c: char)
    requires Follows(m) && !m.state.Before? && IsNumber(m.value) && Next(FormOf(m.value), c) == Bad
    ensures m.Allowed(c).Some? <==> Stray(FormOf(m.value), c)
    ensures m.Allowed(c).Some? ==> Lost(m.Then(c)) && (Broke(m.Then(c)) <==> FormOf(m.value).Zero? && c == 'I')
  {
    hide FormOf, Stands, NoInteger;
  }

  /** The lexer will take the text for an integer that is none. */
  ghost predicate Broke(m: Matcher) {
    m.state.Infinity? && m.kind.SingleZero?
  }

  lemma {:induction false} StaysLost(m: Matcher, s: string)
    requires Lost(m)
    ensures Lost(Munch(m, s).0) && (Broke(Munch(m, s).0) <==> Broke(m))
    decreases |s|
  {
    if s != "" && m.Allowed(s[0]).Some? {
      StaysLost(m.Allowed(s[0]).value, s[1..]);
    }
  }

  /** In the middle of something that is no integer. */
  ghost predicate Off(m: Matcher) {
    !m.kind.SingleZero? && !m.state.HadSign? && !m.state.Before?
  }

  lemma {:induction false} StaysOff(m: Matcher, s: string)
    requires Off(m)
    ensures Off(Munch(m, s).0)
    decreases |s|
  {
    if s != "" && m.Allowed(s[0]).Some? {
      StaysOff(m.Allowed(s[0]).value, s[1..]);
    }
  }

  lemma UnfinishedIsOff(m: Matcher, c: char)
    requires Follows(m) && !m.state.Before? && !IsNumber(m.value) && FormOf(m.value) != Bad
    requires Next(FormOf(m.value), c) == Bad
    ensures m.Allowed(c).Some? ==> Off(m.Then(c))
  {
    hide FormOf, Stands, NoInteger;
  }

  lemma UnfinishedIsNone(m: Matcher)
    requires Follows(m) && !m.state.Before? && !IsNumber(m.value) && FormOf(m.value) != Bad
    ensures !m.Complete().Integer?
  {
    hide FormOf, Stands, NoInteger;
  }

  lemma LostIsNone(m: Matcher)
    requires Follows(m) && Lost(m)
    ensures if Broke(m) then m.Complete() == Integer(m.value) && ParseI64(m.value).None?
            else !m.Complete().Integer? && !m.Complete().Fraction?
  {
    hide FormOf, Stands, NoInteger, ParseI64;
    if Broke(m) {
      NoI64(m.value);
    }
  }

  // ---- Integers ----

  predicate Fits64(i: int) {
    -0x8000_0000_0000_0000 <= i < 0x8000_0000_0000_0000
  }

  predicate Digits(s: string) {
    forall k: nat :: k < |s| ==> IsDigit(s[k])
  }

  lemma {:induction false} IntegerDigits(s: string)
    requires IsInteger(s) || FormOf(s).Minus?
    ensures s != "" && (FormOf(s).Minus? <==> s == "-")
    ensures if First(s) == '-' then Digits(Rest(s)) && (IsInteger(s) ==> |s| > 1) else Digits(s)
  {
    if s != "" {
      var p, c := s[..|s| - 1], s[|s| - 1];
      if p != "" {
        hide First, Rest, Digits;
        IntegerDigits(p);
        assert s == p + [c];
        OneMore(p, c);
        assert IsDigit(c);
        MoreDigits(p, c);
        MoreDigits(Rest(p), c);
      }
    }
  }

  lemma MoreDigits(s: string, c: char)
    requires IsDigit(c)
    ensures Digits(s) ==> Digits(s + [c])
  {
  }

  lemma OneMore(p: string, c: char)
    requires p != ""
    ensures First(p + [c]) == First(p) && Rest(p + [c]) == Rest(p) + [c]
  {
  }

  lemma {:induction false} ReadsDigits(s: string)
    requires Digits(s)
    ensures ParseNat(s) == Some(DecimalValue(s)) && DecimalValue(s) >= 0
  {
    if s != "" {
      ReadsDigits(s[..|s| - 1]);
    }
  }

  lemma ReadsInteger(s: string)
    requires IsInteger(s)
    ensures ParseI64(s) == if Fits64(IntegerValue(s)) then Some(IntegerValue(s)) else None
  {
    hide ParseNat, DecimalValue, FormOf;
    IntegerDigits(s);
    ReadsDigits(if s[0] == '-' then s[1..] else s);
    assert s[0] != '-' ==> IsDigit(s[0]);
  }

  // ---- Where a number begins ----

  ghost predicate LooseFraction(l: Lexeme) {
    l.Tok? && l.token.Literal? && l.token.t.Float? && !PointsStand(l.token.t.text)
  }

  /** What the lexer makes of a text that begins like a number. */
  ghost predicate NumberRead(s: string, l: Lexeme) {
    var d := NumberText(s);
    var r := s[|d|..];
    if !IsNumber(d) then l.Fatal? || LooseFraction(l)
    else if r != "" && Stray(FormOf(d), r[0]) then l == if FormOf(d).Zero? && r[0] == 'I' then Panics else Fatal
    else if !IsInteger(d) then l == Tok(Literal(Float(d)), r)
    else l == if Fits64(IntegerValue(d)) then Tok(Literal(Int(IntegerValue(d))), r) else Panics
  }

  /** The lexeme of what was matched. */
  ghost function LexedAs(m: Matcher, rest: string): Lexeme {
    match m.Complete()
    case Integer(text) => if ParseI64(text).Some? then Tok(Literal(Int(ParseI64(text).value)), rest) else Panics
    case Fraction(text) => Tok(Literal(Float(text)), rest)
    case _ => Fatal
  }

  lemma FirstMatcher(s: string) returns (m: Matcher)
    requires s != "" && StartsNumber(First(s))
    ensures Follows(m) && !m.state.Before? && m.value == [First(s)] && FormOf(m.value) != Bad
    ensures var (m', rest) := Munch(m, Rest(s)); ReadDecimal(s) == LexedAs(m', rest)
    ensures NumberText(s) == m.value + RunText(FormOf(m.value), Rest(s))
  {
    hide Follows, Munch, ParseI64, Matcher.Complete, Matcher.Allowed, Next, FormOf;
    StartTakes(s[0]);
    StartFollows();
    FollowsNext(START, s[0]);
    Appended("", s[0]);
    m := START.Allowed(s[0]).value;
    assert "" + [s[0]] == [s[0]];
    var n := Run(FormOf(m.value), s[1..]);
    assert s[..n + 1] == [s[0]] + s[1..][..n];
  }

  lemma StartTakes(c: char)
    requires StartsNumber(c)
    ensures START.Allowed(c).Some? && Next(Empty, c) != Bad
  {
  }

  ghost predicate AtNumber(s: string, m: Matcher) {
    Follows(m) && !m.state.Before? && m.value == NumberText(s) && FormOf(m.value) != Bad
  }

  /** What follows what was matched. */
  ghost function Unread(s: string, m: Matcher): string {
    if |m.value| <= |s| then s[|m.value|..] else ""
  }

  lemma NumberEnds(s: string, m: Matcher)
    requires AtNumber(s, m)
    requires var r := Unread(s, m);
      ReadDecimal(s) == LexedAs(m, r) && (r != "" ==> m.Allowed(First(r)).None? && Next(FormOf(m.value), First(r)) == Bad)
    ensures NumberRead(s, ReadDecimal(s))
  {
    hide Follows, ParseI64, FormOf, PointsStand, Matcher.Allowed, Matcher.Complete, IntegerValue, Next, Run,
      ReadDecimal, Stray;
    var r := s[|m.value|..];
    CompletesAsNumber(m);
    if IsNumber(m.value) {
      NumberCompletes(m);
      if r != "" {
        StrayIsTaken(m, r[0]);
      }
      if IsInteger(m.value) {
        ReadsInteger(m.value);
      }
    } else {
      UnfinishedIsNone(m);
    }
  }

  lemma NumberGoesOn(s: string, m: Matcher)
    requires AtNumber(s, m)
    requires var r := Unread(s, m);
      r != "" && m.Allowed(First(r)).Some? && Next(FormOf(m.value), First(r)) == Bad
      && var (m', rest) := Munch(m, r); ReadDecimal(s) == LexedAs(m', rest)
    ensures NumberRead(s, ReadDecimal(s))
  {
    hide Follows, ParseI64, FormOf, PointsStand, Matcher.Allowed, Matcher.Complete, IntegerValue, Next, Run,
      ReadDecimal, Stray, Lost, Off, Broke;
    hide NumberRead, LexedAs;
    var r := s[|m.value|..];
    var c := r[0];
    FollowsNext(m, c);
    Appended(m.value, c);
    var lost := m.Allowed(c).value;
    Munched(lost, r[1..]);
    var (m', rest) := Munch(lost, r[1..]);
    BadStays(lost.value, r[1..][..|r| - 1 - |rest|]);
    NoNumber(m'.value);
    if IsNumber(m.value) {
      StrayIsTaken(m, c);
      StaysLost(lost, r[1..]);
      LostEnds(s, m, m', rest);
    } else {
      UnfinishedIsOff(m, c);
      StaysOff(lost, r[1..]);
      OffEnds(s, m, m', rest);
    }
  }

  lemma LostEnds(s: string, m: Matcher, m': Matcher, rest: string)
    requires AtNumber(s, m) && IsNumber(m.value) && Follows(m') && Lost(m') && ReadDecimal(s) == LexedAs(m', rest)
    requires var r := Unread(s, m);
      r != "" && Stray(FormOf(m.value), First(r)) && (Broke(m') <==> FormOf(m.value).Zero? && First(r) == 'I')
    ensures NumberRead(s, ReadDecimal(s))
  {
    hide Follows, ParseI64, FormOf, Matcher.Complete, Run, ReadDecimal, Stray, Lost, Broke, IsNumber, IntegerValue;
    LostIsNone(m');
  }

  lemma OffEnds(s: string, m: Matcher, m': Matcher, rest: string)
    requires AtNumber(s, m) && !IsNumber(m.value) && Follows(m') && Off(m') && ReadDecimal(s) == LexedAs(m', rest)
    requires !IsNumber(m'.value)
    ensures NumberRead(s, ReadDecimal(s))
  {
    hide Follows, ParseI64, FormOf, Matcher.Complete, Run, ReadDecimal, IsNumber, PointsStand, IntegerValue;
    CompletesAsNumber(m');
    OffIsNone(m');
  }

  lemma OffIsNone(m: Matcher)
    requires Off(m)
    ensures !m.Complete().Integer?
  {
  }

  lemma NumberAlike(s: string)
    requires s != "" && StartsNumber(First(s))
    ensures NumberText(s) != "" && NumberRead(s, ReadDecimal(s))
  {
    hide Follows, ParseI64, FormOf, IsNumber, IsInteger, PointsStand, Matcher.Allowed, Matcher.Complete, IntegerValue,
      Next, Run;
    var first := FirstMatcher(s);
    var d := NumberText(s);
    var r := s[|d|..];
    var n := Run(FormOf(first.value), s[1..]);
    var m := MunchesRun(first, s[1..]);
    assert m.value == d && s[1..][n..] == r;
    Appended("", s[0]);
    RunStops("", s);
    assert "" + s[..|d|] == d;
    if r == "" || m.Allowed(r[0]).None? {
      NumberEnds(s, m);
    } else {
      NumberGoesOn(s, m);
    }
  }

  lemma PointAlike(s: string)
    requires s != "" && First(s) == '.'
    ensures ReadDecimal(s).Fatal? || LooseFraction(ReadDecimal(s))
  {
    hide Follows, FormOf, PointsStand, IsInteger, ParseI64, Off;
    StartFollows();
    FollowsNext(START, '.');
    Appended("", '.');
    var m := START.Then('.');
    PointIsOff();
    StaysOff(m, s[1..]);
    Munched(m, s[1..]);
    var (m', rest) := Munch(m, s[1..]);
    OffIsNone(m');
    assert "" + ['.'] == ['.'];
    BadStays(['.'], s[1..][..|s| - 1 - |rest|]);
    CompletesAsNumber(m');
    NoNumber(m'.value);
  }

  lemma PointIsOff()
    ensures Off(START.Then('.'))
  {
  }

  lemma NoNumber(s: string)
    requires FormOf(s) == Bad
    ensures !IsNumber(s)
  {
  }

  // ---- Strings ----

  predicate IsSurrogate(u: nat) {
    0xD800 <= u <= 0xDFFF
  }

  /** No escape of the string denotes half of a surrogate pair. */
  predicate NoSurrogates(s: string)
    decreases |s|
  {
    if s == "" || s[0] == '\"' then true
    else if s[0] == '\\' then
      var e := Escape(s[1..]);
      e.Escaped? ==> !IsSurrogate(e.u) && NoSurrogates(e.rest)
    else NoSurrogates(s[1..])
  }

  /** Reading an escape: the same unit, except for a surrogate. */
  ghost predicate EscapeRead(p: Piece, e: Escaped) {
    match e
    case Escaped(u, rest) =>
      p.Char? && p.rest == rest && |Uri.Utf16(p.c as int)| == 1 && (Uri.Utf16(p.c as int) == [u] <==> !IsSurrogate(u))
    case BadEscape => p.BadPiece?
    case CutEscape => p.NoMore?
  }

  /** The lexer's digits are exactly those of the grammar, in both cases. */
  lemma HexValueExactly(c: char, d: nat)
    ensures HexValue(c) == Some(d) <==> d < 16 && (c == LOWER[d] || c == UPPER[d])
  {
    DigitsSpelled();
  }

  lemma DigitExactly(c: char)
    ensures IsDigit(c) <==> c in "0123456789"
  {
    var digits := "0123456789";
    assert forall k: nat :: k < 10 ==> digits[k] == '0' + k as char;
    if IsDigit(c) {
      assert digits[c as int - '0' as int] == c;
    }
  }

  lemma DigitsSpelled()
    ensures forall k: nat :: k < 10 ==> LOWER[k] == UPPER[k] == '0' + k as char
    ensures forall k: nat :: 10 <= k < 16 ==> LOWER[k] == 'a' + (k - 10) as char && UPPER[k] == 'A' + (k - 10) as char
  {
  }

  lemma SameDigit(c: char)
    ensures HexValue(c) == HexDigitOf(c)
  {
    hide HexValue;
    var h, g := HexValue(c), HexDigitOf(c);
    if h.Some? {
      HexValueExactly(c, h.value);
    }
    if g.Some? {
      HexValueExactly(c, g.value);
    }
  }

  /** Reading stops at the first character that is no digit, or at the end. */
  lemma {:induction false} HexStops(s: string, n: nat, before: nat, k: nat)
    requires before < 0x1_0000 && k < n && k <= |s| && (forall i: nat :: i < k ==> HexValue(s[i]).Some?)
    requires k < |s| ==> HexValue(s[k]).None?
    ensures ReadHex(s, n, before) == if k == |s| then NoMore else BadPiece
    decreases k
  {
    hide HexValue;
    if k > 0 {
      HexStops(s[1..], n - 1, (before * 16 + HexValue(s[0]).value) % 0x1_0000, k - 1);
    }
  }

  lemma FourDigits(s: string, a: nat, b: nat, c: nat, d: nat)
    requires |s| >= 4 && a < 16 && b < 16 && c < 16 && d < 16
    requires HexValue(s[0]) == Some(a) && HexValue(s[1]) == Some(b) && HexValue(s[2]) == Some(c)
    requires HexValue(s[3]) == Some(d)
    ensures var u := 0x1000 * a + 0x100 * b + 0x10 * c + d;
      HexUnit(s) == Escaped(u, s[4..]) && ReadHex(s, 4, 0) == ReadHex(s[4..], 0, u)
  {
    hide HexValue, ReadHex, HexDigitOf, HexUnit;
    SameDigit(s[0]);
    SameDigit(s[1]);
    SameDigit(s[2]);
    SameDigit(s[3]);
    UnitSpelled(s, a, b, c, d);
    DigitsRead(s, a, b, c, d, 0x1000 * a + 0x100 * b + 0x10 * c + d);
  }

  lemma UnitSpelled(s: string, a: nat, b: nat, c: nat, d: nat)
    requires |s| >= 4 && a < 16 && b < 16 && c < 16 && d < 16
    requires HexDigitOf(s[0]) == Some(a) && HexDigitOf(s[1]) == Some(b) && HexDigitOf(s[2]) == Some(c)
    requires HexDigitOf(s[3]) == Some(d)
    ensures HexUnit(s) == Escaped(0x1000 * a + 0x100 * b + 0x10 * c + d, s[4..])
  {
    hide HexDigitOf;
  }

  lemma DigitsRead(s: string, a: nat, b: nat, c: nat, d: nat, u: nat)
    requires |s| >= 4 && a < 16 && b < 16 && c < 16 && d < 16 && u == ((a * 16 + b) * 16 + c) * 16 + d
    requires HexValue(s[0]) == Some(a) && HexValue(s[1]) == Some(b) && HexValue(s[2]) == Some(c)
    requires HexValue(s[3]) == Some(d)
    ensures ReadHex(s, 4, 0) == ReadHex(s[4..], 0, u)
  {
    hide HexValue, ReadHex;
    TwoDigits(s, 0, 4, 0, a, b);
    TwoDigits(s, 2, 2, a * 16 + b, c, d);
    assert s[0..] == s;
  }

  lemma TwoDigits(s: string, i: nat, n: nat, before: nat, a: nat, b: nat)
    requires n > 1 && i + 1 < |s| && HexValue(s[i]) == Some(a) && HexValue(s[i + 1]) == Some(b) && before < 0x100
    ensures ReadHex(s[i..], n, before) == ReadHex(s[i + 2..], n - 2, (before * 16 + a) * 16 + b)
  {
    hide ReadHex;
    HexStep(s, i, n, before, a);
    HexStep(s, i + 1, n - 1, before * 16 + a, b);
  }

  lemma HexStep(s: string, i: nat, n: nat, before: nat, d: nat)
    requires n > 0 && i < |s| && HexValue(s[i]) == Some(d) && before < 0x1000
    ensures ReadHex(s[i..], n, before) == ReadHex(s[i + 1..], n - 1, before * 16 + d)
  {
    hide HexValue;
    assert s[i..][0] == s[i] && s[i..][1..] == s[i + 1..];
  }

  lemma SurrogateIsReplaced(u: nat, rest: string)
    requires u < 0x1_0000
    ensures EscapeRead(ReadHex(rest, 0, u), Escaped(u, rest))
  {
  }

  lemma HexAlike(s: string)
    ensures EscapeRead(ReadHex(s, 4, 0), HexUnit(s))
  {
    hide HexValue, ReadHex, HexDigitOf;
    forall k: nat | k < |s|
      ensures HexValue(s[k]) == HexDigitOf(s[k])
    {
      SameDigit(s[k]);
    }
    if |s| < 4 {
      var j := FirstStop(s, |s|);
      HexStops(s, 4, 0, j);
    } else if k: nat :| k < 4 && HexValue(s[k]).None? {
      var j := FirstStop(s, k);
      HexStops(s, 4, 0, j);
    } else {
      var a, b, c, d := HexValue(s[0]).value, HexValue(s[1]).value, HexValue(s[2]).value, HexValue(s[3]).value;
      FourDigits(s, a, b, c, d);
      SurrogateIsReplaced(0x1000 * a + 0x100 * b + 0x10 * c + d, s[4..]);
    }
  }

  lemma FirstStop(s: string, at: nat) returns (k: nat)
    requires at <= |s| && (at < |s| ==> HexValue(s[at]).None?)
    ensures k <= at && (forall i: nat :: i < k ==> HexValue(s[i]).Some?) && (k < |s| ==> HexValue(s[k]).None?)
    decreases at
  {
    if i: nat :| i < at && HexValue(s[i]).None? {
      k := FirstStop(s, i);
    } else {
      k := at;
    }
  }

  lemma EscapeAlike(s: string)
    ensures EscapeRead(ReadEscape(s), Escape(s))
  {
    hide ReadHex, HexUnit;
    if s != "" && s[0] == 'u' {
      HexAlike(s[1..]);
    }
  }

  /** Reading a string: the same units, except for surrogates. */
  ghost predicate StringRead(l: Lexeme, q: Quoted, before: string, units: seq<Unit>, exact: bool) {
    match q
    case Closed(us, rest) =>
      && l.Tok? && l.token.Literal? && l.token.t.Str? && l.rest == rest
      && |us| == |Utf16(l.token.t.s)| && (us == Utf16(l.token.t.s) <==> units == Utf16(before) && exact)
    case Broken => l.Fatal?
    case CutOff => l.Panics?
  }

  lemma {:induction false} StringAlike(s: string, before: string, units: seq<Unit>)
    requires |units| == |Utf16(before)|
    ensures StringRead(ReadString(s, before), StringOf(s, units), before, units, NoSurrogates(s))
    decreases |s|
  {
    hide ReadEscape, Escape;
    if s != "" && s[0] >= ' ' && s[0] != '\"' {
      if s[0] == '\\' {
        EscapeAlike(s[1..]);
        var e := Escape(s[1..]);
        if e.Escaped? {
          var c := ReadEscape(s[1..]).c;
          UnitsNext(before, c, units, [e.u]);
          StringAlike(e.rest, before + [c], units + [e.u]);
        }
      } else {
        var us := Uri.Utf16(s[0] as int);
        UnitsNext(before, s[0], units, us);
        StringAlike(s[1..], before + [s[0]], units + us);
      }
    }
  }

  lemma UnitsNext(before: string, c: char, units: seq<Unit>, us: seq<Unit>)
    requires |units| == |Utf16(before)| && |us| == |Uri.Utf16(c as int)|
    ensures |Utf16(before + [c])| == |units + us|
    ensures units + us == Utf16(before + [c]) <==> units == Utf16(before) && us == Uri.Utf16(c as int)
  {
    var n := |units|;
    assert (before + [c])[..|before + [c]| - 1] == before;
    assert Utf16(before + [c]) == Utf16(before) + Uri.Utf16(c as int);
    assert (units + us)[..n] == units && (units + us)[n..] == us;
    assert Utf16(before + [c])[..n] == Utf16(before) && Utf16(before + [c])[n..] == Uri.Utf16(c as int);
  }

  // ---- Meaning of what was read ----

  /** A tree as the standard has it. */
  function Std(t: Tree): Json {
    match t
    case Null => JNull
    case Bool(b) => JBool(b)
    case Int(i) => JInteger(i)
    case Float(text) => JFraction(text)
    case Str(s) => JString(Utf16(s))
    case Arr(es) => JArray(StdAll(es))
    case Obj(ms) => JObject(StdMembers(ms))
  }

  function StdAll(es: seq<Tree>): (r: seq<Json>)
    ensures |r| == |es| && forall k: nat {:trigger r[k]} :: k < |es| ==> r[k] == Std(es[k])
  {
    seq(|es|, k requires 0 <= k < |es| => Std(es[k]))
  }

  function StdMembers(ms: seq<Member>): (r: seq<JMember>)
    ensures |r| == |ms| && forall k: nat {:trigger r[k]} :: k < |ms| ==> r[k] == JMember(Utf16(ms[k].key), Std(ms[k].value))
  {
    seq(|ms|, k requires 0 <= k < |ms| => JMember(Utf16(ms[k].key), Std(ms[k].value)))
  }

  // ---- Words ----

  /** What comes next ends nothing. */
  predicate Junk(s: string) {
    !Scan(s).AtTheEnd? && !(Scan(s).Read? && Scan(s).token.Mark?)
  }

  lemma {:induction false} LettersAre(s: string, k: nat)
    requires k <= |s| && forall i: nat :: i < k ==> IsLetter(s[i])
    ensures Letters(s) >= k && (k < Letters(s) ==> IsLetter(s[k]))
    decreases |s|
  {
    if k > 0 {
      LettersAre(s[1..], k - 1);
    }
  }

  ghost predicate IsWord(w: string) {
    w == "null" || w == "true" || w == "false"
  }

  /** A word that goes on is no word, and what follows the word in it ends nothing. */
  lemma LongWord(s: string, w: string)
    requires IsWord(w) && Begins(s, w)
    ensures s[..Letters(s)] == w || (ReadWord(s).Fatal? && Junk(s[|w|..]))
  {
    assert forall i: nat :: i < |w| ==> s[i] == s[..|w|][i] == w[i];
    LettersAre(s, |w|);
    if |w| < Letters(s) {
      LetterIsJunk(s[|w|..]);
    }
  }

  lemma LetterIsJunk(s: string)
    requires s != "" && IsLetter(First(s))
    ensures Junk(s)
  {
    hide NumberText, StringOf;
  }

  // ---- Tokens ----

  function MarkOf(t: Token): char {
    match t
    case OpenBracket => '['
    case CloseBracket => ']'
    case OpenBrace => '{'
    case CloseBrace => '}'
    case Comma => ','
    case Colon => ':'
    case Literal(_) => ' '
  }

  /** An integer that does not fit 64 bits, or a zero followed by a capital i. */
  predicate Unfit(s: string) {
    var d := NumberText(s);
    var r := s[|d|..];
    IsInteger(d) && if r != "" && Stray(FormOf(d), r[0]) then FormOf(d).Zero? && r[0] == 'I' else !Fits64(IntegerValue(d))
  }

  /** The token that comes next is no such number, and no string cut off in the middle of an escape. */
  predicate Fits(s: string) {
    var t := Skip(s);
    t != "" ==> (StartsNumber(t[0]) ==> !Unfit(t)) && (t[0] == '\"' ==> !StringOf(t[1..], []).CutOff?)
  }

  /** The token that comes next is no string with an escaped surrogate, and no negative zero. */
  predicate Exact(s: string) {
    var t := Skip(s);
    t != "" ==> (StartsNumber(t[0]) ==> NumberText(t) != "-0") && (t[0] == '\"' ==> NoSurrogates(t[1..]))
  }

  /** What the lexer makes of the next token, and what the grammar does. */
  ghost predicate Alike(s: string, n: Peeked, g: Scanned) {
    match n
    case AtEnd => g.AtTheEnd?
    case Got(token, rest) =>
      if !token.Literal? then g == Read(Mark(MarkOf(token)), rest)
      else if token.t.Float? && !PointsStand(token.t.text) then g.NoToken?
      else g.Read? && g.rest == rest && g.token.Value? && LeafLike(token.t, g.token.v) && (g.token.v == Std(token.t) <==> Exact(s))
    case Unreadable => g.NoToken? || (g.Read? && g.token.Value? && !g.token.v.JString? && Junk(g.rest))
    case Panicked => !g.AtTheEnd? && !(g.Read? && g.token.Mark?)
  }

  predicate LeafLike(t: Tree, v: Json) {
    match t
    case Null => v.JNull?
    case Bool(b) => v == JBool(b)
    case Int(i) => v == JInteger(i) || (i == 0 && v.JMinusZero?)
    case Float(text) => v == JFraction(text)
    case Str(s) => v.JString? && |v.units| == |Utf16(s)|
    case _ => false
  }

  lemma {:induction false} NextSkips(s: string)
    ensures NextToken(s) == NextToken(Skip(s))
    decreases |s|
  {
    hide ReadDecimal, ReadString, ReadWord;
    if s != "" && IsBlank(s[0]) {
      if IsWhitespace(s[0]) {
        SkipsBlanks(s[1..]);
        NextSkips(SkipBlanks(s[1..]));
      } else {
        NextSkips(s[1..]);
      }
    }
  }

  lemma {:induction false} SkipsBlanks(s: string)
    ensures Skip(SkipBlanks(s)) == Skip(s)
    decreases |s|
  {
    if s != "" && IsWhitespace(s[0]) {
      SkipsBlanks(s[1..]);
    }
  }

  /** What both make of the first token of a text that begins with one. */
  ghost predicate Agreed(t: string) {
    Alike(t, NextToken(t), Scan(t)) && (Fits(t) <==> !NextToken(t).Panicked?)
  }

  lemma MarkAgrees(t: string)
    requires t != "" && First(t) in "[]{},:"
    ensures Agreed(t)
  {
    hide StringOf, NumberText, ReadDecimal, ReadString, ReadWord, LeafLike, Std;
  }

  lemma StringAgrees(t: string)
    requires t != "" && First(t) == '\"'
    ensures Agreed(t)
  {
    hide StringOf, NumberText, ReadDecimal, ReadString, ReadWord, Utf16, NoSurrogates, Skip;
    SkipNothing(t);
    NothingUnits();
    StringAlike(t[1..], "", []);
  }

  lemma NothingUnits()
    ensures Utf16("") == []
  {
  }

  lemma SkipNothing(t: string)
    requires t == "" || !IsBlank(First(t))
    ensures Skip(t) == t
  {
  }

  lemma NumberAgrees(t: string)
    requires t != "" && StartsNumber(First(t))
    ensures Agreed(t)
  {
    hide StringOf, NumberText, ReadDecimal, ReadString, ReadWord, Skip, Stands, IntegerValue, FormOf, Stray, Junk;
    SkipNothing(t);
    NumberAlike(t);
    var d := NumberText(t);
    var r := t[|d|..];
    if IsNumber(d) && r != "" && Stray(FormOf(d), r[0]) {
      StrayIsJunk(FormOf(d), r);
    }
    if IsNumber(d) && !IsInteger(d) {
      FractionStands(d);
    }
    MinusZeroIsZero();
  }

  lemma {:induction false} FractionStands(s: string)
    requires FormOf(s) != Bad
    ensures Stands(s) && (s != "" && s[|s| - 1] == '.' ==> FormOf(s).Point?)
    ensures IsNumber(s) ==> s != "" && IsDigit(s[|s| - 1])
  {
    hide Stands, FormOf, NoInteger;
    Appended("", '0');
    if s != "" {
      var p, c := s[..|s| - 1], s[|s| - 1];
      assert p + [c] == s;
      Appended(p, c);
      FractionStands(p);
    }
  }

  lemma StrayIsJunk(f: Form, r: string)
    requires r != "" && Stray(f, First(r))
    ensures Junk(r)
  {
    hide NumberText, IsNumber, NumberValue, StringOf;
  }

  lemma MinusZeroIsZero()
    ensures IntegerValue("-0") == 0 && IsInteger("-0")
  {
    assert "-0"[1..] == "0" && "0"[..0] == "" && "-0"[..1] == "-" && "-"[..0] == "";
    assert FormOf("-") == Minus;
  }

  lemma PointAgrees(t: string)
    requires t != "" && First(t) == '.'
    ensures Agreed(t)
  {
    hide StringOf, NumberText, ReadDecimal, ReadString, ReadWord, Skip, PointsStand;
    SkipNothing(t);
    PointAlike(t);
  }

  lemma WordAgrees(t: string)
    requires t != "" && !IsBlank(First(t)) && First(t) !in "[]{},:" && First(t) != '\"' && !Starts(First(t))
    ensures Agreed(t)
  {
    hide StringOf, NumberText, ReadDecimal, ReadString, Skip, Letters, Junk;
    SkipNothing(t);
    assert Lex(t) == ReadWord(t);
    if Begins(t, "null") {
      LongWord(t, "null");
    } else if Begins(t, "true") {
      LongWord(t, "true");
    } else if Begins(t, "false") {
      LongWord(t, "false");
    }
  }

  lemma SkippedAgrees(t: string)
    requires t == "" || !IsBlank(First(t))
    ensures Agreed(t)
  {
    hide Agreed;
    if t == "" {
      NothingAgrees();
    } else if t[0] in "[]{},:" {
      MarkAgrees(t);
    } else if t[0] == '\"' {
      StringAgrees(t);
    } else if StartsNumber(t[0]) {
      NumberAgrees(t);
    } else if t[0] == '.' {
      PointAgrees(t);
    } else {
      WordAgrees(t);
    }
  }

  lemma NothingAgrees()
    ensures Agreed("")
  {
  }

  /** On every text the lexer and the grammar agree about the next token, apart from loose fractions, surrogates and
      negative zero, and the lexer panics exactly if the token does not fit. */
  lemma TokenAlike(s: string)
    ensures Alike(s, NextToken(s), Scan(s)) && (Fits(s) <==> !NextToken(s).Panicked?)
  {
    hide NextToken, Scan, Skip, NumberText, Unfit, NoSurrogates, StringOf;
    var t := Skip(s);
    NextSkips(s);
    SkipNothing(t);
    SkippedAgrees(t);
    SameScan(s);
  }

  lemma SameScan(s: string)
    ensures Scan(Skip(s)) == Scan(s)
  {
    hide NumberText, StringOf, Skip, NumberValue, IsNumber;
    SkipNothing(Skip(s));
  }
}
