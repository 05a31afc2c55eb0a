/** Reading JSON text into tokens. */
module JsonLexer {
  import opened Wrappers
  import opened JsonText

  datatype Token = CloseBrace | CloseBracket | Colon | Comma | Literal(t: Leaf) | OpenBrace | OpenBracket

  // ---- Numbers ----

  datatype State = Before | HadSign | HadDecimal | HadExponent | HadExponentSign | NaN(seen: nat) | Infinity(seen: nat)

  datatype Kind = Unknown | Normal | SingleZero | Hex | Octal

  datatype Decimal = Error | IncompleteDecimal | Integer(text: string) | Fraction(text: string) | HexNumber | OctalNumber

  predicate IsDigit(c: char) {
    '0' <= c <= '9'
  }

  /** Reads the longest run of characters that may be a number; hexadecimal and octal forms are recognised. */
  datatype Matcher = Matcher(value: string, state: State, kind: Kind, hadAnyDecimal: bool, hadExponentDecimal: bool) {
    /** The matcher after a character, if it is allowed. */
    function Allowed(c: char): Option<Matcher> {
      var m := this.(value := value + [c]);
      match state
      case Before =>
        if IsDigit(c) then Some(m.(hadAnyDecimal := true, state := HadSign, kind := if c == '0' then SingleZero else Normal))
        else if c == '+' || c == '-' then Some(m.(state := HadSign))
        else if c == '.' then Some(m.(state := HadDecimal, kind := Normal))
        else if c == 'I' then Some(m.(state := Infinity(1)))
        else if c == 'N' then Some(m.(state := NaN(1)))
        else None
      case HadSign =>
        if IsDigit(c) then
          Some(m.(hadAnyDecimal := true, kind := match kind
                                           case Unknown => if c == '0' then SingleZero else Normal
                                           case SingleZero => Octal
                                           case _ => kind))
        else if (c == 'x' || c == 'X') && kind.SingleZero? then Some(m.(kind := Hex, hadAnyDecimal := false))
        else if ('a' <= c <= 'f' || 'A' <= c <= 'F') && kind.Hex? then Some(m.(hadAnyDecimal := true))
        else if c == '.' && (kind.Unknown? || kind.Normal? || kind.SingleZero?) then Some(m.(state := HadDecimal, kind := Normal))
        else if (c == 'e' || c == 'E') && (kind.Normal? || kind.SingleZero?) then Some(m.(state := HadExponent, kind := Normal))
        else if c == 'I' then Some(m.(state := Infinity(1)))
        else None
      case Infinity(seen) => if seen < 8 && c == "Infinity"[seen] then Some(m.(state := Infinity(seen + 1))) else None
      case NaN(seen) => if seen < 3 && c == "NaN"[seen] then Some(m.(state := NaN(seen + 1))) else None
      case HadDecimal =>
        if IsDigit(c) then Some(m.(hadAnyDecimal := true))
        else if (c == 'e' || c == 'E') && hadAnyDecimal then Some(m.(state := HadExponent))
        else None
      case HadExponent =>
        if c == '+' || c == '-' then Some(m.(state := HadExponentSign))
        else if IsDigit(c) then Some(m.(state := HadExponentSign, hadExponentDecimal := true))
        else None
      case HadExponentSign => if IsDigit(c) then Some(m.(hadExponentDecimal := true)) else None
    }

    function Then(c: char): Matcher {
      var m := Allowed(c);
      if m.Some? then m.value else this
    }

    function Complete(): Decimal {
      match kind
      case SingleZero => Integer(value)
      case Hex => if hadAnyDecimal then HexNumber else Error
      case Octal => OctalNumber
      case _ =>
        match state
        case HadSign => if hadAnyDecimal then Integer(value) else Error
        case HadDecimal => if hadAnyDecimal then Fraction(value) else Error
        case HadExponent => if hadExponentDecimal then Fraction(value) else IncompleteDecimal
        case HadExponentSign => if hadExponentDecimal then Fraction(value) else IncompleteDecimal
        case _ => Error
    }
  }

  const START := Matcher("", Before, Unknown, false, false)

  function Munch(m: Matcher, s: string): (r: (Matcher, string))
    ensures |r.1| <= |s|
    decreases |s|
  {
    if s != "" && m.Allowed(s[0]).Some? then Munch(m.Allowed(s[0]).value, s[1..]) else (m, s)
  }

  function ParseNat(s: string): Option<nat> {
    if s == "" then Some(0)
    else
      var c, before := s[|s| - 1], ParseNat(s[..|s| - 1]);
      if IsDigit(c) && before.Some? then Some(10 * before.value + (c as int - '0' as int)) else None
  }

  /** The 64-bit integer in a text, none if there is no such number. */
  function ParseI64(s: string): Option<int> {
    if s == "" then None
    else
      var signed := s[0] == '-' || s[0] == '+';
      var n := ParseNat(if signed then s[1..] else s);
      if (signed && |s| == 1) || n.None? then None
      else
        var i: int := if s[0] == '-' then 0 - n.value else n.value;
        if -0x8000_0000_0000_0000 <= i < 0x8000_0000_0000_0000 then Some(i) else None
  }

  // ---- Tokens ----

  /** What reading once gives: a token, white space, a syntax error, or a panic. */
  datatype Lexeme = Tok(token: Token, rest: string) | Blank(rest: string) | Fatal | Panics

  predicate IsLineTerminator(c: char) {
    c == '\r' || c == '\n'
  }

  predicate IsWhitespace(c: char) {
    c == '\t' || c == ' '
  }

  predicate IsLetter(c: char) {
    'a' <= c <= 'z'
  }

  function SkipBlanks(s: string): (rest: string)
    ensures |rest| <= |s|
  {
    if s != "" && IsWhitespace(s[0]) then SkipBlanks(s[1..]) else s
  }

  function Letters(s: string): (n: nat)
    ensures n <= |s|
  {
    if s != "" && IsLetter(s[0]) then 1 + Letters(s[1..]) else 0
  }

  function ReadDecimal(s: string): Lexeme {
    if s == "" then Fatal
    else
      var first := START.Allowed(s[0]);
      var (m, rest) := Munch(if first.Some? then first.value else START, s[1..]);
      match m.Complete()
      case Integer(text) => if ParseI64(text).Some? then Tok(Literal(Int(ParseI64(text).value)), rest) else Panics
      case Fraction(text) => Tok(Literal(Float(text)), rest)
      case _ => Fatal
  }

  function Rest(s: string): string {
    if s == "" then "" else s[1..]
  }

  /** The first character, a blank if there is none. */
  function First(s: string): char {
    if s == "" then ' ' else s[0]
  }

  function HexValue(c: char): (d: Option<nat>)
    ensures d.Some? ==> d.value < 16
  {
    if '0' <= c <= '9' then Some(c as int - '0' as int)
    else if 'a' <= c <= 'f' then Some(c as int - 'a' as int + 10)
    else if 'A' <= c <= 'F' then Some(c as int - 'A' as int + 10)
    else None
  }

  /** A character in a string, a syntax error, or a panic at the end of the text. */
  datatype Piece = Char(c: char, rest: string) | BadPiece | NoMore

  /** `n` hexadecimal digits; a surrogate becomes the replacement character. */
  function ReadHex(s: string, n: nat, value: nat): (p: Piece)
    requires value < 0x1_0000
    ensures p.Char? ==> |p.rest| <= |s|
  {
    if n == 0 then Char(if value < 0xD800 || 0xE000 <= value then value as char else '\U{FFFD}', s)
    else if s == "" then NoMore
    else if HexValue(s[0]).None? then BadPiece
    else ReadHex(s[1..], n - 1, (value * 16 + HexValue(s[0]).value) % 0x1_0000)
  }

  /** What follows a backslash. */
  function ReadEscape(s: string): (p: Piece)
    ensures p.Char? ==> |p.rest| < |s|
  {
    if s == "" then NoMore
    else match s[0]
      case '\\' => Char('\\', s[1..])
      case '/' => Char('/', s[1..])
      case '\"' => Char('\"', s[1..])
      case 'b' => Char('\U{8}', s[1..])
      case 'f' => Char('\U{C}', s[1..])
      case 'n' => Char('\n', s[1..])
      case 'r' => Char('\r', s[1..])
      case 't' => Char('\t', s[1..])
      case 'u' => ReadHex(s[1..], 4, 0)
      case _ => BadPiece
  }

  /** The rest of a string after its opening quote. */
  function ReadString(s: string, before: string): (l: Lexeme)
    ensures l.Tok? ==> |l.rest| < |s|
    ensures !l.Blank?
    decreases |s|
  {
    if s == "" || s[0] <= '\U{1F}' then Fatal
    else if s[0] == '\"' then Tok(Literal(Str(before)), s[1..])
    else if s[0] == '\\' then
      match ReadEscape(s[1..])
      case Char(c, rest) => ReadString(rest, before + [c])
      case BadPiece => Fatal
      case NoMore => Panics
    else ReadString(s[1..], before + [s[0]])
  }

  function ReadWord(s: string): Lexeme {
    var n := Letters(s);
    if s[..n] == "null" then Tok(Literal(Null), s[n..])
    else if s[..n] == "true" then Tok(Literal(Bool(true)), s[n..])
    else if s[..n] == "false" then Tok(Literal(Bool(false)), s[n..])
    else Fatal
  }

  function Lex(s: string): (l: Lexeme)
    ensures l.Tok? || l.Blank? ==> |l.rest| < |s|
  {
    if s == "" then Fatal
    else
      var c := s[0];
      if c == '[' then Tok(OpenBracket, s[1..])
      else if c == ']' then Tok(CloseBracket, s[1..])
      else if c == '{' then Tok(OpenBrace, s[1..])
      else if c == '}' then Tok(CloseBrace, s[1..])
      else if c == ',' then Tok(Comma, s[1..])
      else if c == ':' then Tok(Colon, s[1..])
      else if IsDigit(c) || c == '-' || c == '.' then ReadDecimal(s)
      else if c == '\"' then ReadString(s[1..], "")
      else if IsLineTerminator(c) then Blank(s[1..])
      else if IsWhitespace(c) then Blank(SkipBlanks(s[1..]))
      else ReadWord(s)
  }

  datatype Peeked = Got(token: Token, rest: string) | AtEnd | Unreadable | Panicked

  /** The next token. */
  function NextToken(s: string): (p: Peeked)
    ensures p.Got? ==> |p.rest| < |s|
    decreases |s|
  {
    if s == "" then AtEnd
    else match Lex(s)
      case Tok(t, rest) => Got(t, rest)
      case Blank(rest) => NextToken(rest)
      case Fatal => Unreadable
      case Panics => Panicked
  }

  // ---- Reading what was written ----

  /** What follows a value in JSON text. */
  predicate Ends(s: string) {
    s == "" || s[0] == ',' || s[0] == ']' || s[0] == '}'
  }

  lemma {:induction false} DecimalDigits(n: nat)
    ensures (forall k: nat :: k < |NatText(n)| ==> IsDigit(NatText(n)[k])) && (n > 0 ==> NatText(n)[0] != '0')
  {
    if n >= 10 {
      DecimalDigits(n / 10);
    }
  }

  lemma {:induction false} ReadsNat(n: nat)
    ensures ParseNat(NatText(n)) == Some(n)
  {
    if n < 10 {
      assert NatText(n)[..0] == "";
    } else {
      ReadsNat(n / 10);
      assert NatText(n)[..|NatText(n)| - 1] == NatText(n / 10);
    }
  }

  lemma ReadsInt(i: int)
    requires -0x8000_0000_0000_0000 <= i < 0x8000_0000_0000_0000
    ensures ParseI64(IntText(i)) == Some(i)
  {
    var n := if i < 0 then -i else i;
    ReadsNat(n);
    DecimalDigits(n);
    assert IsDigit(NatText(n)[0]);
    if i < 0 {
      assert IntText(i)[1..] == NatText(n);
    }
  }

  lemma {:induction false} MunchesDigits(m: Matcher, digits: string, s: string)
    requires m.state.HadSign? && m.kind.Normal? && Ends(s) && forall k: nat :: k < |digits| ==> IsDigit(digits[k])
    ensures Munch(m, digits + s) == (m.(value := m.value + digits, hadAnyDecimal := m.hadAnyDecimal || digits != ""), s)
    decreases |digits|
  {
    if digits == "" {
      assert digits + s == s && m.value + digits == m.value;
    } else {
      assert IsDigit(digits[0]);
      assert (digits + s)[1..] == digits[1..] + s;
      MunchesDigits(m.Allowed(digits[0]).value, digits[1..], s);
      assert m.value + [digits[0]] + digits[1..] == m.value + digits;
    }
  }

  lemma IntBegins(i: int)
    ensures IsDigit(IntText(i)[0]) || IntText(i)[0] == '-'
  {
    DecimalDigits(if i < 0 then -i else i);
  }

  lemma LexesInt(i: int, s: string)
    requires -0x8000_0000_0000_0000 <= i < 0x8000_0000_0000_0000 && Ends(s)
    ensures NextToken(IntText(i) + s) == Got(Literal(Int(i)), s)
  {
    hide ReadDecimal, ReadString, ReadWord, IntText, ParseI64;
    ReadsInt(i);
    DecimalLexed(i, s);
    var first := IntText(i)[0];
    assert first == (IntText(i) + s)[0];
    IntBegins(i);
  }

  lemma DecimalLexed(i: int, s: string)
    requires Ends(s) && ParseI64(IntText(i)) == Some(i)
    ensures ReadDecimal(IntText(i) + s) == Tok(Literal(Int(i)), s)
  {
    hide ParseI64, IntText, Munch, NatText;
    var text := IntText(i);
    assert (text + s)[1..] == text[1..] + s;
    if i < 0 {
      NegativeMatched(-i, s);
    } else {
      NatMatched(i, s);
    }
  }

  /** A text is read up to its end, as an integer. */
  ghost predicate Matched(text: string, s: string) {
    && text != "" && START.Allowed(text[0]).Some?
    && (var (m, rest) := Munch(START.Allowed(text[0]).value, text[1..] + s);
        rest == s && m.value == text && m.Complete() == Integer(text))
  }

  lemma NatMatched(n: nat, s: string)
    requires Ends(s)
    ensures Matched(IntText(n), s)
  {
    var text := NatText(n);
    DecimalDigits(n);
    assert IsDigit(text[0]);
    var first := START.Allowed(text[0]).value;
    assert first.value + text[1..] == text;
    if n == 0 {
      assert text[1..] + s == s;
    } else {
      MunchesDigits(first, text[1..], s);
    }
  }

  lemma NegativeMatched(n: nat, s: string)
    requires Ends(s) && n > 0
    ensures Matched(IntText(0 - n), s)
  {
    var digits := NatText(n);
    var text := "-" + digits;
    assert text[1..] == digits;
    DecimalDigits(n);
    assert IsDigit(digits[0]);
    var first := START.Allowed('-').value;
    var second := first.Allowed(digits[0]).value;
    assert (digits + s)[1..] == digits[1..] + s;
    assert second.value + digits[1..] == text;
    assert Munch(first, digits + s) == Munch(second, digits[1..] + s);
    MunchesDigits(second, digits[1..], s);
  }

  /** An escaped character reads as itself. */
  lemma EscapeReads(c: char, s: string, before: string)
    ensures ReadString(EscapeChar(c) + s, before) == ReadString(s, before + [c])
  {
    hide ReadHex;
    var e := EscapeChar(c);
    assert (e + s)[1..] == e[1..] + s;
    if |e| == 2 {
      assert e[1..] + s == [e[1]] + s;
      assert ([e[1]] + s)[1..] == s;
    } else if |e| == 6 {
      ControlReads(c, s);
    }
  }

  lemma ControlReads(c: char, s: string)
    requires |EscapeChar(c)| == 6
    ensures ReadEscape(EscapeChar(c)[1..] + s) == Char(c, s)
  {
    hide ReadHex;
    var e := EscapeChar(c);
    var high, low := c as int / 16, c as int % 16;
    var digits := ['0', '0', HexDigit(high), HexDigit(low)] + s;
    assert e[1..] + s == ['u'] + digits;
    assert (['u'] + digits)[1..] == digits;
    HexReads(high, low, s);
  }

  lemma HexReads(high: nat, low: nat, s: string)
    requires high < 2 && low < 16
    ensures ReadHex(['0', '0', HexDigit(high), HexDigit(low)] + s, 4, 0) == Char((high * 16 + low) as char, s)
  {
    var h, l := HexDigit(high), HexDigit(low);
    assert (['0', '0', h, l] + s)[1..] == ['0', h, l] + s;
    assert (['0', h, l] + s)[1..] == [h, l] + s;
    assert ([h, l] + s)[1..] == [l] + s;
    assert ([l] + s)[1..] == s;
    assert HexValue(h) == Some(high) && HexValue(l) == Some(low);
    assert ReadHex(['0', '0', h, l] + s, 4, 0) == ReadHex(['0', h, l] + s, 3, 0) == ReadHex([h, l] + s, 2, 0);
    assert ReadHex([h, l] + s, 2, 0) == ReadHex([l] + s, 1, high) == ReadHex(s, 0, high * 16 + low);
  }

  lemma {:induction false} StringReads(t: string, s: string, before: string)
    ensures ReadString(EscapeText(t) + "\"" + s, before) == Tok(Literal(Str(before + t)), s)
  {
    if t == "" {
      assert EscapeText(t) + "\"" + s == "\"" + s && before + t == before;
    } else {
      var rest := EscapeText(t[1..]) + "\"" + s;
      assert EscapeText(t) + "\"" + s == EscapeChar(t[0]) + rest;
      EscapeReads(t[0], rest, before);
      StringReads(t[1..], s, before + [t[0]]);
      assert before + [t[0]] + t[1..] == before + t;
    }
  }

  /** A string reads back as itself, whatever characters it holds. */
  lemma LexesString(t: string, s: string)
    ensures NextToken(Quoted(t) + s) == Got(Literal(Str(t)), s)
  {
    StringReads(t, s, "");
    assert (Quoted(t) + s)[1..] == EscapeText(t) + "\"" + s;
    assert "" + t == t;
  }

  lemma {:induction false} LettersOf(word: string, s: string)
    requires Ends(s) && forall k: nat :: k < |word| ==> IsLetter(word[k])
    ensures Letters(word + s) == |word|
  {
    if word == "" {
      assert word + s == s;
    } else {
      assert (word + s)[1..] == word[1..] + s;
      LettersOf(word[1..], s);
    }
  }

  lemma LexesWord(t: Tree, s: string)
    requires (t.Null? || t.Bool?) && Ends(s)
    ensures NextToken(Text(t) + s) == Got(Literal(t), s)
  {
    var word := Text(t);
    LettersOf(word, s);
    assert (word + s)[..|word|] == word && (word + s)[|word|..] == s;
  }

  lemma LexesMark(c: char, s: string)
    requires c == '[' || c == ']' || c == '{' || c == '}' || c == ',' || c == ':'
    ensures NextToken([c] + s) == Got(if c == '[' then OpenBracket else if c == ']' then CloseBracket else if c == '{' then OpenBrace
                                 else if c == '}' then CloseBrace else if c == ',' then Comma else Colon, s)
  {
    assert ([c] + s)[1..] == s;
  }

  // ---- The lexer ----

  datatype Outcome<T> = Ok(value: T) | SyntaxError | Panic

  /** A reading step did what `l` says and left the rest of the text. */
  ghost predicate Did(l: Lexeme, r: Outcome<Option<Token>>, rest: string) {
    match l
    case Tok(t, rest') => r == Ok(Some(t)) && rest == rest'
    case Blank(rest') => r == Ok(None) && rest == rest'
    case Fatal => r == SyntaxError
    case Panics => r == Panic
  }

  ghost predicate DidPiece(p: Piece, r: Outcome<char>, rest: string) {
    match p
    case Char(c, rest') => r == Ok(c) && rest == rest'
    case BadPiece => r == SyntaxError
    case NoMore => r == Panic
  }

  class Lexer {
    const text: string
    var offset: nat
    var lookAhead: Option<Token>
    ghost var start: nat     // where the tokens that have not been taken begin

    ghost predicate Base()
      reads this
    {
      offset <= |text|
    }

    /** What the reader has not read. */
    ghost function Unread(): string
      requires Base()
      reads this
    {
      text[offset..]
    }

    ghost predicate Valid()
      reads this
    {
      && Base() && start <= |text|
      && (if lookAhead.Some? then NextToken(text[start..]) == Got(lookAhead.value, Unread()) else NextToken(text[start..]) == NextToken(Unread()))
    }

    /** The text after the last token that was taken. */
    ghost function Rest(): string
      requires Valid()
      reads this
    {
      text[start..]
    }

    constructor (text: string)
      ensures Valid() && Rest() == text && fresh(this)
    {
      this.text, offset, lookAhead, start := text, 0, None, 0;
      new;
      assert text[0..] == text;
    }

    method Advance() returns (c: char)
      requires Base() && offset < |text|
      modifies this`offset
      ensures Base() && c == old(Unread())[0] && Unread() == old(Unread())[1..]
    {
      c := text[offset];
      offset := offset + 1;
    }

    method SkipWhile()
      requires Base()
      modifies this`offset
      ensures Base() && Unread() == SkipBlanks(old(Unread()))
    {
      while offset < |text| && IsWhitespace(text[offset])
        invariant Base() && SkipBlanks(Unread()) == SkipBlanks(old(Unread()))
      {
        var c := Advance();
      }
    }

    method ParseDecimal(c: char) returns (r: Outcome<Option<Token>>)
      requires Base() && (IsDigit(c) || c == '-' || c == '.')
      modifies this`offset
      ensures Base() && Did(ReadDecimal([c] + old(Unread())), r, Unread())
    {
      ghost var all := [c] + Unread();
      assert all[1..] == Unread();
      var matcher := START.Allowed(c).value;
      while offset < |text| && matcher.Allowed(text[offset]).Some?
        invariant Base() && Munch(START.Allowed(c).value, all[1..]) == Munch(matcher, Unread())
      {
        matcher := matcher.Allowed(text[offset]).value;
        var d := Advance();
      }
      match matcher.Complete()
      case Integer(digits) =>
        var i := ParseI64(digits);
        r := if i.Some? then Ok(Some(Literal(Int(i.value)))) else Panic;
      case Fraction(digits) => r := Ok(Some(Literal(Float(digits))));
      case _ => r := SyntaxError;
    }

    method ParseEscapeHex(length: nat) returns (r: Outcome<char>)
      requires Base()
      modifies this`offset
      ensures Base() && DidPiece(ReadHex(old(Unread()), length, 0), r, Unread())
    {
      var value := 0;
      for k := 0 to length
        invariant Base() && value < 0x1_0000
        invariant ReadHex(old(Unread()), length, 0) == ReadHex(Unread(), length - k, value)
      {
        if offset >= |text| {
          return Panic;
        }
        var c := Advance();
        var digit := HexValue(c);
        if digit.None? {
          return SyntaxError;
        }
        value := (value * 16 + digit.value) % 0x1_0000;
      }
      r := Ok(if value < 0xD800 || 0xE000 <= value then value as char else '\U{FFFD}');
    }

    method ParseEscape() returns (r: Outcome<char>)
      requires Base()
      modifies this`offset
      ensures Base() && DidPiece(ReadEscape(old(Unread())), r, Unread())
    {
      hide ReadHex;
      if offset >= |text| {
        return Panic;
      }
      var c := Advance();
      match c
      case '\\' => r := Ok('\\');
      case '/' => r := Ok('/');
      case '\"' => r := Ok('\"');
      case 'b' => r := Ok('\U{8}');
      case 'f' => r := Ok('\U{C}');
      case 'n' => r := Ok('\n');
      case 'r' => r := Ok('\r');
      case 't' => r := Ok('\t');
      case 'u' => r := ParseEscapeHex(4);
      case _ => r := SyntaxError;
    }

    method ParseString() returns (r: Outcome<Option<Token>>)
      requires Base()
      modifies this`offset
      ensures Base() && Did(ReadString(old(Unread()), ""), r, Unread())
    {
      hide ReadEscape;
      var s := "";
      while offset < |text|
        invariant Base() && ReadString(old(Unread()), "") == ReadString(Unread(), s)
        decreases |text| - offset
      {
        ghost var before := Unread();
        var c := Advance();
        if c <= '\U{1F}' {
          return SyntaxError;
        } else if c == '\"' {
          return Ok(Some(Literal(Str(s))));
        } else if c == '\\' {
          var escaped := ParseEscape();
          if !escaped.Ok? {
            return if escaped.Panic? then Panic else SyntaxError;
          }
          EscapeShortens(before[1..]);
          s := s + [escaped.value];
        } else {
          s := s + [c];
        }
      }
      r := SyntaxError;
    }

    method ParseIdentifier() returns (r: Outcome<Option<Token>>)
      requires Base()
      modifies this`offset
      ensures Base() && Did(ReadWord(old(Unread())), r, Unread())
    {
      var s := "";
      ghost var all := Unread();
      while offset < |text| && IsLetter(text[offset])
        invariant Base() && |s| <= |all| && s == all[..|s|] && Unread() == all[|s|..]
        invariant Letters(all) == |s| + Letters(Unread())
      {
        var c := Advance();
        s := s + [c];
      }
      if s == "null" {
        r := Ok(Some(Literal(Null)));
      } else if s == "true" {
        r := Ok(Some(Literal(Bool(true))));
      } else if s == "false" {
        r := Ok(Some(Literal(Bool(false))));
      } else {
        r := SyntaxError;
      }
    }

    /** Reads one token or some white space. */
    method Parse() returns (r: Outcome<Option<Token>>)
      requires Base() && offset < |text|
      modifies this`offset
      ensures Base() && Did(Lex(old(Unread())), r, Unread())
    {
      hide ReadDecimal, ReadString, ReadWord, SkipBlanks;
      ghost var all := Unread();
      var c := Advance();
      assert [c] + all[1..] == all;
      match c
      case '[' => r := Ok(Some(OpenBracket));
      case ']' => r := Ok(Some(CloseBracket));
      case '{' => r := Ok(Some(OpenBrace));
      case '}' => r := Ok(Some(CloseBrace));
      case ',' => r := Ok(Some(Comma));
      case ':' => r := Ok(Some(Colon));
      case _ =>
        if IsDigit(c) || c == '-' || c == '.' {
          r := ParseDecimal(c);
        } else if c == '\"' {
          r := ParseString();
        } else if IsLineTerminator(c) {
          r := Ok(None);
        } else if IsWhitespace(c) {
          SkipWhile();
          r := Ok(None);
        } else {
          offset := offset - 1;
          assert Unread() == all;
          r := ParseIdentifier();
        }
    }

    /** The next token, left in place. */
    method Peek() returns (r: Outcome<Option<Token>>)
      requires Valid()
      modifies this`offset, this`lookAhead
      ensures r.Ok? ==> Valid() && Rest() == old(Rest())
      ensures match NextToken(old(Rest()))
              case Got(t, _) => r == Ok(Some(t)) && lookAhead == Some(t)
              case AtEnd => r == Ok(None)
              case Unreadable => r == SyntaxError
              case Panicked => r == Panic
    {
      if lookAhead.Some? {
        return Ok(lookAhead);
      }
      hide Lex;
      while offset < |text|
        invariant Valid() && lookAhead.None? && start == old(start)
        decreases |text| - offset
      {
        ghost var unread := Unread();
        r := Parse();
        if !r.Ok? {
          return;
        }
        if r.value.Some? {
          lookAhead := r.value;
          return;
        }
      }
      r := Ok(None);
    }

    /** Takes the next token. */
    method Next() returns (r: Outcome<Token>)
      requires Valid()
      modifies this
      ensures match NextToken(old(Rest()))
              case Got(t, rest) => r == Ok(t) && Valid() && Rest() == rest
              case Panicked => r == Panic
              case _ => r == SyntaxError
    {
      var p := Peek();
      if !p.Ok? {
        return if p.Panic? then Panic else SyntaxError;
      }
      if p.value.None? {
        return SyntaxError;
      }
      lookAhead := None;
      start := offset;
      r := Ok(p.value.value);
    }
  }

  lemma EscapeShortens(s: string)
    ensures ReadEscape(s).Char? ==> |ReadEscape(s).rest| < |s|
  {
  }
}
