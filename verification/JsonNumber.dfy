/** The numbers of JSON, section 15.12.1.1 of ECMA-262 5.1, and which of the texts the lexer takes are numbers. */
module JsonNumber {
  import opened Wrappers
  import opened JsonText
  import opened JsonLexer

  /** How far a text has come as a number. */
  datatype Form = Empty | Minus | Zero | Whole | Point | Fractional | E | ESign | Exponent | Bad

  function FirstDigit(c: char): Form {
    if c == '0' then Zero else if IsDigit(c) then Whole else Bad
  }

  function AfterWhole(c: char): Form {
    if c == '.' then Point else if c == 'e' || c == 'E' then E else Bad
  }

  function Next(f: Form, c: char): Form {
    match f
    case Empty => if c == '-' then Minus else FirstDigit(c)
    case Minus => FirstDigit(c)
    case Zero => AfterWhole(c)
    case Whole => if IsDigit(c) then Whole else AfterWhole(c)
    case Point => if IsDigit(c) then Fractional else Bad
    case Fractional => if IsDigit(c) then Fractional else if c == 'e' || c == 'E' then E else Bad
    case E => if c == '+' || c == '-' then ESign else if IsDigit(c) then Exponent else Bad
    case ESign => if IsDigit(c) then Exponent else Bad
    case Exponent => if IsDigit(c) then Exponent else Bad
    case Bad => Bad
  }

  function FormOf(s: string): Form {
    if s == "" then Empty else Next(FormOf(s[..|s| - 1]), s[|s| - 1])
  }

  predicate IsInteger(s: string) {
    FormOf(s).Zero? || FormOf(s).Whole?
  }

  predicate IsNumber(s: string) {
    IsInteger(s) || FormOf(s).Fractional? || FormOf(s).Exponent?
  }

  /** Every point has a digit before it and a digit, or the end of the text, after it. */
  predicate Stands(s: string) {
    forall k: nat {:trigger s[k]} :: k < |s| && s[k] == '.' ==>
      k > 0 && IsDigit(s[k - 1]) && (k + 1 < |s| ==> IsDigit(s[k + 1]))
  }

  /** Every point is between two digits. */
  predicate PointsStand(s: string) {
    Stands(s) && (s == "" || s[|s| - 1] != '.')
  }

  lemma StandsNext(s: string, c: char)
    ensures Stands(s + [c]) <==> Stands(s) && if s == "" then c != '.'
                                  else (c == '.' ==> IsDigit(s[|s| - 1])) && (s[|s| - 1] == '.' ==> IsDigit(c))
  {
    var t := s + [c];
    if Stands(t) {
      forall k: nat {:trigger s[k]} | k < |s| && s[k] == '.'
        ensures k > 0 && IsDigit(s[k - 1]) && (k + 1 < |s| ==> IsDigit(s[k + 1]))
      {
        assert t[k] == s[k] && (k > 0 ==> t[k - 1] == s[k - 1]) && (k + 1 < |s| ==> t[k + 1] == s[k + 1]);
      }
      assert t[|s|] == c && (s != "" ==> t[|s| - 1] == s[|s| - 1]);
    }
  }

  lemma EmptyStands()
    ensures Stands("")
  {
  }

  // ---- The matcher and the forms ----

  /** Something after the first character is no digit. */
  predicate NoInteger(s: string) {
    exists k: nat {:trigger s[k]} :: 0 < k < |s| && !IsDigit(s[k])
  }

  /** What a matcher is in the middle of. */
  ghost predicate Follows(m: Matcher) {
    var s := m.value;
    var f := FormOf(s);
    if m.state.Before? then m == START
    else
      && s != ""
      && (if m.state.HadSign? then
            && (m.kind.Unknown? ==> f == Minus && s[|s| - 1] == '-' && !m.hadAnyDecimal)
            && (m.kind.SingleZero? ==> f == Zero && s[|s| - 1] == '0')
            && (m.kind.Normal? ==> f == Whole && IsDigit(s[|s| - 1]) && m.hadAnyDecimal)
            && (m.kind.Hex? || m.kind.Octal? ==> f == Bad)
            && (f != Bad ==> Stands(s)) && !m.hadExponentDecimal
          else if m.state.HadDecimal? then
            && m.kind.Normal? && (s[|s| - 1] == '.' || (IsDigit(s[|s| - 1]) && m.hadAnyDecimal)) && !m.hadExponentDecimal
            && f == if !Stands(s) then Bad else if s[|s| - 1] == '.' then Point else Fractional
          else if m.state.HadExponent? then
            m.kind.Normal? && s[|s| - 1] != '.' && !m.hadExponentDecimal && f == if Stands(s) then E else Bad
          else if m.state.HadExponentSign? then
            m.kind.Normal? && s[|s| - 1] != '.' && f == if !Stands(s) then Bad else if m.hadExponentDecimal then Exponent else ESign
          else m.state.Infinity? && f == Bad && NoInteger(s))
  }

  predicate Starts(c: char) {
    IsDigit(c) || c == '-' || c == '.'
  }

  lemma Appended(s: string, c: char)
    ensures FormOf(s + [c]) == Next(FormOf(s), c) && Stands("") && FormOf("") == Empty
    ensures Stands(s + [c]) <==> Stands(s) && if s == "" then c != '.'
                                  else (c == '.' ==> IsDigit(s[|s| - 1])) && (s[|s| - 1] == '.' ==> IsDigit(c))
    ensures NoInteger(s) || (s != "" && !IsDigit(c)) ==> NoInteger(s + [c])
  {
    hide Stands;
    EmptyStands();
    StandsNext(s, c);
    var t := s + [c];
    assert t[..|t| - 1] == s && t[|s|] == c;
    if k: nat :| 0 < k < |s| && !IsDigit(s[k]) {
      assert !IsDigit(t[k]);
    }
  }

  /** A character is taken as the form says, and what is not taken could not have gone on as a number. */
  ghost predicate Continues(m: Matcher, c: char) {
    match m.Allowed(c)
    case Some(m') => Follows(m') && !m'.state.Before? && m'.value == m.value + [c]
    case None => Next(FormOf(m.value), c) == Bad
  }

  lemma StartContinues(m: Matcher, c: char)
    requires Follows(m) && m.state.Before? && Starts(c)
    ensures Continues(m, c)
  {
    hide Stands, FormOf, NoInteger;
    Appended(m.value, c);
  }

  lemma SignContinues(m: Matcher, c: char)
    requires Follows(m) && m.state.HadSign?
    ensures Continues(m, c)
  {
    hide Stands, FormOf, NoInteger;
    Appended(m.value, c);
  }

  lemma PointContinues(m: Matcher, c: char)
    requires Follows(m) && m.state.HadDecimal?
    ensures Continues(m, c)
  {
    hide Stands, FormOf, NoInteger;
    Appended(m.value, c);
  }

  lemma ExponentContinues(m: Matcher, c: char)
    requires Follows(m) && (m.state.HadExponent? || m.state.HadExponentSign?)
    ensures Continues(m, c)
  {
    hide Stands, FormOf, NoInteger;
    Appended(m.value, c);
  }

  lemma InfinityContinues(m: Matcher, c: char)
    requires Follows(m) && m.state.Infinity?
    ensures Continues(m, c)
  {
    hide Stands, FormOf, NoInteger;
    Appended(m.value, c);
  }

  lemma FollowsNext(m: Matcher, c: char)
    requires Follows(m) && (m.state.Before? ==> Starts(c))
    ensures Continues(m, c)
  {
    hide Continues;
    match m.state
    case Before => StartContinues(m, c);
    case HadSign => SignContinues(m, c);
    case HadDecimal => PointContinues(m, c);
    case HadExponent => ExponentContinues(m, c);
    case HadExponentSign => ExponentContinues(m, c);
    case _ => InfinityContinues(m, c);
  }

  lemma {:induction false} Munched(m: Matcher, s: string)
    requires Follows(m) && !m.state.Before?
    ensures var (m', rest) := Munch(m, s);
      Follows(m') && !m'.state.Before? && |rest| <= |s| && m'.value == m.value + s[..|s| - |rest|] && rest == s[|s| - |rest|..]
    decreases |s|
  {
    hide Follows;
    if s != "" {
      FollowsNext(m, s[0]);
      if m.Allowed(s[0]).Some? {
        Munched(m.Allowed(s[0]).value, s[1..]);
        var (m', rest) := Munch(m, s);
        var k := |s| - |rest|;
        assert m.value + [s[0]] + s[1..][..k - 1] == m.value + s[..k];
      }
    }
  }

  // ---- Reading a number ----

  /** An integer is a number; anything else with a point or an exponent is one exactly if its points stand. */
  ghost predicate Reads(s: string, l: Lexeme) {
    l.Tok? ==>
      && |l.rest| <= |s| && l.rest == s[|s| - |l.rest|..]
      && var text := s[..|s| - |l.rest|];
         || (ParseI64(text).Some? && l.token == Literal(Int(ParseI64(text).value)) && IsInteger(text))
         || (l.token == Literal(Float(text)) && (IsNumber(text) <==> PointsStand(text)))
  }

  lemma NumberForms(s: string)
    requires s != "" && Starts(s[0])
    ensures Reads(s, ReadDecimal(s))
  {
    hide Follows, ParseI64, IsNumber, IsInteger, PointsStand;
    StartFollows();
    FollowsNext(START, s[0]);
    var first := START.Allowed(s[0]).value;
    Munched(first, s[1..]);
    var (m, rest) := Munch(first, s[1..]);
    assert m.value == s[..|s| - |rest|];
    CompletesAsNumber(m);
  }

  lemma StartFollows()
    ensures Follows(START) && START.value == ""
  {
  }

  lemma CompletesAsNumber(m: Matcher)
    requires Follows(m) && !m.state.Before?
    ensures m.Complete().Integer? ==> m.Complete().text == m.value && (ParseI64(m.value).Some? ==> IsInteger(m.value))
    ensures m.Complete().Fraction? ==>
      m.Complete().text == m.value && (IsNumber(m.value) <==> PointsStand(m.value))
  {
    hide ParseI64, FormOf, Stands, NoInteger;
    if NoInteger(m.value) {
      NoI64(m.value);
    }
  }

  lemma NoI64(s: string)
    requires NoInteger(s)
    ensures ParseI64(s).None?
  {
    var k: nat :| 0 < k < |s| && !IsDigit(s[k]);
    NoNat(s, k);
    NoNat(s[1..], k - 1);
  }

  lemma {:induction false} NoNat(s: string, k: nat)
    requires k < |s| && !IsDigit(s[k])
    ensures ParseNat(s).None?
  {
    if k < |s| - 1 {
      NoNat(s[..|s| - 1], k);
    }
  }

  // ---- Every number is read ----

  lemma {:induction false} BadStays(s: string, t: string)
    requires FormOf(s) == Bad
    ensures FormOf(s + t) == Bad
  {
    if t == "" {
      assert s + t == s;
    } else {
      var n := |t| - 1;
      BadStays(s, t[..n]);
      assert (s + t)[..|s + t| - 1] == s + t[..n];
    }
  }

  /** What is a number is matched up to its end. */
  lemma {:induction false} NumberMunched(m: Matcher, text: string, s: string)
    requires Follows(m) && !m.state.Before? && IsNumber(m.value + text) && Ends(s)
    ensures var (m', rest) := Munch(m, text + s); Follows(m') && !m'.state.Before? && m'.value == m.value + text && rest == s
    decreases |text|
  {
    hide Follows, IsNumber;
    if text == "" {
      assert text + s == s && m.value + text == m.value;
    } else {
      FollowsNext(m, text[0]);
      assert m.value + text == m.value + [text[0]] + text[1..];
      assert (text + s)[1..] == text[1..] + s;
      if m.Allowed(text[0]).Some? {
        NumberMunched(m.Allowed(text[0]).value, text[1..], s);
      } else {
        NotBad(m.value, text[0], text[1..]);
      }
    }
  }

  lemma NotBad(s: string, c: char, t: string)
    requires IsNumber(s + [c] + t)
    ensures Next(FormOf(s), c) != Bad
  {
    Appended(s, c);
    if Next(FormOf(s), c) == Bad {
      BadStays(s + [c], t);
    }
  }

  lemma NumberCompletes(m: Matcher)
    requires Follows(m) && !m.state.Before? && IsNumber(m.value)
    ensures m.Complete() == if IsInteger(m.value) then Integer(m.value) else Fraction(m.value)
  {
    hide FormOf, Stands, NoInteger;
  }

  /** The lexer takes every number whole, integers too if they fit. */
  lemma NumbersAreRead(text: string, s: string)
    requires IsNumber(text) && Ends(s)
    ensures NextToken(text + s) == if !IsInteger(text) then Got(Literal(Float(text)), s)
                                   else if ParseI64(text).Some? then Got(Literal(Int(ParseI64(text).value)), s) else Panicked
  {
    hide Follows, ParseI64, FormOf, IsNumber, IsInteger, ReadString, ReadWord, Munch;
    NumberStarts(text);
    var c := text[0];
    assert (text + s)[0] == c && (text + s)[1..] == text[1..] + s && [c] + text[1..] == text;
    StartFollows();
    FollowsNext(START, c);
    var first := START.Allowed(c).value;
    assert first.value == [c];
    NumberMunched(first, text[1..], s);
    NumberCompletes(Munch(first, text[1..] + s).0);
  }

  lemma NumberStarts(text: string)
    requires IsNumber(text)
    ensures text != "" && (IsDigit(text[0]) || text[0] == '-')
  {
    if text != "" {
      assert text[..1][..0] == "";
      assert text[..1] + text[1..] == text;
      if Next(Empty, text[0]) == Bad {
        BadStays(text[..1], text[1..]);
      }
    }
  }
}
