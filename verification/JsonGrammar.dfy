/** JSON as section 15.12.1 of ECMA-262 5.1 has it: its white space, strings, numbers, and grammar. Strings are
    sequences of UTF-16 code units and integers have any size. */
module JsonGrammar {
  import opened Wrappers
  import opened JsonLexer
  import opened JsonNumber
  import Uri

  type Unit = Uri.Unit

  datatype Json = JNull | JBool(b: bool) | JInteger(i: int) | JMinusZero | JFraction(text: string) | JString(units: seq<Unit>)
                | JArray(elements: seq<Json>) | JObject(members: seq<JMember>)

  datatype JMember = JMember(key: seq<Unit>, value: Json)

  // ---- Numbers ----

  /** How many characters can go on as a number. */
  function Run(f: Form, s: string): (n: nat)
    ensures n <= |s|
    decreases |s|
  {
    if s != "" && Next(f, s[0]) != Bad then 1 + Run(Next(f, s[0]), s[1..]) else 0
  }

  function RunText(f: Form, s: string): string {
    s[..Run(f, s)]
  }

  function NumberText(s: string): (text: string)
    ensures |text| <= |s| && text == s[..|text|]
  {
    s[..Run(Empty, s)]
  }

  function DigitValue(c: char): int {
    c as int - '0' as int
  }

  function DecimalValue(s: string): int {
    if s == "" then 0 else 10 * DecimalValue(s[..|s| - 1]) + DigitValue(s[|s| - 1])
  }

  function IntegerValue(s: string): int {
    if s != "" && s[0] == '-' then -DecimalValue(s[1..]) else DecimalValue(s)
  }

  /** A fraction is the number nearest to its text; zero can be negative. */
  function NumberValue(s: string): Json {
    if !IsInteger(s) then JFraction(s) else if s == "-0" then JMinusZero else JInteger(IntegerValue(s))
  }

  // ---- Strings ----

  function Utf16(s: string): seq<Unit> {
    if s == "" then [] else Utf16(s[..|s| - 1]) + Uri.Utf16(s[|s| - 1] as int)
  }

  const LOWER := "0123456789abcdef"
  const UPPER := "0123456789ABCDEF"

  /** Where a character is in a text. */
  function Position(c: char, s: string): (p: Option<nat>)
    ensures p.Some? ==> p.value < |s| && s[p.value] == c
    ensures p.None? ==> c !in s
  {
    if s == "" then None
    else if s[|s| - 1] == c then Some(|s| - 1)
    else Position(c, s[..|s| - 1])
  }

  /** What a hexadecimal digit denotes, in either case. */
  function HexDigitOf(c: char): (d: Option<nat>)
    ensures d.Some? ==> d.value < 16 && (c == LOWER[d.value] || c == UPPER[d.value])
  {
    if Position(c, LOWER).Some? then Position(c, LOWER) else Position(c, UPPER)
  }

  datatype Escaped = Escaped(u: Unit, rest: string) | BadEscape | CutEscape

  /** Four hexadecimal digits, which are bad as soon as one of them is none, and otherwise cut off if there are fewer. */
  function HexUnit(s: string): (e: Escaped)
    ensures e.Escaped? ==> |e.rest| < |s|
  {
    if exists k: nat :: k < 4 && k < |s| && HexDigitOf(s[k]).None? then BadEscape
    else if |s| < 4 then CutEscape
    else
      Escaped(0x1000 * HexDigitOf(s[0]).value + 0x100 * HexDigitOf(s[1]).value + 0x10 * HexDigitOf(s[2]).value + HexDigitOf(s[3]).value,
              s[4..])
  }

  /** What follows a backslash. */
  function Escape(s: string): (e: Escaped)
    ensures e.Escaped? ==> |e.rest| < |s|
  {
    if s == "" then CutEscape
    else
      var c, rest := s[0], s[1..];
      if c == '\"' || c == '\\' || c == '/' then Escaped(c as int, rest)
      else if c == 'b' then Escaped(0x8, rest)
      else if c == 'f' then Escaped(0xC, rest)
      else if c == 'n' then Escaped(0xA, rest)
      else if c == 'r' then Escaped(0xD, rest)
      else if c == 't' then Escaped(0x9, rest)
      else if c == 'u' then HexUnit(rest)
      else BadEscape
  }

  datatype Quoted = Closed(units: seq<Unit>, rest: string) | Broken | CutOff

  /** A string after its opening quote; `before` are the units gone by. */
  function StringOf(s: string, before: seq<Unit>): (q: Quoted)
    ensures q.Closed? ==> |q.rest| < |s|
    decreases |s|
  {
    if s == "" || s[0] < ' ' then Broken
    else if s[0] == '\"' then Closed(before, s[1..])
    else if s[0] == '\\' then
      match Escape(s[1..])
      case Escaped(u, rest) => StringOf(rest, before + [u])
      case BadEscape => Broken
      case CutEscape => CutOff
    else StringOf(s[1..], before + Uri.Utf16(s[0] as int))
  }

  // ---- Tokens ----

  datatype JToken = Mark(c: char) | Value(v: Json)

  datatype Scanned = Read(token: JToken, rest: string) | AtTheEnd | NoToken

  predicate IsBlank(c: char) {
    c == ' ' || c == '\t' || c == '\n' || c == '\r'
  }

  function Skip(s: string): (rest: string)
    ensures |rest| <= |s| && (rest == "" || !IsBlank(rest[0]))
  {
    if s != "" && IsBlank(s[0]) then Skip(s[1..]) else s
  }

  predicate Begins(s: string, word: string) {
    |s| >= |word| && s[..|word|] == word
  }

  /** The token after the white space. */
  function Scan(s: string): (r: Scanned)
    ensures r.Read? ==> |r.rest| < |s|
  {
    var t := Skip(s);
    if t == "" then AtTheEnd
    else if t[0] in "[]{},:" then Read(Mark(t[0]), t[1..])
    else if t[0] == '\"' then
      match StringOf(t[1..], [])
      case Closed(units, rest) => Read(Value(JString(units)), rest)
      case _ => NoToken
    else if IsDigit(t[0]) || t[0] == '-' then
      var text := NumberText(t);
      if IsNumber(text) then Read(Value(NumberValue(text)), t[|text|..]) else NoToken
    else if Begins(t, "null") then Read(Value(JNull), t[4..])
    else if Begins(t, "true") then Read(Value(JBool(true)), t[4..])
    else if Begins(t, "false") then Read(Value(JBool(false)), t[5..])
    else NoToken
  }

  predicate Marks(s: string, c: char) {
    Scan(s).Read? && Scan(s).token == Mark(c)
  }

  // ---- The grammar ----

  datatype Derived = Derived(t: Json, rest: string) | Underivable

  datatype DerivedMember = DerivedMember(m: JMember, rest: string) | NoMember

  function DeriveValue(s: string): (d: Derived)
    ensures d.Derived? ==> |d.rest| < |s|
    decreases |s|, 0
  {
    var next := Scan(s);
    if !next.Read? then Underivable
    else if next.token.Value? then Derived(next.token.v, next.rest)
    else if next.token.c == '[' then
      (if Marks(next.rest, ']') then Derived(JArray([]), Scan(next.rest).rest) else DeriveElements(next.rest, []))
    else if next.token.c == '{' then
      (if Marks(next.rest, '}') then Derived(JObject([]), Scan(next.rest).rest) else DeriveMembers(next.rest, []))
    else Underivable
  }

  function DeriveElements(s: string, before: seq<Json>): (d: Derived)
    ensures d.Derived? ==> |d.rest| < |s|
    decreases |s|, 1
  {
    var d := DeriveValue(s);
    if !d.Derived? then Underivable
    else if Marks(d.rest, ']') then Derived(JArray(before + [d.t]), Scan(d.rest).rest)
    else if Marks(d.rest, ',') then DeriveElements(Scan(d.rest).rest, before + [d.t])
    else Underivable
  }

  function DeriveMember(s: string): (d: DerivedMember)
    ensures d.DerivedMember? ==> |d.rest| < |s|
    decreases |s|, 1
  {
    var key := Scan(s);
    if key.Read? && key.token.Value? && key.token.v.JString? && Marks(key.rest, ':') then
      var d := DeriveValue(Scan(key.rest).rest);
      if d.Derived? then DerivedMember(JMember(key.token.v.units, d.t), d.rest) else NoMember
    else NoMember
  }

  function DeriveMembers(s: string, before: seq<JMember>): (d: Derived)
    ensures d.Derived? ==> |d.rest| < |s|
    decreases |s|, 2
  {
    var d := DeriveMember(s);
    if !d.DerivedMember? then Underivable
    else if Marks(d.rest, '}') then Derived(JObject(before + [d.m]), Scan(d.rest).rest)
    else if Marks(d.rest, ',') then DeriveMembers(Scan(d.rest).rest, before + [d.m])
    else Underivable
  }

  /** A whole text: one value and nothing after it. */
  function DeriveText(s: string): Derived {
    var d := DeriveValue(s);
    if d.Derived? && Scan(d.rest).AtTheEnd? then d else Underivable
  }

  // ---- Objects ----

  /** Of several members with the same key the last one counts, section 15.12.2. */
  function JPut(ms: seq<JMember>, m: JMember): seq<JMember> {
    if ms == [] then [m]
    else if ms[0].key == m.key then [m] + ms[1..]
    else [ms[0]] + JPut(ms[1..], m)
  }

  function JDefine(ms: seq<JMember>): seq<JMember> {
    if ms == [] then [] else JPut(JDefine(ms[..|ms| - 1]), JMember(ms[|ms| - 1].key, JMerged(ms[|ms| - 1].value)))
  }

  function JDefineAll(es: seq<Json>): (r: seq<Json>)
    ensures |r| == |es| && forall k: nat {:trigger r[k]} :: k < |es| ==> r[k] == JMerged(es[k])
  {
    seq(|es|, k requires 0 <= k < |es| => JMerged(es[k]))
  }

  function JMerged(t: Json): Json {
    match t
    case JArray(es) => JArray(JDefineAll(es))
    case JObject(ms) => JObject(JDefine(ms))
    case _ => t
  }

  /** What a text means. */
  function ParseStrictly(s: string): Derived {
    var d := DeriveText(s);
    if d.Derived? then Derived(JMerged(d.t), d.rest) else Underivable
  }
}
