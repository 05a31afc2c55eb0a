/** Parsing JSON text, the way the engine does. */
module JsonParser {
  import opened Wrappers
  import opened JsonText
  import opened JsonLexer

  datatype Parsed = Parsed(t: Tree, rest: string) | Invalid | Crashed

  function Failed(p: Peeked): Parsed {
    if p.Panicked? then Crashed else Invalid
  }

  function ParseValue(s: string): (p: Parsed)
    ensures p.Parsed? ==> |p.rest| < |s|
    decreases |s|, 0
  {
    var next := NextToken(s);
    if !next.Got? then Failed(next)
    else match next.token
      case Literal(t) => Parsed(t, next.rest)
      case OpenBrace => ParseObject(next.rest)
      case OpenBracket => ParseArray(next.rest)
      case _ => Invalid
  }

  /** After the opening bracket. */
  function ParseArray(s: string): (p: Parsed)
    ensures p.Parsed? ==> |p.rest| < |s|
    decreases |s|, 2
  {
    var next := NextToken(s);
    if next.Got? && next.token == CloseBracket then Parsed(Arr([]), next.rest) else ParseElements(s, [])
  }

  function ParseElements(s: string, before: seq<Tree>): (p: Parsed)
    ensures p.Parsed? ==> |p.rest| < |s|
    decreases |s|, 1
  {
    match ParseValue(s)
    case Invalid => Invalid
    case Crashed => Crashed
    case Parsed(t, rest) =>
      var next := NextToken(rest);
      if !next.Got? then Failed(next)
      else if next.token == CloseBracket then Parsed(Arr(before + [t]), next.rest)
      else if next.token == Comma then ParseElements(next.rest, before + [t])
      else Invalid
  }

  /** After the opening brace. */
  function ParseObject(s: string): (p: Parsed)
    ensures p.Parsed? ==> |p.rest| < |s|
    decreases |s|, 3
  {
    var next := NextToken(s);
    if next.Got? && next.token == CloseBrace then Parsed(Obj([]), next.rest) else ParseMembers(s, [])
  }

  /** A colon may be missing. */
  function SkipColon(s: string): (rest: string)
    ensures |rest| <= |s|
  {
    var next := NextToken(s);
    if next.Got? && next.token == Colon then next.rest else s
  }

  datatype Entry = Entry(m: Member, rest: string) | BadEntry | CrashedEntry

  /** A key, a colon or none, and a value. */
  function ParseMember(s: string): (e: Entry)
    ensures e.Entry? ==> |e.rest| < |s|
    decreases |s|, 1
  {
    var key := NextToken(s);
    if key.Panicked? then CrashedEntry
    else if !key.Got? || !key.token.Literal? || !key.token.t.Str? then BadEntry
    else
      match ParseValue(SkipColon(key.rest))
      case Invalid => BadEntry
      case Crashed => CrashedEntry
      case Parsed(t, rest) => Entry(Member(key.token.t.s, t), rest)
  }

  function ParseMembers(s: string, before: seq<Member>): (p: Parsed)
    ensures p.Parsed? ==> |p.rest| < |s|
    decreases |s|, 2
  {
    match ParseMember(s)
    case BadEntry => Invalid
    case CrashedEntry => Crashed
    case Entry(m, rest) =>
      var next := NextToken(rest);
      if !next.Got? then Failed(next)
      else if next.token == CloseBrace then Parsed(Obj(before + [m]), next.rest)
      else if next.token == Comma then ParseMembers(next.rest, before + [m])
      else Invalid
  }

  /** A whole text: one value and nothing after it. All members are kept as they were read. */
  function ReadJson(s: string): Parsed {
    match ParseValue(s)
    case Parsed(t, rest) =>
      var next := NextToken(rest);
      if next.AtEnd? then Parsed(t, rest) else if next.Got? then Invalid else Failed(next)
    case p => p
  }

  // ---- Objects ----

  /** Defining a member replaces the value of a key that is there. */
  function Put(ms: seq<Member>, m: Member): seq<Member> {
    if ms == [] then [m]
    else if ms[0].key == m.key then [m] + ms[1..]
    else [ms[0]] + Put(ms[1..], m)
  }

  function Define(ms: seq<Member>): seq<Member> {
    if ms == [] then [] else Put(Define(ms[..|ms| - 1]), Member(ms[|ms| - 1].key, Merged(ms[|ms| - 1].value)))
  }

  function DefineAll(es: seq<Tree>): (r: seq<Tree>)
    ensures |r| == |es| && forall k: nat {:trigger r[k]} :: k < |es| ==> r[k] == Merged(es[k])
  {
    seq(|es|, k requires 0 <= k < |es| => Merged(es[k]))
  }

  /** What becomes of what was read: every object has the members that were defined on it. */
  function Merged(t: Tree): Tree {
    match t
    case Arr(es) => Arr(DefineAll(es))
    case Obj(ms) => Obj(Define(ms))
    case _ => t
  }

  function ParseJson(s: string): Parsed {
    match ReadJson(s)
    case Parsed(t, rest) => Parsed(Merged(t), rest)
    case p => p
  }

  lemma DefineNext(ms: seq<Member>, m: Member)
    ensures Define(ms + [m]) == Put(Define(ms), Member(m.key, Merged(m.value)))
  {
    assert (ms + [m])[..|ms + [m]| - 1] == ms;
  }

  lemma DefineAllNext(es: seq<Tree>, t: Tree)
    ensures DefineAll(es + [t]) == DefineAll(es) + [Merged(t)]
  {
  }

  // ---- The parser ----

  /** Parsing did what `p` says and left the rest of the text. */
  ghost predicate Gave(p: Parsed, r: Outcome<Tree>, rest: string) {
    match p
    case Parsed(t, rest') => r == Ok(Merged(t)) && rest == rest'
    case Invalid => r == SyntaxError
    case Crashed => r == Panic
  }

  class Parser {
    const lexer: Lexer

    constructor (lexer: Lexer)
      ensures this.lexer == lexer
    {
      this.lexer := lexer;
    }

    /** Takes the next token if it is this one. */
    method Consume(token: Token) returns (r: Outcome<bool>)
      requires lexer.Valid()
      modifies lexer
      ensures var next := NextToken(old(lexer.Rest()));
        match next
        case Got(t, rest) => r == Ok(t == token) && lexer.Valid() && lexer.Rest() == if t == token then rest else old(lexer.Rest())
        case AtEnd => r == Ok(false) && lexer.Valid() && lexer.Rest() == old(lexer.Rest())
        case Unreadable => r == SyntaxError
        case Panicked => r == Panic
    {
      var p := lexer.Peek();
      if !p.Ok? {
        return if p.Panic? then Panic else SyntaxError;
      }
      if p.value == Some(token) {
        var t := lexer.Next();
        return Ok(true);
      }
      r := Ok(false);
    }

    /** Takes the next token, which must be this one. */
    method Expect(token: Token) returns (r: Outcome<()>)
      requires lexer.Valid()
      modifies lexer
      ensures var next := NextToken(old(lexer.Rest()));
        if next.Got? && next.token == token then r == Ok(()) && lexer.Valid() && lexer.Rest() == next.rest
        else r == if next.Panicked? then Panic else SyntaxError
    {
      var t := lexer.Next();
      r := if t.Panic? then Panic else if t == Ok(token) then Ok(()) else SyntaxError;
    }

    /** Parses a whole text. */
    method ParseAll() returns (r: Outcome<Tree>)
      requires lexer.Valid()
      modifies lexer
      ensures match ParseJson(old(lexer.Rest()))
              case Parsed(t, _) => r == Ok(t)
              case Invalid => r == SyntaxError
              case Crashed => r == Panic
    {
      hide ParseValue;
      r := ParseTree();
      if r.Ok? {
        var p := lexer.Peek();
        if !p.Ok? {
          r := if p.Panic? then Panic else SyntaxError;
        } else if p.value.Some? {
          r := SyntaxError;
        }
      }
    }

    method ParseTree() returns (r: Outcome<Tree>)
      requires lexer.Valid()
      modifies lexer
      ensures Gave(ParseValue(old(lexer.Rest())), r, if r.Ok? && lexer.Valid() then lexer.Rest() else "") && (r.Ok? ==> lexer.Valid())
      decreases |lexer.Rest()|, 0
    {
      hide NextToken, ParseArray, ParseObject;
      var token := lexer.Next();
      if !token.Ok? {
        return if token.Panic? then Panic else SyntaxError;
      }
      match token.value
      case Literal(t) => r := Ok(t);
      case OpenBrace => r := ParseObjectTree();
      case OpenBracket => r := ParseArrayTree();
      case _ => r := SyntaxError;
    }

    method ParseArrayTree() returns (r: Outcome<Tree>)
      requires lexer.Valid()
      modifies lexer
      ensures Gave(ParseArray(old(lexer.Rest())), r, if r.Ok? && lexer.Valid() then lexer.Rest() else "") && (r.Ok? ==> lexer.Valid())
      decreases |lexer.Rest()|, 2
    {
      hide NextToken, ParseValue, ParseMember, Put;
      ghost var all := lexer.Rest();
      var closed := Consume(CloseBracket);
      FirstElement(all);
      if !closed.Ok? {
        return if closed.Panic? then Panic else SyntaxError;
      }
      var elements: seq<Tree> := [];
      ghost var read: seq<Tree> := [];
      if closed.value {
        return Ok(Arr(elements));
      }
      while true
        invariant lexer.Valid() && |lexer.Rest()| <= |all| && ParseArray(all) == ParseElements(lexer.Rest(), read)
        invariant elements == DefineAll(read)
        decreases |lexer.Rest()|
      {
        ghost var p := ParseValue(lexer.Rest());
        var value := ParseTree();
        if !value.Ok? {
          return value;
        }
        DefineAllNext(read, p.t);
        read := read + [p.t];
        elements := elements + [value.value];
        closed := Consume(CloseBracket);
        if !closed.Ok? {
          return if closed.Panic? then Panic else SyntaxError;
        }
        if closed.value {
          return Ok(Arr(elements));
        }
        var comma := Expect(Comma);
        if !comma.Ok? {
          return if comma.Panic? then Panic else SyntaxError;
        }
      }
    }

    method ParseEntry() returns (r: Outcome<Member>)
      requires lexer.Valid()
      modifies lexer
      ensures match ParseMember(old(lexer.Rest()))
              case Entry(m, rest) => r == Ok(Member(m.key, Merged(m.value))) && lexer.Valid() && lexer.Rest() == rest
              case BadEntry => r == SyntaxError
              case CrashedEntry => r == Panic
      decreases |lexer.Rest()|, 1
    {
      hide NextToken, ParseValue;
      var key := lexer.Next();
      if !key.Ok? {
        return if key.Panic? then Panic else SyntaxError;
      }
      if !(key.value.Literal? && key.value.t.Str?) {
        return SyntaxError;
      }
      MissingColon(lexer.Rest());
      var colon := Consume(Colon);
      if !colon.Ok? {
        return if colon.Panic? then Panic else SyntaxError;
      }
      var value := ParseTree();
      r := if value.Ok? then Ok(Member(key.value.t.s, value.value)) else if value.Panic? then Panic else SyntaxError;
    }

    method ParseObjectTree() returns (r: Outcome<Tree>)
      requires lexer.Valid()
      modifies lexer
      ensures Gave(ParseObject(old(lexer.Rest())), r, if r.Ok? && lexer.Valid() then lexer.Rest() else "") && (r.Ok? ==> lexer.Valid())
      decreases |lexer.Rest()|, 2
    {
      hide NextToken, ParseValue, ParseMember, Put;
      ghost var all := lexer.Rest();
      var closed := Consume(CloseBrace);
      FirstMember(all);
      if !closed.Ok? {
        return if closed.Panic? then Panic else SyntaxError;
      }
      var members: seq<Member> := [];
      ghost var read: seq<Member> := [];
      if closed.value {
        return Ok(Obj(members));
      }
      while true
        invariant lexer.Valid() && |lexer.Rest()| <= |all| && ParseObject(all) == ParseMembers(lexer.Rest(), read)
        invariant members == Define(read)
        decreases |lexer.Rest()|
      {
        ghost var e := ParseMember(lexer.Rest());
        var member := ParseEntry();
        if !member.Ok? {
          return if member.Panic? then Panic else SyntaxError;
        }
        DefineNext(read, e.m);
        read := read + [e.m];
        members := Put(members, member.value);
        closed := Consume(CloseBrace);
        if !closed.Ok? {
          return if closed.Panic? then Panic else SyntaxError;
        }
        if closed.value {
          return Ok(Obj(members));
        }
        var comma := Expect(Comma);
        if !comma.Ok? {
          return if comma.Panic? then Panic else SyntaxError;
        }
      }
    }
  }

  /** What cannot be read fails in the same way one level further down. */
  lemma FirstElement(s: string)
    ensures !NextToken(s).Got? ==> ParseArray(s) == Failed(NextToken(s))
  {
    hide NextToken;
    assert !NextToken(s).Got? ==> ParseElements(s, []) == ParseValue(s) == Failed(NextToken(s));
  }

  lemma FirstMember(s: string)
    ensures !NextToken(s).Got? ==> ParseObject(s) == Failed(NextToken(s))
  {
    hide NextToken;
    assert !NextToken(s).Got? ==> ParseMembers(s, []) == Failed(NextToken(s));
  }

  lemma MissingColon(s: string)
    ensures !NextToken(s).Got? ==> ParseValue(SkipColon(s)) == Failed(NextToken(s))
  {
    hide NextToken;
  }
}
