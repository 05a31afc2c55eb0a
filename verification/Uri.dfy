/** Escaping and unescaping URIs, section 15.1.3 of ECMA-262 5.1: text is UTF-16, escapes are UTF-8 octets. */
module Uri {
  import opened Wrappers

  type Unit = c: nat | c < 0x1_0000 witness 0
  type Octet = o: nat | o < 0x100 witness 0

  const PERCENT: nat := 0x25

  // ---- Characters that are not escaped ----

  predicate IsUnescaped(c: nat) {
    c < 128 && var ch := c as char; 'a' <= ch <= 'z' || 'A' <= ch <= 'Z' || '0' <= ch <= '9' || ch in "-_.!~*'()"
  }

  predicate IsReserved(c: nat) {
    c < 128 && c as char in ";/?:@&=+$,"
  }

  /** The characters that are never escaped, one by one. */
  const UNESCAPED := "ABCDEFGHIJKLMNOPQRSTUVWXYZ" + "abcdefghijklmnopqrstuvwxyz" + "0123456789" + "-_.!~*'()"

  lemma UnescapedExactly(c: nat)
    ensures IsUnescaped(c) <==> c < 128 && c as char in UNESCAPED
  {
    var upper, lower, digits := "ABCDEFGHIJKLMNOPQRSTUVWXYZ", "abcdefghijklmnopqrstuvwxyz", "0123456789";
    assert forall k: nat :: k < 26 ==> upper[k] == 'A' + k as char && lower[k] == 'a' + k as char;
    assert forall k: nat :: k < 10 ==> digits[k] == '0' + k as char;
    if c < 128 {
      var ch := c as char;
      assert 'A' <= ch <= 'Z' ==> upper[ch as int - 'A' as int] == ch;
      assert 'a' <= ch <= 'z' ==> lower[ch as int - 'a' as int] == ch;
      assert '0' <= ch <= '9' ==> digits[ch as int - '0' as int] == ch;
      assert ch in UNESCAPED <==> ch in upper || ch in lower || ch in digits || ch in "-_.!~*'()";
    }
  }

  function EncodeUriSet(): nat -> bool {
    (c: nat) => IsReserved(c) || IsUnescaped(c) || c == '#' as nat
  }

  function DecodeUriSet(): nat -> bool {
    (c: nat) => IsReserved(c) || c == '#' as nat
  }

  function EncodeComponentSet(): nat -> bool {
    (c: nat) => IsUnescaped(c)
  }

  function DecodeComponentSet(): nat -> bool {
    (c: nat) => false
  }

  // ---- UTF-16 ----

  predicate IsHigh(c: Unit) {
    0xD800 <= c <= 0xDBFF
  }

  predicate IsLow(c: Unit) {
    0xDC00 <= c <= 0xDFFF
  }

  /** A Unicode scalar value: a code point that is not a surrogate. */
  predicate IsScalar(c: nat) {
    c < 0xD800 || 0xE000 <= c < 0x11_0000
  }

  function Pair(high: Unit, low: Unit): (c: nat)
    requires IsHigh(high) && IsLow(low)
    ensures IsScalar(c) && c >= 0x1_0000
  {
    (high - 0xD800) * 0x400 + (low - 0xDC00) + 0x1_0000
  }

  function Utf16(c: nat): seq<Unit>
    requires IsScalar(c)
  {
    if c < 0x1_0000 then [c] else [(c - 0x1_0000) / 0x400 % 0x400 + 0xD800, (c - 0x1_0000) % 0x400 + 0xDC00]
  }

  /** Every high surrogate is followed by a low one, and every low one follows a high one. */
  predicate WellPaired(s: seq<Unit>) {
    if s == [] then true
    else if IsHigh(s[0]) then |s| >= 2 && IsLow(s[1]) && WellPaired(s[2..])
    else !IsLow(s[0]) && WellPaired(s[1..])
  }

  lemma PairedAgain(high: Unit, low: Unit)
    requires IsHigh(high) && IsLow(low)
    ensures Utf16(Pair(high, low)) == [high, low]
  {
  }

  // ---- UTF-8, section 3 of RFC 3629 ----

  function Utf8(c: nat): (o: seq<Octet>)
    requires IsScalar(c)
    ensures 1 <= |o| <= 4
  {
    var c6 := c / 0x40;
    var c12 := c6 / 0x40;
    if c < 0x80 then [c]
    else if c < 0x800 then [0xC0 + c6, 0x80 + c % 0x40]
    else if c < 0x1_0000 then [0xE0 + c12, 0x80 + c6 % 0x40, 0x80 + c % 0x40]
    else [0xF0 + c12 / 0x40, 0x80 + c12 % 0x40, 0x80 + c6 % 0x40, 0x80 + c % 0x40]
  }

  predicate IsTail(o: Octet) {
    o / 0x40 == 2
  }

  function Lead(o: Octet, mark: nat): nat
    requires o >= mark
  {
    o - mark
  }

  function Tail(o: Octet): nat
    requires IsTail(o)
  {
    o - 0x80
  }

  /** The one character in these octets: the shortest form of a scalar value, or nothing. */
  function FromUtf8(o: seq<Octet>): (c: Option<nat>)
    ensures c.Some? ==> IsScalar(c.value)
  {
    var c :=
      if |o| == 1 && o[0] < 0x80 then Some(o[0])
      else if |o| == 2 && 0xC0 <= o[0] < 0xE0 && IsTail(o[1]) then
        var c := Lead(o[0], 0xC0) * 0x40 + Tail(o[1]); if c < 0x80 then None else Some(c)
      else if |o| == 3 && 0xE0 <= o[0] < 0xF0 && IsTail(o[1]) && IsTail(o[2]) then
        var c := Lead(o[0], 0xE0) * 0x1000 + Tail(o[1]) * 0x40 + Tail(o[2]); if c < 0x800 then None else Some(c)
      else if |o| == 4 && 0xF0 <= o[0] < 0xF8 && IsTail(o[1]) && IsTail(o[2]) && IsTail(o[3]) then
        var c := Lead(o[0], 0xF0) * 0x4_0000 + Tail(o[1]) * 0x1000 + Tail(o[2]) * 0x40 + Tail(o[3]);
        if c < 0x1_0000 then None else Some(c)
      else None;
    if c.Some? && IsScalar(c.value) then c else None
  }

  /** Octets are a character exactly if they are its encoding: no longer form, no surrogate. */
  lemma Utf8Exactly(o: seq<Octet>, c: nat)
    requires IsScalar(c)
    ensures FromUtf8(o) == Some(c) <==> o == Utf8(c)
  {
    if c < 0x800 {
      Utf8Short(o, c);
    } else if c < 0x1_0000 {
      Utf8Three(o, c);
    } else {
      Utf8Four(o, c);
    }
  }

  lemma Utf8Short(o: seq<Octet>, c: nat)
    requires c < 0x800
    ensures FromUtf8(o) == Some(c) <==> o == Utf8(c)
  {
  }

  lemma Utf8Three(o: seq<Octet>, c: nat)
    requires IsScalar(c) && 0x800 <= c < 0x1_0000
    ensures FromUtf8(o) == Some(c) <==> o == Utf8(c)
  {
    if |o| == 3 && 0xE0 <= o[0] < 0xF0 && IsTail(o[1]) && IsTail(o[2]) {
      var x, y, z := Lead(o[0], 0xE0), Tail(o[1]), Tail(o[2]);
      assert (x * 0x1000 + y * 0x40 + z) / 0x40 == x * 0x40 + y;
    }
  }

  lemma Utf8Four(o: seq<Octet>, c: nat)
    requires 0x1_0000 <= c < 0x11_0000
    ensures FromUtf8(o) == Some(c) <==> o == Utf8(c)
  {
    if |o| == 4 && 0xF0 <= o[0] < 0xF8 && IsTail(o[1]) && IsTail(o[2]) && IsTail(o[3]) {
      var w, x, y, z := Lead(o[0], 0xF0), Tail(o[1]), Tail(o[2]), Tail(o[3]);
      assert (w * 0x4_0000 + x * 0x1000 + y * 0x40 + z) / 0x40 == w * 0x1000 + x * 0x40 + y;
      assert (w * 0x1000 + x * 0x40 + y) / 0x40 == w * 0x40 + x;
    }
  }

  // ---- Escapes ----

  function ToHex(d: nat): Unit
    requires d < 16
  {
    if d < 10 then '0' as nat + d else 'A' as nat + (d - 10)
  }

  function ParseHex(c: Unit): (d: Option<nat>)
    ensures d.Some? ==> d.value < 16
  {
    if '0' as nat <= c <= '9' as nat then Some(c - '0' as nat)
    else if 'a' as nat <= c <= 'f' as nat then Some(c - 'a' as nat + 10)
    else if 'A' as nat <= c <= 'F' as nat then Some(c - 'A' as nat + 10)
    else None
  }

  /** Digits are written in upper case and read in both. */
  lemma HexExactly(c: Unit, d: nat)
    ensures d < 16 ==> ToHex(d) == "0123456789ABCDEF"[d] as nat
    ensures ParseHex(c) == Some(d) <==> d < 16 && (c == "0123456789ABCDEF"[d] as nat || c == "0123456789abcdef"[d] as nat)
  {
    var upper, lower := "0123456789ABCDEF", "0123456789abcdef";
    assert forall k: nat :: k < 10 ==> upper[k] == lower[k] == '0' + k as char;
    assert forall k: nat :: 10 <= k < 16 ==> upper[k] == 'A' + (k - 10) as char && lower[k] == 'a' + (k - 10) as char;
  }

  predicate IsUpperHex(c: Unit) {
    c < 128 && c as char in "0123456789ABCDEF"
  }

  function EscapeOctet(o: Octet): seq<Unit> {
    [PERCENT, ToHex(o / 16), ToHex(o % 16)]
  }

  function Escape(o: seq<Octet>): (s: seq<Unit>)
    ensures |s| == 3 * |o|
  {
    if o == [] then [] else EscapeOctet(o[0]) + Escape(o[1..])
  }

  /** The escape that starts here; only called at a percent sign. */
  function ReadOctet(s: seq<Unit>): Option<Octet> {
    if |s| < 3 then None
    else
      var high, low := ParseHex(s[1]), ParseHex(s[2]);
      if high.Some? && low.Some? then Some(high.value * 16 + low.value) else None
  }

  function Then<T>(before: seq<T>, rest: Option<seq<T>>): Option<seq<T>> {
    if rest.None? then None else Some(before + rest.value)
  }

  lemma ThenNothing<T>(s: seq<T>, rest: Option<seq<T>>)
    ensures Then([], rest) == rest && Then(s, Some([])) == Some(s)
  {
    assert s + [] == s;
    if rest.Some? {
      assert [] + rest.value == rest.value;
    }
  }

  lemma ThenThen<T>(a: seq<T>, b: seq<T>, rest: Option<seq<T>>)
    ensures Then(a, Then(b, rest)) == Then(a + b, rest)
  {
    if rest.Some? {
      assert a + (b + rest.value) == a + b + rest.value;
    }
  }

  /** The next `n` escapes, all of them later octets of a character. */
  function ReadTail(s: seq<Unit>, n: nat): Option<seq<Octet>> {
    if n == 0 then Some([])
    else if s == [] || s[0] != PERCENT || ReadOctet(s).None? || !IsTail(ReadOctet(s).value) then None
    else Then([ReadOctet(s).value], ReadTail(s[3..], n - 1))
  }

  /** How many octets a character has that starts with this one: the one bits before the first zero bit. */
  function LeadingOnes(o: Octet): nat {
    if o < 0x80 then 0 else if o < 0xC0 then 1 else if o < 0xE0 then 2 else if o < 0xF0 then 3
    else if o < 0xF8 then 4 else if o < 0xFC then 5 else 6
  }

  lemma Utf8Leads(c: nat)
    requires IsScalar(c)
    ensures var o := Utf8(c);
      && (o[0] < 0x80 <==> c < 0x80) && (c >= 0x80 ==> LeadingOnes(o[0]) == |o|)
      && (forall k: nat :: 1 <= k < |o| ==> IsTail(o[k]))
  {
  }

  lemma HexRead(o: Octet, s: seq<Unit>)
    ensures ReadOctet(EscapeOctet(o) + s) == Some(o) && (EscapeOctet(o) + s)[3..] == s
  {
  }

  lemma {:induction false} TailRead(o: seq<Octet>, s: seq<Unit>)
    requires forall k: nat :: k < |o| ==> IsTail(o[k])
    ensures ReadTail(Escape(o) + s, |o|) == Some(o)
  {
    if o != [] {
      var rest := Escape(o[1..]) + s;
      assert Escape(o) + s == EscapeOctet(o[0]) + rest;
      HexRead(o[0], rest);
      TailRead(o[1..], s);
      assert [o[0]] + o[1..] == o;
    }
  }

  // ---- Encoding ----

  /** The escaped text: characters in the set as they are, others as the escapes of their octets. */
  function Encoded(s: seq<Unit>, passes: nat -> bool): Option<seq<Unit>> {
    if s == [] then Some([])
    else if IsScalar(s[0]) && passes(s[0]) then Then([s[0]], Encoded(s[1..], passes))
    else if IsLow(s[0]) then None
    else if !IsHigh(s[0]) then Then(Escape(Utf8(s[0])), Encoded(s[1..], passes))
    else if |s| < 2 || !IsLow(s[1]) then None
    else Then(Escape(Utf8(Pair(s[0], s[1]))), Encoded(s[2..], passes))
  }

  /** Encoding fails exactly on text with an unpaired surrogate. */
  lemma {:induction false} EncodesWellPaired(s: seq<Unit>, passes: nat -> bool)
    ensures Encoded(s, passes).Some? <==> WellPaired(s)
  {
    if s != [] {
      EncodesWellPaired(s[1..], passes);
      if |s| >= 2 {
        EncodesWellPaired(s[2..], passes);
      }
    }
  }

  /** Escaped text holds nothing but percent signs, hexadecimal digits in upper case and characters of the set. */
  lemma {:induction false} EncodedIsPlain(s: seq<Unit>, passes: nat -> bool)
    requires Encoded(s, passes).Some?
    ensures forall c: Unit :: c in Encoded(s, passes).value ==> c == PERCENT || IsUpperHex(c) || passes(c)
  {
    if s != [] {
      if IsScalar(s[0]) && passes(s[0]) {
        EncodedIsPlain(s[1..], passes);
      } else if !IsHigh(s[0]) {
        EscapeIsPlain(Utf8(s[0]));
        EncodedIsPlain(s[1..], passes);
      } else {
        EscapeIsPlain(Utf8(Pair(s[0], s[1])));
        EncodedIsPlain(s[2..], passes);
      }
    }
  }

  lemma {:induction false} EscapeIsPlain(o: seq<Octet>)
    ensures forall c: Unit :: c in Escape(o) ==> c == PERCENT || IsUpperHex(c)
  {
    if o != [] {
      EscapeIsPlain(o[1..]);
      HexExactly(0, o[0] / 16);
      HexExactly(0, o[0] % 16);
    }
  }

  // ---- Decoding ----

  /** What the escapes at the start stand for, and how many units they take. */
  function ReadCharacter(s: seq<Unit>): (r: Option<(nat, nat)>)
    requires s != []
    ensures r.Some? ==> 0 < r.value.1 <= |s| && IsScalar(r.value.0)
  {
    var first := ReadOctet(s);
    if first.None? then None
    else if first.value < 0x80 then Some((first.value, 3))
    else
      var n := LeadingOnes(first.value);
      if n == 1 || n > 4 || 3 * n > |s| then None
      else
        var rest := ReadTail(s[3..], n - 1);
        if rest.None? then None
        else
          var c := FromUtf8([first.value] + rest.value);
          if c.None? then None else Some((c.value, 3 * n))
  }

  /** The text with its escapes replaced, except for those of characters in the set. */
  function Decoded(s: seq<Unit>, keeps: nat -> bool): Option<seq<Unit>> {
    if s == [] then Some([])
    else if s[0] != PERCENT then Then([s[0]], Decoded(s[1..], keeps))
    else
      var r := ReadCharacter(s);
      if r.None? then None
      else Then(if keeps(r.value.0) then s[..r.value.1] else Utf16(r.value.0), Decoded(s[r.value.1..], keeps))
  }

  lemma EscapeReads(c: nat, s: seq<Unit>)
    requires IsScalar(c)
    ensures Escape(Utf8(c)) + s != [] && (Escape(Utf8(c)) + s)[0] == PERCENT
    ensures ReadCharacter(Escape(Utf8(c)) + s) == Some((c, 3 * |Utf8(c)|))
  {
    hide FromUtf8;
    var o := Utf8(c);
    var rest := Escape(o[1..]) + s;
    assert Escape(o) + s == EscapeOctet(o[0]) + rest;
    HexRead(o[0], rest);
    Utf8Leads(c);
    TailRead(o[1..], s);
    Utf8Exactly(o, c);
    assert [o[0]] + o[1..] == o;
  }

  lemma EscapeDecodes(c: nat, e: seq<Unit>, keeps: nat -> bool)
    requires IsScalar(c) && !keeps(c)
    ensures Decoded(Escape(Utf8(c)) + e, keeps) == Then(Utf16(c), Decoded(e, keeps))
  {
    hide ReadCharacter, Utf8;
    EscapeReads(c, e);
    assert (Escape(Utf8(c)) + e)[3 * |Utf8(c)|..] == e;
  }

  /** Every character in the set of the decoder is in that of the encoder, and the percent sign is in neither. */
  ghost predicate Matching(passes: nat -> bool, keeps: nat -> bool) {
    !passes(PERCENT) && forall c: nat :: keeps(c) ==> passes(c) && c < 0x1_0000
  }

  /** The four sets of section 15.1.3, character by character. */
  lemma SetsExactly(c: nat)
    ensures EncodeUriSet()(c) <==> c < 128 && c as char in UNESCAPED + ";/?:@&=+$," + "#"
    ensures EncodeComponentSet()(c) <==> c < 128 && c as char in UNESCAPED
    ensures DecodeUriSet()(c) <==> c < 128 && c as char in ";/?:@&=+$," + "#"
    ensures !DecodeComponentSet()(c)
  {
    hide IsUnescaped;
    UnescapedExactly(c);
    if c < 128 {
      var ch := c as char;
      assert ch in UNESCAPED + ";/?:@&=+$," + "#" <==> ch in UNESCAPED || ch in ";/?:@&=+$," || ch in "#";
      assert ch in ";/?:@&=+$," + "#" <==> ch in ";/?:@&=+$," || ch in "#";
    }
  }

  lemma BothPairsMatch()
    ensures Matching(EncodeUriSet(), DecodeUriSet()) && Matching(EncodeComponentSet(), DecodeComponentSet())
  {
  }

  /** Decoding what was encoded gives the same text back. */
  lemma {:induction false} RoundTrip(s: seq<Unit>, passes: nat -> bool, keeps: nat -> bool)
    requires Matching(passes, keeps) && WellPaired(s)
    ensures Encoded(s, passes).Some? && Decoded(Encoded(s, passes).value, keeps) == Some(s)
  {
    EncodesWellPaired(s, passes);
    if s != [] {
      if IsScalar(s[0]) && passes(s[0]) {
        RoundTrip(s[1..], passes, keeps);
        var e := Encoded(s[1..], passes).value;
        assert ([s[0]] + e)[1..] == e && [s[0]] + s[1..] == s;
      } else if !IsHigh(s[0]) {
        RoundTrip(s[1..], passes, keeps);
        EscapeDecodes(s[0], Encoded(s[1..], passes).value, keeps);
        assert [s[0]] + s[1..] == s;
      } else {
        RoundTrip(s[2..], passes, keeps);
        var c := Pair(s[0], s[1]);
        EscapeDecodes(c, Encoded(s[2..], passes).value, keeps);
        PairedAgain(s[0], s[1]);
        assert [s[0], s[1]] + s[2..] == s;
      }
    }
  }

  // ---- The loops ----

  method Encode(s: seq<Unit>, passes: nat -> bool) returns (r: Option<seq<Unit>>)
    ensures r == Encoded(s, passes)
  {
    var result: seq<Unit> := [];
    var i := 0;
    assert s[0..] == s;
    ThenNothing([], Encoded(s, passes));
    while i < |s|
      invariant i <= |s| && Encoded(s, passes) == Then(result, Encoded(s[i..], passes))
    {
      var value := s[i];
      assert s[i..][1..] == s[i + 1..];
      if IsScalar(value) && passes(value) {
        ThenThen(result, [value], Encoded(s[i + 1..], passes));
        result := result + [value];
      } else {
        var codePoint: nat;
        if IsLow(value) {
          return None;
        } else if !IsHigh(value) {
          codePoint := value;
        } else {
          i := i + 1;
          if i == |s| || !IsLow(s[i]) {
            return None;
          }
          codePoint := Pair(value, s[i]);
          assert s[i - 1..][2..] == s[i + 1..];
        }
        ThenThen(result, Escape(Utf8(codePoint)), Encoded(s[i + 1..], passes));
        result := PushEscapes(result, Utf8(codePoint));
      }
      i := i + 1;
    }
    ThenNothing(result, Some([]));
    r := Some(result);
  }

  method PushEscapes(start: seq<Unit>, octets: seq<Octet>) returns (result: seq<Unit>)
    ensures result == start + Escape(octets)
  {
    result := start;
    for k := 0 to |octets|
      invariant result + Escape(octets[k..]) == start + Escape(octets)
    {
      assert octets[k..][0] == octets[k] && octets[k..][1..] == octets[k + 1..];
      result := result + [PERCENT];
      result := result + [ToHex(octets[k] / 16)];
      result := result + [ToHex(octets[k] % 16)];
    }
  }

  /** Shifting an octet to the left drops what leaves it. */
  function ShiftLeft(o: Octet, n: nat): Octet
    decreases n
  {
    if n == 0 then o else ShiftLeft(o * 2 % 0x100, n - 1)
  }

  lemma NextBit(o: Octet, n: nat)
    requires o >= 0x80 && 1 <= n <= LeadingOnes(o) && n <= 5
    ensures ShiftLeft(o, n) >= 0x80 <==> LeadingOnes(o) > n
  {
    var o1: Octet := o * 2 % 0x100;
    var o2: Octet := o1 * 2 % 0x100;
    var o3: Octet := o2 * 2 % 0x100;
    var o4: Octet := o3 * 2 % 0x100;
    assert ShiftLeft(o, n) == ShiftLeft(o1, n - 1);
    if n >= 2 {
      assert ShiftLeft(o1, n - 1) == ShiftLeft(o2, n - 2);
    }
    if n >= 3 {
      assert ShiftLeft(o2, n - 2) == ShiftLeft(o3, n - 3);
    }
    if n >= 4 {
      assert ShiftLeft(o3, n - 3) == ShiftLeft(o4, n - 4);
    }
  }

  /** The length of a character from its first octet, bit by bit. */
  method CountOctets(value: Octet) returns (n: nat)
    requires value >= 0x80
    ensures n == LeadingOnes(value)
  {
    n := 1;
    while n <= 5
      invariant 1 <= n <= LeadingOnes(value)
    {
      NextBit(value, n);
      if ShiftLeft(value, n) < 0x80 {
        return;
      }
      n := n + 1;
    }
  }

  /** The character that starts with an escaped octet of 128 or more. */
  method DecodeCharacter(s: seq<Unit>, start: nat, value: Octet) returns (r: Option<(nat, nat)>)
    requires start + 3 <= |s| && value >= 0x80 && ReadOctet(s[start..]) == Some(value)
    ensures r == ReadCharacter(s[start..])
  {
    var n := CountOctets(value);
    if n == 1 || n > 4 {
      return None;
    }
    var octets := [value];
    var i := start + 3;
    if i + 3 * (n - 1) > |s| {
      return None;
    }
    assert s[start..][3..] == s[i..];
    ThenNothing([], ReadTail(s[i..], n - 1));
    assert octets[1..] == [];
    for k := 1 to n
      invariant i == start + 3 * k && |octets| == k
      invariant ReadTail(s[start + 3..], n - 1) == Then(octets[1..], ReadTail(s[i..], n - k))
      invariant octets[0] == value
    {
      var part := DecodePart(s, i);
      if part.None? || part.value.None? || part.value.value / 0x40 != 2 {
        return None;
      }
      assert s[i..][3..] == s[i + 3..];
      ThenThen(octets[1..], [part.value.value], ReadTail(s[i + 3..], n - k - 1));
      assert (octets + [part.value.value])[1..] == octets[1..] + [part.value.value];
      i := i + 3;
      octets := octets + [part.value.value];
    }
    ThenNothing(octets[1..], Some([]));
    assert octets == [value] + octets[1..];
    var c := FromUtf8(octets);
    r := if c.None? then None else Some((c.value, 3 * n));
  }

  /** The octet escaped at an offset: an error, or none if there is no escape there. */
  method DecodePart(s: seq<Unit>, offset: nat) returns (r: Option<Option<Octet>>)
    requires offset < |s|
    ensures r == if s[offset] != PERCENT then Some(None) else if ReadOctet(s[offset..]).None? then None else Some(ReadOctet(s[offset..]))
  {
    if s[offset] == PERCENT {
      if offset + 2 >= |s| {
        return None;
      }
      var high, low := ParseHex(s[offset + 1]), ParseHex(s[offset + 2]);
      if high.None? || low.None? {
        return None;
      }
      return Some(Some(high.value * 16 + low.value));
    }
    return Some(None);
  }

  method Decode(s: seq<Unit>, keeps: nat -> bool) returns (r: Option<seq<Unit>>)
    ensures r == Decoded(s, keeps)
  {
    hide FromUtf8, ReadTail, LeadingOnes;
    var result: seq<Unit> := [];
    var i := 0;
    assert s[0..] == s;
    ThenNothing([], Decoded(s, keeps));
    while i < |s|
      invariant i <= |s| && Decoded(s, keeps) == Then(result, Decoded(s[i..], keeps))
    {
      ghost var rest := s[i..];
      var part := DecodePart(s, i);
      if part.None? {
        return None;
      }
      if part.value.None? {
        assert rest[1..] == s[i + 1..];
        ThenThen(result, [s[i]], Decoded(s[i + 1..], keeps));
        result := result + [s[i]];
        i := i + 1;
      } else {
        var value := part.value.value;
        var character := Some((value as nat, 3));
        if value >= 0x80 {
          character := DecodeCharacter(s, i, value);
          if character.None? {
            return None;
          }
        }
        var (c, n) := character.value;
        assert rest[n..] == s[i + n..] && rest[..n] == s[i..i + n];
        ThenThen(result, if keeps(c) then s[i..i + n] else Utf16(c), Decoded(s[i + n..], keeps));
        if keeps(c) {
          result := result + s[i..i + n];
        } else {
          result := result + Utf16(c);
        }
        i := i + n;
      }
    }
    ThenNothing(result, Some([]));
    r := Some(result);
  }
}
