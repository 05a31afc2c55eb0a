/** JSON text, section 15.12 of ECMA-262 5.1: the trees it stands for and how they are written. */
module JsonText {
  datatype Tree = Null | Bool(b: bool) | Int(i: int) | Float(text: string) | Str(s: string) | Arr(elements: seq<Tree>) | Obj(members: seq<Member>)

  datatype Member = Member(key: string, value: Tree)

  /** A value of one token. */
  type Leaf = t: Tree | !t.Arr? && !t.Obj? witness Null

  /** What is written and read back: integers that fit 64 bits, and objects with distinct keys. */
  predicate WellFormed(t: Tree) {
    match t
    case Int(i) => -0x8000_0000_0000_0000 <= i < 0x8000_0000_0000_0000
    case Float(_) => false
    case Arr(es) => forall k: nat :: k < |es| ==> WellFormed(es[k])
    case Obj(ms) => (forall k: nat :: k < |ms| ==> WellFormed(ms[k].value)) && DistinctKeys(ms)
    case _ => true
  }

  predicate DistinctKeys(ms: seq<Member>) {
    forall j: nat, k: nat :: j < k < |ms| ==> ms[j].key != ms[k].key
  }

  // ---- Numbers ----

  function Digit(d: nat): char
    requires d < 10
  {
    (d + '0' as int) as char
  }

  function NatText(n: nat): (s: string)
    ensures |s| > 0
  {
    if n < 10 then [Digit(n)] else NatText(n / 10) + [Digit(n % 10)]
  }

  function IntText(i: int): (s: string)
    ensures |s| > 0
  {
    if i < 0 then "-" + NatText(-i) else NatText(i)
  }

  // ---- Strings ----

  function HexDigit(d: nat): char
    requires d < 16
  {
    if d < 10 then (d + '0' as int) as char else (d - 10 + 'a' as int) as char
  }

  function EscapeChar(c: char): (s: string)
    ensures |s| > 0
  {
    if c == '\"' then "\\\""
    else if c == '\\' then "\\\\"
    else if c == '\U{8}' then "\\b"
    else if c == '\U{C}' then "\\f"
    else if c == '\n' then "\\n"
    else if c == '\r' then "\\r"
    else if c == '\t' then "\\t"
    else if c < ' ' then ['\\', 'u', '0', '0', HexDigit(c as int / 16), HexDigit(c as int % 16)]
    else [c]
  }

  function EscapeText(s: string): string {
    if s == "" then "" else EscapeChar(s[0]) + EscapeText(s[1..])
  }

  function Quoted(s: string): string {
    "\"" + EscapeText(s) + "\""
  }

  // ---- Trees ----

  function Text(t: Tree): string {
    match t
    case Null => "null"
    case Bool(b) => if b then "true" else "false"
    case Int(i) => IntText(i)
    case Float(text) => text
    case Str(s) => Quoted(s)
    case Arr(es) => "[" + ElementsText(es) + "]"
    case Obj(ms) => "{" + MembersText(ms) + "}"
  }

  function ElementsText(es: seq<Tree>): string {
    if es == [] then "" else Text(es[0]) + MoreElements(es[1..])
  }

  function MoreElements(es: seq<Tree>): string {
    if es == [] then "" else "," + Text(es[0]) + MoreElements(es[1..])
  }

  function MemberText(m: Member): string {
    Quoted(m.key) + ":" + Text(m.value)
  }

  function MembersText(ms: seq<Member>): string {
    if ms == [] then "" else MemberText(ms[0]) + MoreMembers(ms[1..])
  }

  function MoreMembers(ms: seq<Member>): string {
    if ms == [] then "" else "," + MemberText(ms[0]) + MoreMembers(ms[1..])
  }

  // ---- Writing at the end ----

  function Separator(first: bool): string {
    if first then "" else ","
  }

  lemma {:induction false} ElementAppended(es: seq<Tree>, t: Tree)
    ensures ElementsText(es + [t]) == ElementsText(es) + Separator(es == []) + Text(t)
  {
    if es == [] {
      assert es + [t] == [t];
      assert Text(t) + MoreElements([]) == Text(t) == "" + "" + Text(t);
    } else {
      assert (es + [t])[1..] == es[1..] + [t];
      MoreAppended(es[1..], t);
      assert Text(es[0]) + (MoreElements(es[1..]) + "," + Text(t)) == Text(es[0]) + MoreElements(es[1..]) + "," + Text(t);
    }
  }

  lemma {:induction false} MoreAppended(es: seq<Tree>, t: Tree)
    ensures MoreElements(es + [t]) == MoreElements(es) + "," + Text(t)
  {
    if es == [] {
      assert es + [t] == [t];
      assert "," + Text(t) + MoreElements([]) == "" + "," + Text(t);
    } else {
      assert (es + [t])[1..] == es[1..] + [t];
      MoreAppended(es[1..], t);
      assert "," + Text(es[0]) + (MoreElements(es[1..]) + "," + Text(t)) == "," + Text(es[0]) + MoreElements(es[1..]) + "," + Text(t);
    }
  }

  lemma {:induction false} MemberAppended(ms: seq<Member>, m: Member)
    ensures MembersText(ms + [m]) == MembersText(ms) + Separator(ms == []) + MemberText(m)
  {
    if ms == [] {
      assert ms + [m] == [m];
      assert MemberText(m) + MoreMembers([]) == "" + "" + MemberText(m);
    } else {
      assert (ms + [m])[1..] == ms[1..] + [m];
      MoreMembersAppended(ms[1..], m);
      assert MemberText(ms[0]) + (MoreMembers(ms[1..]) + "," + MemberText(m)) == MemberText(ms[0]) + MoreMembers(ms[1..]) + "," + MemberText(m);
    }
  }

  lemma {:induction false} MoreMembersAppended(ms: seq<Member>, m: Member)
    ensures MoreMembers(ms + [m]) == MoreMembers(ms) + "," + MemberText(m)
  {
    if ms == [] {
      assert ms + [m] == [m];
      assert "," + MemberText(m) + MoreMembers([]) == "" + "," + MemberText(m);
    } else {
      assert (ms + [m])[1..] == ms[1..] + [m];
      MoreMembersAppended(ms[1..], m);
      assert "," + MemberText(ms[0]) + (MoreMembers(ms[1..]) + "," + MemberText(m)) == "," + MemberText(ms[0]) + MoreMembers(ms[1..]) + "," + MemberText(m);
    }
  }
}
