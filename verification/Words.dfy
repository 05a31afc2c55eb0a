/** Numbers as sequences of 32-bit words, least significant first. */
module Words {
  const BASE: int := 0x1_0000_0000

  type Word = w: int | 0 <= w < 0x1_0000_0000

  /** BASE to the n-th power. */
  function Power(n: nat): (p: nat)
    ensures p > 0
  {
    if n == 0 then 1 else BASE * Power(n - 1)
  }

  /** The number a sequence of words denotes. */
  function Number(s: seq<Word>): nat {
    if s == [] then 0 else Number(s[..|s| - 1]) + s[|s| - 1] * Power(|s| - 1)
  }

  // ---- Arithmetic ----

  lemma Distribute(a: int, b: int, p: int)
    ensures (a + b) * p == a * p + b * p && (a - b) * p == a * p - b * p
  {
  }

  lemma MulOrder(a: int, b: int, p: int)
    requires a <= b && p >= 0
    ensures a * p <= b * p
  {
    assert (b - a) * p >= 0;
    Distribute(b, a, p);
  }

  lemma MulStrict(a: int, b: int, p: int)
    requires a < b && p > 0
    ensures a * p < b * p
  {
    assert (b - a) * p > 0;
    Distribute(b, a, p);
  }

  lemma Associate(a: int, b: int, p: int)
    ensures a * (b * p) == a * b * p && (a * b) * p == a * (b * p)
  {
  }

  /** A column's total splits into the word that stays and the carry. */
  lemma Carry(t: nat, p: nat)
    ensures (t % BASE) * p + (t / BASE) * (BASE * p) == t * p
  {
    Associate(t / BASE, BASE, p);
    Distribute(t % BASE, t / BASE * BASE, p);
  }

  /** The same for a difference: the word, and whether one is borrowed from the next column. */
  lemma Borrow(t: int, p: nat)
    requires -BASE <= t < BASE
    ensures var w, b := if t < 0 then t + BASE else t, if t < 0 then 1 else 0;
      w * p - b * (BASE * p) == t * p
  {
    Distribute(t, BASE, p);
  }

  lemma {:induction false} PowerAdd(i: nat, j: nat)
    ensures Power(i + j) == Power(i) * Power(j)
  {
    if i > 0 {
      PowerAdd(i - 1, j);
      Associate(BASE, Power(i - 1), Power(j));
    }
  }

  lemma {:induction false} PowerOrder(i: nat, j: nat)
    requires i <= j
    ensures Power(i) <= Power(j)
    decreases j - i
  {
    if i < j {
      PowerOrder(i, j - 1);
    }
  }

  // ---- Prefixes ----

  lemma NextWord(s: seq<Word>, i: nat)
    requires i < |s|
    ensures Number(s[..i + 1]) == Number(s[..i]) + s[i] * Power(i)
  {
    assert s[..i + 1][..i] == s[..i];
  }

  lemma {:induction false} Bound(s: seq<Word>)
    ensures Number(s) < Power(|s|)
  {
    if s != [] {
      Bound(s[..|s| - 1]);
      var top: int := s[|s| - 1];
      MulOrder(top + 1, BASE, Power(|s| - 1));
      Distribute(top, 1, Power(|s| - 1));
    }
  }

  /** Zero words at the top do not matter. */
  lemma {:induction false} TopZeros(s: seq<Word>, i: nat, n: nat)
    requires i <= n <= |s| && forall k: nat {:trigger s[k]} :: i <= k < n ==> s[k] == 0
    ensures Number(s[..n]) == Number(s[..i])
    decreases n - i
  {
    if i < n {
      TopZeros(s, i, n - 1);
      NextWord(s, n - 1);
    }
  }

  lemma AtLeast(s: seq<Word>, n: nat)
    requires 0 < n <= |s| && s[n - 1] != 0
    ensures Number(s[..n]) >= Power(n - 1)
  {
    NextWord(s, n - 1);
    MulOrder(1, s[n - 1], Power(n - 1));
  }

  lemma {:induction false} SamePrefix(s: seq<Word>, t: seq<Word>, i: nat)
    requires i <= |s| && i <= |t| && forall k: nat {:trigger s[k]} :: k < i ==> s[k] == t[k]
    ensures Number(s[..i]) == Number(t[..i])
  {
    assert s[..i] == t[..i];
  }

  /** Changing one word changes the number by that much at its place. */
  lemma {:induction false} SetWord(s: seq<Word>, k: nat, w: Word, n: nat)
    requires k < n <= |s|
    ensures Number(s[k := w][..n]) == Number(s[..n]) + (w - s[k]) * Power(k)
    decreases n
  {
    var t := s[k := w];
    NextWord(s, n - 1);
    NextWord(t, n - 1);
    if k < n - 1 {
      SetWord(s, k, w, n - 1);
    } else {
      assert t[..n - 1] == s[..n - 1];
      Distribute(w, s[k], Power(k));
    }
  }

  /** The number without its lowest word. */
  lemma {:induction false} LowWord(s: seq<Word>)
    requires s != []
    ensures Number(s) == s[0] + BASE * Number(s[1..])
  {
    if |s| > 1 {
      var n := |s| - 1;
      LowWord(s[..n]);
      assert s[..n][1..] == s[1..][..n - 1];
      Associate(BASE, s[n], Power(n - 1));
      Distribute(Number(s[1..][..n - 1]), s[n] * Power(n - 1), BASE);
    } else {
      assert s[..0] == [] && s[1..] == [];
    }
  }

  // ---- Powers of two ----

  function Pow2(n: nat): (p: nat)
    ensures p > 0
  {
    if n == 0 then 1 else 2 * Pow2(n - 1)
  }

  lemma {:induction false} Pow2Add(i: nat, j: nat)
    ensures Pow2(i + j) == Pow2(i) * Pow2(j)
  {
    if i > 0 {
      Pow2Add(i - 1, j);
      Associate(2, Pow2(i - 1), Pow2(j));
    }
  }

  lemma Pow2Word()
    ensures Pow2(32) == BASE
  {
    assert Pow2(8) == 256;
    Pow2Add(8, 8);
    Pow2Add(16, 16);
  }

  lemma {:induction false} Pow2Words(n: nat)
    ensures Pow2(32 * n) == Power(n)
  {
    if n > 0 {
      Pow2Words(n - 1);
      Pow2Add(32, 32 * (n - 1));
      Pow2Word();
    }
  }
}
