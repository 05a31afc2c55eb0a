/** Dividing with a one-word guess and at most one correction, and what prepares for it. */
module BigDivide {
  import opened Wrappers
  import opened Words
  import opened BigInteger
  import opened BigProduct
  import opened BigShift

  // ---- Leading zero bits ----

  /** Shifted left by the result, a nonzero word has its top bit set. */
  method CountLeadingZeroBits(word: Word) returns (k: nat)
    ensures word == 0 ==> k == 32
    ensures word != 0 ==> k < 32 && 0x8000_0000 <= word * Pow2(k) < 0x1_0000_0000
  {
    hide Pow2;
    k := 0;
    var value: int := word;
    Pow2Zero();
    if value < 0x1_0000 {
      k := 16;
      value := value * 0x1_0000;
      Shifted(word, 0, 16);
    }
    if value < 0x100_0000 {
      Shifted(word, k, 8);
      k := k + 8;
      value := value * 0x100;
    }
    if value < 0x1000_0000 {
      Shifted(word, k, 4);
      k := k + 4;
      value := value * 0x10;
    }
    if value < 0x4000_0000 {
      Shifted(word, k, 2);
      k := k + 2;
      value := value * 4;
    }
    if value < 0x8000_0000 {
      Shifted(word, k, 1);
      k := k + 1;
      if value < 0x4000_0000 {
        k := 32;
      }
    }
  }

  lemma Shifted(word: Word, k: nat, j: nat)
    requires j in {1, 2, 4, 8, 16}
    ensures word * Pow2(k + j) == word * Pow2(k) * (if j == 1 then 2 else if j == 2 then 4 else if j == 4 then 0x10 else if j == 8 then 0x100 else 0x1_0000)
  {
    Pow2Add(k, j);
    Pow2Add(8, 8);
    assert Pow2(8) == 256;
    Associate(word, Pow2(k), Pow2(j));
  }

  lemma {:induction false} Pow2Order(i: nat, j: nat)
    requires i <= j
    ensures Pow2(i) <= Pow2(j)
    decreases j
  {
    if i < j {
      Pow2Order(i, j - 1);
    }
  }

  lemma SmallPowers()
    ensures Pow2(3) == 8 && Pow2(4) == 0x10 && Pow2(28) == 0x1000_0000 && Pow2(29) == 0x2000_0000
  {
    ByteShift();
    Pow2Add(8, 8);
    Pow2Add(8, 16);
    assert Pow2(3) == 8 && Pow2(4) == 0x10 && Pow2(5) == 0x20;
    Pow2Add(4, 24);
    Pow2Add(5, 24);
  }

  /** A word whose shift by at most `j` bits is large is large itself. */
  lemma AtLeastShifted(word: Word, k: nat, j: nat)
    requires k <= j && 0x8000_0000 <= word * Pow2(k)
    ensures 0x8000_0000 <= word * Pow2(j)
  {
    hide Pow2;
    Pow2Order(k, j);
    MulOrder(Pow2(k), Pow2(j), word);
  }

  lemma LessShifted(word: Word, k: nat, j: nat)
    requires j <= k && word * Pow2(k) < 0x1_0000_0000
    ensures word * Pow2(j) < 0x1_0000_0000
  {
    hide Pow2;
    Pow2Order(j, k);
    MulOrder(Pow2(j), Pow2(k), word);
  }

  /** Few leading zeros mean a large word, many a small one. */
  lemma LeadingZeros(word: Word, k: nat)
    requires word != 0 && k < 32 && 0x8000_0000 <= word * Pow2(k) < 0x1_0000_0000
    ensures k < 4 <==> word >= 0x1000_0000
    ensures k > 28 <==> word < 8
  {
    hide Pow2;
    SmallPowers();
    if k < 4 {
      AtLeastShifted(word, k, 3);
    } else {
      LessShifted(word, k, 4);
    }
    if k > 28 {
      LessShifted(word, k, 29);
    } else {
      AtLeastShifted(word, k, 28);
    }
  }

  // ---- The top word of a number ----

  /** A number between `lo` and `hi` units of the k-th word has k + 1 words and a top word in that range. */
  lemma TopWordRange(a: BigInt, k: nat, lo: nat, hi: nat)
    requires a.Valid() && k < WORDS && 1 <= lo && hi <= BASE && lo * Power(k) <= a.Magnitude() < hi * Power(k)
    ensures a.wordCount == k + 1 && lo <= a.HighWord() < hi
  {
    hide Power, Number;
    Shape(a);
    var p := Power(k);
    MulOrder(1, lo, p);
    MulOrder(hi, BASE, p);
    NextPower(k);
    if a.wordCount > k + 1 {
      PowerOrder(k + 1, a.wordCount - 1);
    }
    if a.wordCount < k + 1 {
      PowerOrder(a.wordCount, k);
    }
    NextWord(a.bits, k);
    Bound(a.bits[..k]);
    var s: int := a.HighWord();
    if s < lo {
      MulOrder(s + 1, lo, p);
      Distribute(s, 1, p);
    }
    if s >= hi {
      MulOrder(hi, s, p);
    }
  }

  /** The top word bounds the number from both sides. */
  lemma TopWordBounds(a: BigInt)
    requires a.Valid()
    ensures a.HighWord() * Power(a.wordCount - 1) <= a.Magnitude() < (a.HighWord() + 1) * Power(a.wordCount - 1)
  {
    hide Power, Number;
    Shape(a);
    var k := a.wordCount - 1;
    NextWord(a.bits, k);
    Bound(a.bits[..k]);
    var s: int := a.HighWord();
    Distribute(s, 1, Power(k));
  }

  // ---- Preparing ----

  /** Scales all three numbers by the same factor so that the divisor's top word is neither small nor close to all
      ones. */
  method SetupQuorum(dividend: BigInt, divisor: BigInt, other: BigInt) returns (a: BigInt, d: BigInt, o: BigInt,
          ghost factor: nat)
    requires dividend.Valid() && divisor.Valid() && other.Valid() && divisor.Value() > 0
    requires dividend.Magnitude() * 0x100 < Power(WORDS) && divisor.Magnitude() * 0x100 < Power(WORDS)
    requires other.Magnitude() * 0x100 < Power(WORDS)
    ensures a.Valid() && d.Valid() && o.Valid() && (factor == 1 || factor == 0x100)
    ensures a.Value() == dividend.Value() * factor && d.Value() == divisor.Value() * factor
    ensures o.Value() == other.Value() * factor
    ensures 8 <= d.HighWord() < 0x1000_0000
  {
    hide Power, Number, Pow2;
    Shape(divisor);
    var zeros := CountLeadingZeroBits(divisor.HighWord());
    LeadingZeros(divisor.HighWord(), zeros);
    a, d, o, factor := dividend, divisor, other, 1;
    if zeros < 4 || zeros > 28 {
      ByteShift();
      var a8 := LeftShift(dividend, 8);
      var d8 := LeftShift(divisor, 8);
      var o8 := LeftShift(other, 8);
      a, d, o, factor := a8.value, d8.value, o8.value, 0x100;
      ScaledSigns(dividend, a);
      ScaledSigns(divisor, d);
      ScaledSigns(other, o);
      ScaledTop(divisor, d);
    }
  }

  lemma ByteShift()
    ensures Pow2(8) == 0x100
  {
  }

  lemma ScaledSigns(a: BigInt, b: BigInt)
    requires b.sign == a.sign && b.Magnitude() == a.Magnitude() * 0x100
    ensures b.Value() == a.Value() * 0x100
  {
    hide Number;
    Associate(a.sign, a.Magnitude(), 0x100);
  }

  lemma ScaledTop(divisor: BigInt, d: BigInt)
    requires divisor.Valid() && d.Valid() && divisor.Magnitude() > 0 && d.Magnitude() == divisor.Magnitude() * 0x100
    requires divisor.HighWord() >= 0x1000_0000 || divisor.HighWord() < 8
    ensures 8 <= d.HighWord() < 0x1000_0000
  {
    hide Power, Number;
    Shape(divisor);
    TopWordBounds(divisor);
    var k, s: int := divisor.wordCount - 1, divisor.HighWord();
    var p := Power(k);
    NextPower(k);
    if s < 8 {
      MulOrder(1, s, p);
      MulOrder(s + 1, 8, p);
      Shape(d);
      TopWordRange(d, k, 0x100, 0x800);
    } else {
      MulOrder(0x1000_0000, s, p);
      MulOrder(s + 1, BASE, p);
      Shape(d);
      IndexBelow(d, k + 1);
      TopWordRange(d, k + 1, 0x10, 0x100);
    }
  }

  lemma IndexBelow(d: BigInt, k: nat)
    requires d.Valid() && d.Magnitude() >= 0x10 * Power(k)
    ensures k < WORDS
  {
    hide Power, Number;
    Shape(d);
    IndexFits(k);
  }

  // ---- The quotient ----

  /** The guess from the top words is at most one too small. */
  lemma GuessIsClose(x: nat, d: nat, top: nat, s: nat, p: nat)
    requires p > 0 && d > 0 && s * p <= d < (s + 1) * p && top * p <= x < (top + 1) * p && x < (s + 2) * d
    ensures var q := top / (s + 1);
      q * d <= x < (q + 2) * d
  {
    var q := top / (s + 1);
    GuessBelow(x, d, top, s, p, q);
    if q + 1 <= s {
      GuessAbove(x, d, top, s, p, q);
    } else {
      MulOrder(s + 2, q + 2, d);
    }
  }

  lemma GuessBelow(x: nat, d: nat, top: nat, s: nat, p: nat, q: nat)
    requires d <= (s + 1) * p && top * p <= x && q == top / (s + 1)
    ensures q * d <= x
  {
    assert q * (s + 1) <= top;
    MulOrder(d, (s + 1) * p, q);
    Associate(q, s + 1, p);
    MulOrder(q * (s + 1), top, p);
  }

  lemma GuessAbove(x: nat, d: nat, top: nat, s: nat, p: nat, q: nat)
    requires s * p <= d && x < (top + 1) * p && q == top / (s + 1) && q + 1 <= s
    ensures x < (q + 2) * d
  {
    var u := q + 1;
    NextMultiple(top, s + 1, q);
    MulOrder(top + 1, u * (s + 1), p);
    Spread(u, s, p);
    MulOrder(s * p, d, u);
    MulOrder(u, s, p);
    Distribute(u, 1, d);
  }

  lemma NextMultiple(top: nat, n: nat, q: nat)
    requires n > 0 && q == top / n
    ensures top < (q + 1) * n
  {
    assert top == q * n + top % n;
    Distribute(q, 1, n);
  }

  lemma Spread(u: int, s: int, p: int)
    ensures u * (s + 1) * p == u * (s * p) + u * p
  {
    Distribute(s, 1, u);
    Distribute(u * s, u, p);
    Associate(u, s, p);
  }

  /** Subtracts `q` times the divisor in place. */
  method SubtractMultiple(bits: array<Word>, d: seq<Word>, n: nat, q: nat)
    requires bits.Length == |d| == WORDS && n <= WORDS && q < BASE && IsZeroFrom(bits[..], n)
    requires q * Number(d[..n]) <= Number(bits[..][..n])
    modifies bits
    ensures IsZeroFrom(bits[..], n) && Number(bits[..]) == old(Number(bits[..][..n])) - q * Number(d[..n])
  {
    hide Power, Number, SubtractedUpTo;
    ghost var a := bits[..];
    var borrow: nat, carry: nat, i := 0, 0, 0;
    NothingSubtracted(bits[..], a, d, q);
    while i < n
      invariant i <= n && borrow <= 1 && carry < BASE && SubtractedUpTo(bits[..], a, d, q, i, borrow, carry)
      invariant forall k: nat {:trigger bits[..][k]} :: i <= k < WORDS ==> bits[..][k] == a[k]
    {
      var ys: nat := d[i] as int * q + carry;
      assert bits[..][i] == a[i];
      var y := bits[i] as int - ys % BASE - borrow;
      var w := if y < 0 then y + BASE else y;
      SubtractColumn(bits[..], a, d, q, i, borrow, carry, Power(i), ys, y, w, if y < 0 then 1 else 0);
      carry := ys / BASE;
      borrow := if y < 0 then 1 else 0;
      Put(bits, i, w);
      i := i + 1;
    }
    SubtractEnd(bits[..], a, d, q, n, borrow, carry);
    WholeNumber(bits[..], n);
  }

  /** The quotient and the remainder: a guess from the top words, which is never too large and at most one too
      small, and one correction. */
  method Quorem(dividend: BigInt, divisor: BigInt) returns (q: nat, rest: BigInt)
    requires dividend.Valid() && divisor.Valid() && dividend.sign >= 0 && divisor.sign == 1
    requires dividend.wordCount <= divisor.wordCount && divisor.HighWord() < 0xFFFF_FFFF
    requires dividend.Magnitude() < (divisor.HighWord() + 2) * divisor.Magnitude()
    ensures rest.Valid() && divisor.Value() > 0 && q == dividend.Value() / divisor.Value()
    ensures rest.Value() == dividend.Value() % divisor.Value()
  {
    hide Power, Number;
    var n := divisor.wordCount;
    ghost var x, d := dividend.Magnitude(), divisor.Magnitude();
    Shape(divisor);
    Shape(dividend);
    if dividend.wordCount < n {
      ShorterIsLess(dividend, divisor);
      Quotient(x, d, 0);
      return 0, dividend;
    }
    var bits;
    q, bits, rest := SubtractGuess(dividend, divisor);
    rest, q := Correct(bits, rest, divisor, x, q);
    Quotient(x, d, q);
    rest := WithoutSign(rest);
  }

  /** The first step: the guess, and what is left of the dividend without that many divisors. */
  method SubtractGuess(dividend: BigInt, divisor: BigInt) returns (q: nat, bits: array<Word>, rest: BigInt)
    requires dividend.Valid() && divisor.Valid() && dividend.sign >= 0 && divisor.sign == 1
    requires dividend.wordCount == divisor.wordCount && divisor.HighWord() < 0xFFFF_FFFF
    requires dividend.Magnitude() < (divisor.HighWord() + 2) * divisor.Magnitude()
    ensures fresh(bits) && bits.Length == WORDS && rest.bits == bits[..] && rest.Trimmed() && rest.sign == dividend.sign
    ensures rest.wordCount <= divisor.wordCount && dividend.Magnitude() < (q + 2) * divisor.Magnitude()
    ensures rest.Magnitude() == dividend.Magnitude() - q * divisor.Magnitude()
  {
    hide Power, Number;
    var n := divisor.wordCount;
    ghost var x, d := dividend.Magnitude(), divisor.Magnitude();
    Shape(divisor);
    Shape(dividend);
    q := dividend.HighWord() as int / (divisor.HighWord() as int + 1);
    TopWordBounds(dividend);
    TopWordBounds(divisor);
    GuessIsClose(x, d, dividend.HighWord(), divisor.HighWord(), Power(n - 1));
    GuessIsWord(dividend.HighWord(), divisor.HighWord());
    bits := new Word[WORDS](i requires 0 <= i < WORDS => dividend.bits[i]);
    assert bits[..] == dividend.bits;
    rest := dividend;
    if q != 0 {
      SubtractMultiple(bits, divisor.bits, n, q);
      rest := Trim(bits[..], n, dividend.sign);
    }
  }

  /** Nothing left has no sign. */
  method WithoutSign(rest: BigInt) returns (r: BigInt)
    requires rest.Trimmed() && rest.sign >= 0 && (rest.sign == 0 ==> rest.Magnitude() == 0)
    ensures r.Valid() && r.Value() == rest.Magnitude()
  {
    hide Power, Number;
    r := rest;
    if rest.wordCount == 1 && rest.bits[0] == 0 {
      ZeroMagnitude(rest);
      r := rest.(sign := 0);
    } else {
      NonzeroMagnitude(rest);
    }
  }

  lemma GuessIsWord(top: Word, s: Word)
    ensures top as int / (s as int + 1) < BASE
  {
    var q := top as int / (s as int + 1);
    assert q * (s as int + 1) <= top;
    MulOrder(1, s as int + 1, q);
  }

  /** The correction: the divisor once more, if what is left is not less. */
  method Correct(bits: array<Word>, rest: BigInt, divisor: BigInt, ghost x: nat, q: nat) returns (r: BigInt, q': nat)
    requires bits.Length == WORDS && rest.Trimmed() && rest.bits == bits[..] && divisor.Valid() && divisor.sign == 1
    requires rest.sign >= 0
    requires rest.wordCount <= divisor.wordCount && rest.Magnitude() == x - q * divisor.Magnitude()
    requires x < (q + 2) * divisor.Magnitude()
    requires rest.sign == 0 ==> rest.Magnitude() == 0
    modifies bits
    ensures r.Trimmed() && r.sign == rest.sign && r.Magnitude() == x - q' * divisor.Magnitude()
    ensures r.Magnitude() < divisor.Magnitude()
  {
    hide Power, Number;
    Distribute(q, 2, divisor.Magnitude());
    Distribute(q, 1, divisor.Magnitude());
    r, q' := rest, q;
    var order := Compare(rest, divisor);
    if order >= 0 {
      PrefixOf(rest, divisor.wordCount);
      PrefixOf(divisor, divisor.wordCount);
      SubtractMultiple(bits, divisor.bits, divisor.wordCount, 1);
      r := Trim(bits[..], divisor.wordCount, rest.sign);
      q' := q + 1;
    }
  }

  lemma Quotient(x: nat, d: nat, q: nat)
    requires d > 0 && q * d <= x < (q + 1) * d
    ensures x / d == q && x % d == x - q * d
  {
    Distribute(q, 1, d);
    WholePart(q, x - q * d, d);
  }

  lemma ZeroMagnitude(a: BigInt)
    requires a.Trimmed() && a.wordCount == 1 && a.bits[0] == 0
    ensures a.Magnitude() == 0
  {
    hide Power, Number;
    Shape(a);
    SingleWord(a.bits);
  }

  lemma NonzeroMagnitude(a: BigInt)
    requires a.Trimmed() && !(a.wordCount == 1 && a.bits[0] == 0)
    ensures a.Magnitude() > 0
  {
    hide Power, Number;
    Shape(a);
  }

  // ---- Counting down ----

  /** Subtracts one, except that with several words and a low word of one it also borrows from the next word. Below
      one it panics. */
  method InPlaceDecrement(a: BigInt) returns (r: Option<BigInt>)
    requires a.Valid()
    ensures r.None? <==> a.sign <= 0
    ensures r.Some? ==> (r.value.Magnitude() == a.Magnitude() - 1 <==> a.bits[0] != 1 || a.wordCount == 1)
    ensures r.Some? && r.value.Magnitude() == a.Magnitude() - 1 ==> r.value.Valid()
    ensures r.Some? && a.bits[0] == 1 && a.wordCount > 1 ==> r.value.Magnitude() == a.Magnitude() - 1 - BASE
  {
    hide Power, Number;
    if a.sign < 0 {
      return None;
    }
    var low := a.bits[0];
    Shape(a);
    if low > 1 {
      LowWordSet(a.bits, low as int - 1);
      var b := a.(bits := a.bits[0 := low as int - 1]);
      NonzeroMagnitude(b);
      NonzeroMagnitude(a);
      r := Some(b);
    } else if a.wordCount == 1 {
      SmallNumber(a);
      if low == 0 {
        return None;
      }
      LowWordSet(a.bits, 0);
      r := Some(a.(bits := a.bits[0 := 0], sign := 0));
    } else {
      NonzeroMagnitude(a);
      var b := BorrowDown(a);
      r := Some(b);
    }
  }

  /** Decrementing 2 to the 32nd plus one gives zero. */
  method DecrementsTooFar() returns (r: Option<BigInt>)
    ensures r.Some? && r.value.Magnitude() == 0
  {
    hide Power, Number;
    var a := FromU64(BASE + 1);
    r := InPlaceDecrement(a);
  }

  lemma LowWordSet(bits: seq<Word>, w: Word)
    requires |bits| == WORDS
    ensures Number(bits[0 := w]) == Number(bits) + w - bits[0]
  {
    hide Number;
    ReplaceWord(bits, 0, w);
    assert Power(0) == 1;
  }

  /** The low word wraps around and the next nonzero word above it is decremented. */
  method BorrowDown(a: BigInt) returns (r: BigInt)
    requires a.Valid() && a.sign == 1 && a.bits[0] <= 1 && a.wordCount > 1
    ensures r.Magnitude() == a.Magnitude() - (if a.bits[0] == 1 then 1 + BASE else 1)
    ensures a.bits[0] == 0 ==> r.Valid()
  {
    hide Power, Number;
    var low := if a.bits[0] == 0 then 0xFFFF_FFFF else 0;
    var bits := a.bits[0 := low];
    LowWordSet(a.bits, low);
    ghost var before := Number(bits);
    FirstPower();
    var i := 1;
    while a.bits[i] == 0
      invariant 1 <= i < a.wordCount && |bits| == WORDS && bits[0] == low
      invariant forall k: nat {:trigger bits[k]} :: i <= k < WORDS ==> bits[k] == a.bits[k]
      invariant forall k: nat {:trigger bits[k]} :: 1 <= k < i ==> bits[k] == 0xFFFF_FFFF
      invariant Number(bits) == before + Power(i) - BASE
      decreases a.wordCount - i
    {
      ReplaceWord(bits, i, 0xFFFF_FFFF);
      NextPower(i);
      bits := bits[i := 0xFFFF_FFFF];
      i := i + 1;
    }
    ReplaceWord(bits, i, bits[i] - 1);
    bits := bits[i := bits[i] - 1];
    var n := if bits[a.wordCount - 1] == 0 then a.wordCount - 1 else a.wordCount;
    r := BigInt(bits, n, a.sign);
    if low == 0xFFFF_FFFF {
      BorrowShape(a, r, i);
    }
  }

  lemma FirstPower()
    ensures Power(1) == BASE
  {
    assert Power(0) == 1;
  }

  /** If the top word became zero, the one below it is all ones. */
  lemma BorrowShape(a: BigInt, r: BigInt, i: nat)
    requires a.Valid() && a.wordCount > 1 && r.sign == 1 && |r.bits| == WORDS && r.bits[0] == 0xFFFF_FFFF
    requires 1 <= i < a.wordCount
    requires forall k: nat {:trigger r.bits[k]} :: i < k < WORDS ==> r.bits[k] == a.bits[k]
    requires r.wordCount == (if r.bits[a.wordCount - 1] == 0 then a.wordCount - 1 else a.wordCount)
    requires r.bits[a.wordCount - 1] == 0 ==> a.wordCount == 2 || r.bits[a.wordCount - 2] != 0
    ensures r.Valid()
  {
    hide Power, Number;
    NonzeroMagnitude(r);
  }

  // ---- Powers ----

  function Exp(radix: nat, e: nat): nat {
    if e == 0 then 1 else radix * Exp(radix, e - 1)
  }

  const POWERS_OF_TEN: seq<nat> := [
    1, 10, 100, 1000, 10000, 100000, 1000000, 10000000, 100000000, 1000000000, 10000000000, 100000000000, 1000000000000,
    10000000000000, 100000000000000, 1000000000000000, 10000000000000000, 100000000000000000, 1000000000000000000]

  lemma {:induction false} TableOfTen(e: nat)
    requires e < |POWERS_OF_TEN|
    ensures POWERS_OF_TEN[e] == Exp(10, e) < BASE * BASE
  {
    if e > 0 {
      TableOfTen(e - 1);
      TenTimes(e);
    }
  }

  lemma TenTimes(e: nat)
    requires 0 < e < |POWERS_OF_TEN|
    ensures POWERS_OF_TEN[e] == 10 * POWERS_OF_TEN[e - 1] < BASE * BASE
  {
  }

  lemma {:induction false} ExpAdd(radix: nat, i: nat, j: nat)
    ensures Exp(radix, i + j) == Exp(radix, i) * Exp(radix, j)
  {
    if i > 0 {
      ExpAdd(radix, i - 1, j);
      Associate(radix, Exp(radix, i - 1), Exp(radix, j));
    }
  }

  lemma {:induction false} ExpPositive(radix: nat, e: nat)
    requires radix > 0
    ensures Exp(radix, e) > 0
  {
    if e > 0 {
      ExpPositive(radix, e - 1);
      MulStrict(0, radix, Exp(radix, e - 1));
    }
  }

  lemma {:induction false} TwoPower(e: nat)
    ensures Exp(2, e) == Pow2(e)
  {
    if e > 0 {
      TwoPower(e - 1);
    }
  }

  /** The parts of an exponent that is halved. */
  lemma Halved(radix: nat, e: nat)
    requires radix > 0
    ensures var h := Exp(radix, e / 2);
      Exp(radix, e) == (if e % 2 == 1 then h * h * radix else h * h) && h <= h * h <= Exp(radix, e) && h > 0
  {
    hide Exp;
    ExpAdd(radix, e / 2, e / 2);
    ExpPositive(radix, e / 2);
    var h := Exp(radix, e / 2);
    MulOrder(1, h, h);
    if e % 2 == 1 {
      ExpAdd(radix, e / 2 * 2, 1);
      ExpOne(radix);
      MulOrder(1, radix, h * h);
    }
  }

  lemma ExpOne(radix: nat)
    ensures Exp(radix, 0) == 1 && Exp(radix, 1) == radix && Exp(radix, 2) == radix * radix
    ensures Exp(radix, 3) == radix * radix * radix
  {
    assert Exp(radix, 1) == radix * Exp(radix, 0);
    assert Exp(radix, 2) == radix * Exp(radix, 1);
    assert Exp(radix, 3) == radix * Exp(radix, 2);
    Associate(radix, radix, radix);
  }

  /** The power, from a table, by a shift, or by squaring. */
  method Pow(radix: nat, exponent: nat) returns (r: BigInt)
    requires 1 <= radix <= 36 && Exp(radix, exponent) < Power(WORDS)
    ensures r.Valid() && r.Value() == Exp(radix, exponent)
    decreases exponent
  {
    hide Power, Number, Exp, Pow2;
    if radix == 10 && exponent < |POWERS_OF_TEN| {
      TableOfTen(exponent);
      return FromU64(POWERS_OF_TEN[exponent]);
    } else if radix == 2 {
      TwoPower(exponent);
      var shifted := LeftShift(One(), exponent);
      return shifted.value;
    }
    ExpOne(radix);
    SmallCubes(radix);
    if exponent == 0 {
      return One();
    }
    if exponent == 1 {
      return FromWord(radix);
    }
    if exponent == 2 {
      return FromU64(radix * radix);
    }
    if exponent == 3 {
      return FromU64(radix * radix * radix);
    }
    Halved(radix, exponent);
    var temp := Pow(radix, exponent / 2);
    ghost var h := Exp(radix, exponent / 2);
    r := Multiply(temp, temp);
    if exponent % 2 == 1 {
      r := MultiplyAdd(r, radix, 0);
    }
  }

  lemma SmallCubes(radix: nat)
    requires radix <= 36
    ensures radix * radix < 0x1_0000 && radix * radix * radix < 0x1_0000
  {
    MulOrder(radix, 36, radix);
    MulOrder(radix * radix, 1296, radix);
  }
}
