/** How a decimal number is scaled before its digits are printed: to a fraction between one and ten whose divisor has
    74 bits. */
module Scaling {
  import opened Wrappers
  import opened Words
  import opened BigInteger
  import opened BigProduct
  import opened BigShift
  import opened BigDivide
  import opened Digits

  const DIVISOR_BITS := 74

  // ---- Bits ----

  /** The number of bits of a nonzero number. */
  ghost predicate HasBits(x: nat, n: nat) {
    n > 0 && Pow2(n - 1) <= x < Pow2(n)
  }

  ghost function Bits(x: nat): nat {
    if x == 0 then 0 else 1 + Bits(x / 2)
  }

  lemma {:induction false} BitsOf(x: nat)
    requires x > 0
    ensures HasBits(x, Bits(x))
  {
    if x > 1 {
      BitsOf(x / 2);
    }
  }

  lemma BitsUnique(x: nat, n: nat)
    requires HasBits(x, n)
    ensures n == Bits(x)
  {
    hide Pow2;
    Pow2Zero();
    BitsOf(x);
    var m := Bits(x);
    if n < m {
      Pow2Order(n, m - 1);
    } else if m < n {
      Pow2Order(m, n - 1);
    }
  }

  /** Counted from the words and the leading zero bits of the top word. */
  method BitCount(a: BigInt) returns (n: nat)
    requires a.Valid() && a.sign != 0
    ensures n == Bits(a.Magnitude())
  {
    hide Pow2, Power, Number;
    Shape(a);
    var zeros := CountLeadingZeroBits(a.HighWord());
    n := (32 - zeros) + (a.wordCount - 1) * 32;
    TopWordBounds(a);
    TopBits(a.Magnitude(), a.HighWord(), a.wordCount - 1, zeros);
    BitsUnique(a.Magnitude(), n);
  }

  lemma TopBits(x: nat, high: Word, k: nat, zeros: nat)
    requires zeros < 32 && 0x8000_0000 <= high * Pow2(zeros) < 0x1_0000_0000
    requires high * Power(k) <= x < (high + 1) * Power(k)
    ensures HasBits(x, 32 - zeros + 32 * k)
  {
    hide Pow2, Power;
    var n := 32 - zeros;
    HighBits(high, zeros);
    Pow2Words(k);
    Pow2Add(n - 1, 32 * k);
    Pow2Add(n, 32 * k);
    MulOrder(Pow2(n - 1), high, Power(k));
    MulOrder(high + 1, Pow2(n), Power(k));
  }

  lemma HighBits(high: Word, zeros: nat)
    requires zeros < 32 && 0x8000_0000 <= high * Pow2(zeros) < 0x1_0000_0000
    ensures Pow2(31 - zeros) <= high && high + 1 <= Pow2(32 - zeros)
  {
    hide Pow2;
    Pow2Word();
    Pow2Add(31 - zeros, zeros);
    Pow2Add(32 - zeros, zeros);
    HalfWord();
    if high < Pow2(31 - zeros) {
      MulStrict(high, Pow2(31 - zeros), Pow2(zeros));
    }
    if Pow2(32 - zeros) <= high {
      MulOrder(Pow2(32 - zeros), high, Pow2(zeros));
    }
  }

  lemma HalfWord()
    ensures Pow2(31) == 0x8000_0000
  {
    Pow2Word();
    assert Pow2(32) == 2 * Pow2(31);
  }

  // ---- Shifting by any amount ----

  ghost function ShiftBy(x: nat, t: int): nat {
    if t >= 0 then x * Pow2(t) else Quotient(x, Pow2(-t))
  }

  ghost function Quotient(x: nat, d: nat): nat
    requires d > 0
  {
    x / d
  }

  /** Whether `x` times two to the power of `b` is less than `y`. */
  ghost predicate Less(x: nat, b: int, y: nat) {
    if b >= 0 then x * Pow2(b) < y else x < y * Pow2(-b)
  }

  lemma ShiftLess(x: nat, t: int, y: nat)
    ensures ShiftBy(x, t) < y <==> Less(x, t, y)
  {
    hide Pow2;
    if t < 0 {
      QuotientLess(x, Pow2(-t), y);
    }
  }

  lemma QuotientLess(x: nat, d: nat, y: nat)
    requires d > 0
    ensures x / d < y <==> x < y * d
  {
    var q := x / d;
    if q < y {
      MulOrder(q + 1, y, d);
      Distribute(q, 1, d);
    } else {
      MulOrder(y, q, d);
    }
  }

  /** Comparing at a common scale. */
  lemma LessScaled(x: nat, b: int, y: nat, n: nat)
    requires b + n >= 0
    ensures Less(x, b, y) <==> x * Pow2(b + n) < y * Pow2(n)
  {
    hide Pow2;
    if b >= 0 {
      Pow2Add(b, n);
      Associate(x, Pow2(b), Pow2(n));
      SameFactor(x * Pow2(b), y, Pow2(n));
    } else {
      Pow2Add(-b, b + n);
      Associate(y, Pow2(-b), Pow2(b + n));
      SameFactor(x, y * Pow2(-b), Pow2(b + n));
    }
  }

  lemma SameFactor(x: nat, y: nat, p: nat)
    requires p > 0
    ensures x < y <==> x * p < y * p
  {
    if x < y {
      MulStrict(x, y, p);
    } else {
      MulOrder(y, x, p);
    }
  }

  /** `d` is `y` times two to the power of `p`. */
  ghost predicate Times2(y: nat, p: int, d: nat) {
    if p >= 0 then d == y * Pow2(p) else y == d * Pow2(-p)
  }

  lemma Times2Scaled(y: nat, p: int, d: nat, m: nat)
    requires Times2(y, p, d) && m - p >= 0
    ensures d * Pow2(m - p) == y * Pow2(m)
  {
    hide Pow2;
    if p >= 0 {
      Pow2Add(p, m - p);
      Associate(y, Pow2(p), Pow2(m - p));
    } else {
      Pow2Add(-p, m);
      Associate(d, Pow2(-p), Pow2(m));
    }
  }

  /** Scaling both sides keeps the order. */
  lemma ScaledOrder(x: nat, b: int, y: nat, p: int, d: nat)
    requires Times2(y, p, d)
    ensures ShiftBy(x, p + b) < d <==> Less(x, b, y)
  {
    hide Pow2, Less, Times2, ShiftBy;
    var m := (if b < 0 then -b else b) + (if p < 0 then -p else p);
    ShiftLess(x, p + b, d);
    LessScaled(x, p + b, d, m - p);
    LessScaled(x, b, y, m);
    Times2Scaled(y, p, d, m);
  }

  lemma ShiftedBits(x: nat, n: nat, bits: nat)
    requires HasBits(x, n) && bits > 0
    ensures HasBits(ShiftBy(x, bits - n), bits)
  {
    hide Pow2, ShiftBy, Less;
    var t := bits - n;
    PowerTimes2(n, t);
    PowerTimes2(n - 1, t);
    ScaledOrder(x, 0, Pow2(n), t, Pow2(bits));
    ScaledOrder(x, 0, Pow2(n - 1), t, Pow2(bits - 1));
    LessAtZero(x, Pow2(n));
    LessAtZero(x, Pow2(n - 1));
  }

  lemma LessAtZero(x: nat, y: nat)
    ensures Less(x, 0, y) <==> x < y
  {
    Pow2Zero();
  }

  lemma PowerTimes2(n: nat, t: int)
    requires n + t >= 0
    ensures Times2(Pow2(n), t, Pow2(n + t))
  {
    hide Pow2;
    if t >= 0 {
      Pow2Add(n, t);
    } else {
      Pow2Add(n + t, -t);
    }
  }

  /** A shift that leaves something and fits never panics. */
  method Shift(v: BigInt, t: int) returns (r: BigInt)
    requires v.Valid() && v.sign == 1 && 0 < ShiftBy(v.Magnitude(), t) < Power(WORDS)
    ensures r.Valid() && r.sign == 1 && r.Magnitude() == ShiftBy(v.Magnitude(), t)
  {
    hide Pow2, Power, Number;
    if t < 0 {
      SomeLeft(v, -t);
    }
    var shifted := LeftShift(v, t);
    r := shifted.value;
  }

  lemma SomeLeft(v: BigInt, shift: nat)
    requires v.Valid() && v.Magnitude() / Pow2(shift) > 0
    ensures shift / 32 < v.wordCount
  {
    hide Pow2, Power, Number;
    Shape(v);
    if shift / 32 >= v.wordCount {
      ShiftParts(shift);
      PowerOrder(v.wordCount, shift / 32);
      MulOrder(1, Pow2(shift % 32), Power(shift / 32));
      WholePart(0, v.Magnitude(), Pow2(shift));
    }
  }

  // ---- Scaling a decimal number ----

  /** The divisor without the bits that do not fit, which are rounded away; up to 10 to the 22nd there are none. */
  ghost function Cut(d: nat): nat {
    if Bits(d) <= DIVISOR_BITS then d else ShiftBy(d, DIVISOR_BITS - Bits(d)) * Pow2(Bits(d) - DIVISOR_BITS)
  }

  ghost function UpPower(e: int): nat {
    if e > 0 then Exp(10, e) else 1
  }

  /** The exponent is that of the first digit: the mantissa, scaled, is at least one and less than ten times the power
      of ten, rounded if it has to be. */
  ghost predicate Leads(mantissa: nat, base2: int, exponent: int) {
    var x, d := mantissa * UpPower(-exponent), UpPower(exponent);
    !Less(x, base2, d) && Less(x, base2, 10 * Cut(d))
  }

  lemma ValueIsMagnitude(a: BigInt)
    requires a.Valid() && a.Value() > 0
    ensures a.sign == 1 && a.Magnitude() == a.Value()
  {
    hide Number;
  }

  lemma {:induction false} ExpOrder(i: nat, j: nat)
    requires i <= j
    ensures 0 < Exp(10, i) <= Exp(10, j)
    decreases j
  {
    if i < j {
      ExpOrder(i, j - 1);
    } else if i > 0 {
      ExpOrder(i - 1, i - 1);
    }
  }

  /** A thousand has less than ten bits. */
  lemma {:induction false} Thousands(k: nat)
    ensures Exp(10, 3 * k) <= Pow2(10 * k)
  {
    hide Exp, Pow2;
    if k > 0 {
      Thousands(k - 1);
      ExpAdd(10, 3, 3 * (k - 1));
      ExpOne(10);
      Pow2Add(10, 10 * (k - 1));
      TenBits();
      MulOrder(Exp(10, 3 * (k - 1)), Pow2(10 * (k - 1)), 1000);
      MulOrder(1000, 1024, Pow2(10 * (k - 1)));
    } else {
      Pow2Zero();
      ExpOne(10);
    }
  }

  lemma TenBits()
    ensures Pow2(10) == 1024 && Pow2(8) == 256
  {
  }

  lemma PowerFits(e: nat)
    requires e <= 324
    ensures 0 < Exp(10, e) < Power(34) <= Power(WORDS)
  {
    hide Exp, Pow2, Power;
    ExpOrder(e, 324);
    Thousands(108);
    Pow2Words(33);
    Pow2Words(34);
    Pow2Less(1080, 32 * 34);
    PowerOrder(34, WORDS);
  }

  lemma Pow2Less(i: nat, j: nat)
    requires i < j
    ensures Pow2(i) < Pow2(j)
  {
    Pow2Order(i, j - 1);
  }

  lemma UpPowerFits(e: int)
    requires e <= 324
    ensures 0 < UpPower(e) < Power(34) <= Power(WORDS) && (e > 0 ==> UpPower(e) == Exp(10, e))
  {
    hide Exp, Power;
    PowerFits(if e > 0 then e else 0);
    ExpOne(10);
  }

  lemma MantissaFits(mantissa: nat, e: int)
    requires 0 < mantissa < BASE * BASE && e <= 324
    ensures 0 < mantissa * UpPower(e) < Power(WORDS)
  {
    hide Power, UpPower;
    UpPowerFits(e);
    MulStrict(0, mantissa, UpPower(e));
    MulStrict(mantissa, BASE * BASE, UpPower(e));
    MulStrict(UpPower(e), Power(34), BASE * BASE);
    TwoWordPower();
    PowerAdd(2, 34);
    PowerOrder(36, WORDS);
  }

  lemma TwoWordPower()
    ensures Power(2) == BASE * BASE
  {
    assert Power(1) == BASE * Power(0) && Power(2) == BASE * Power(1);
  }

  lemma BitsFit(y: nat)
    requires HasBits(y, DIVISOR_BITS)
    ensures 1 < y && 10 * y < Power(WORDS)
  {
    hide Pow2, Power;
    Pow2Less(0, 73);
    Pow2Zero();
    Pow2Add(74, 4);
    assert Pow2(4) == 16 by {
      FourBits();
    }
    Pow2Less(78, 96);
    Pow2Words(3);
    PowerOrder(3, WORDS);
  }

  lemma FourBits()
    ensures Pow2(4) == 16
  {
  }

  lemma LessMore(x: nat, b: int, y: nat, z: nat)
    requires Less(x, b, y) && y <= z
    ensures Less(x, b, z)
  {
    hide Pow2;
    if b < 0 {
      MulOrder(y, z, Pow2(-b));
    }
  }

  lemma Between(x: nat, b: int, d: nat)
    requires !Less(x, b, d) && Less(x, b, 10 * Cut(d))
    ensures var p := DIVISOR_BITS - Bits(d); ShiftBy(d, p) <= ShiftBy(x, p + b) < 10 * ShiftBy(d, p)
  {
    hide Pow2, Less, Bits;
    var p := DIVISOR_BITS - Bits(d);
    var y := ShiftBy(d, p);
    CutScales(d);
    ScaledOrder(x, b, 10 * Cut(d), p, 10 * y);
    ScaledOrder(x, b, Cut(d), p, y);
    if Less(x, b, Cut(d)) {
      LessMore(x, b, Cut(d), d);
    }
  }

  lemma CutScales(d: nat)
    ensures var p := DIVISOR_BITS - Bits(d);
      Times2(Cut(d), p, ShiftBy(d, p)) && Times2(10 * Cut(d), p, 10 * ShiftBy(d, p)) && Cut(d) <= d
  {
    hide Pow2, Bits;
    var p := DIVISOR_BITS - Bits(d);
    if p >= 0 {
      Associate(10, d, Pow2(p));
    } else {
      Associate(10, ShiftBy(d, p), Pow2(-p));
      WholeOf(d, Pow2(-p));
    }
  }

  lemma WholeOf(x: nat, d: nat)
    requires d > 0
    ensures Quotient(x, d) * d <= x
  {
  }

  /** The divisor has three words, the top one of ten bits. */
  lemma DivisorSuits(divisor: BigInt)
    requires divisor.Valid() && HasBits(divisor.Magnitude(), DIVISOR_BITS)
    ensures divisor.wordCount == 3 && 512 <= divisor.HighWord() < 1024
  {
    hide Pow2, Power, Number;
    Shape(divisor);
    Pow2Words(2);
    Pow2Words(3);
    Pow2Add(9, 64);
    Pow2Add(10, 64);
    TenBits();
    NineBits();
    Pow2Less(74, 96);
    if divisor.wordCount < 3 {
      PowerOrder(divisor.wordCount, 2);
      Pow2Less(64, 73);
    } else if divisor.wordCount > 3 {
      PowerOrder(3, divisor.wordCount - 1);
    }
    TopWordBounds(divisor);
    var high := divisor.HighWord();
    if high < 512 {
      MulOrder(high + 1, 512, Power(2));
    } else if high >= 1024 {
      MulOrder(1024, high, Power(2));
    }
  }

  lemma NineBits()
    ensures Pow2(9) == 512
  {
  }

  lemma BothReady(scaled: BigInt, divisor: BigInt)
    requires scaled.Valid() && scaled.sign == 1 && divisor.Valid() && divisor.sign == 1 && divisor.Magnitude() > 1
    requires divisor.wordCount == 3 && 512 <= divisor.HighWord() < 1024 && scaled.Magnitude() < 10 * divisor.Magnitude()
    ensures Ready(scaled, divisor, Zero(), 10)
  {
    hide Power, Number;
    Shape(Zero());
  }

  /** Up to 10 to the 22nd nothing is rounded away. */
  lemma SmallPowersExact(e: int)
    requires e <= 22
    ensures Cut(UpPower(e)) == UpPower(e)
  {
    hide Exp, Pow2, Power, Cut;
    UpPowerFits(e);
    if e > 0 {
      ExpOrder(e, 22);
      TwentyTwo();
    } else {
      Pow2Zero();
      Pow2Less(0, 74);
    }
    FewBits(UpPower(e));
  }

  lemma FewBits(d: nat)
    requires 0 < d < Pow2(74)
    ensures Cut(d) == d
  {
    hide Pow2, Bits, ShiftBy;
    BitsOf(d);
    if Bits(d) > DIVISOR_BITS {
      Pow2Order(DIVISOR_BITS, Bits(d) - 1);
    }
  }

  // ---- Beyond 10 to the 22nd ----

  /** The twenty bits below the top of ten times the divisor and above those that may be rounded away. */
  ghost predicate WindowSet(d: nat) {
    Bits(d) > DIVISOR_BITS && Quotient(10 * d, Pow2(Bits(d) - DIVISOR_BITS + 4)) % 0x10_0000 != 0
  }

  /** Unless those bits are all zero, no mantissa of 53 bits comes between ten times the rounded divisor and ten times the
      divisor. */
  lemma NothingBetween(x: nat, b: int, d: nat)
    requires x < Pow2(53) && d > 0 && WindowSet(d) && Less(x, b, 10 * d)
    ensures Less(x, b, 10 * Cut(d))
  {
    hide Pow2, Bits, ShiftBy, Cut, Quotient;
    var k := Bits(d) - DIVISOR_BITS;
    CutBounds(d);
    if b < 0 {
      MulOrder(1, Pow2(-b), 10 * Cut(d));
      Pow2Less(53, 73);
    } else if !Less(x, b, 10 * Cut(d)) {
      TooFewBits(x, b, k, 10 * Cut(d));
      Multiples(x, b, k + 24);
      var z := x * Pow2(b - (k + 24));
      TenBelowSixteen(k);
      assert 10 * Cut(d) <= z * Pow2(k + 24) < 10 * d < 10 * Cut(d) + 10 * Pow2(k);
      WindowOf(10 * d, z, k);
    }
  }

  /** So for them it is enough that the power of ten is that of the first digit. */
  lemma LeadsByPower(mantissa: nat, base2: int, exponent: int)
    requires exponent <= 324 && (exponent <= 22 || (mantissa < Pow2(53) && WindowSet(UpPower(exponent))))
    ensures var x, d := mantissa * UpPower(-exponent), UpPower(exponent);
      Leads(mantissa, base2, exponent) <==> !Less(x, base2, d) && Less(x, base2, 10 * d)
  {
    hide Pow2, Exp, Less, Cut, Power, WindowSet;
    var x, d := mantissa * UpPower(-exponent), UpPower(exponent);
    UpPowerFits(exponent);
    if exponent <= 22 {
      SmallPowersExact(exponent);
    } else {
      if Less(x, base2, 10 * d) {
        NothingBetween(x, base2, d);
      }
      CutScales(d);
      if Less(x, base2, 10 * Cut(d)) {
        LessMore(x, base2, 10 * Cut(d), 10 * d);
      }
    }
  }

  lemma TenBelowSixteen(k: nat)
    ensures 10 * Pow2(k) < Pow2(k + 4)
  {
    hide Pow2;
    Pow2Add(4, k);
    EightIs();
  }

  lemma CutBounds(d: nat)
    requires d > 0 && Bits(d) > DIVISOR_BITS
    ensures var p := Pow2(Bits(d) - DIVISOR_BITS);
      Cut(d) <= d < Cut(d) + p && Cut(d) >= Pow2(73) * p && Cut(d) >= Pow2(73)
  {
    hide Pow2, Bits;
    var p := Pow2(Bits(d) - DIVISOR_BITS);
    var q := Quotient(d, p);
    BitsOf(d);
    ShiftedBits(d, Bits(d), DIVISOR_BITS);
    assert ShiftBy(d, DIVISOR_BITS - Bits(d)) == q;
    assert Cut(d) == q * p;
    WholeBounds(d, p);
    MulOrder(Pow2(73), q, p);
    MulOrder(1, p, Pow2(73));
  }

  lemma WholeBounds(x: nat, p: nat)
    requires p > 0
    ensures Quotient(x, p) * p <= x < Quotient(x, p) * p + p
  {
  }

  lemma TooFewBits(x: nat, b: int, k: nat, c: nat)
    requires x < Pow2(53) && b >= 0 && c >= 10 * (Pow2(73) * Pow2(k)) && x * Pow2(b) >= c
    ensures b >= k + 24
  {
    hide Pow2;
    if b < k + 24 {
      Pow2Order(b, k + 23);
      MulOrder(Pow2(b), Pow2(k + 23), x);
      MulStrict(x, Pow2(53), Pow2(k + 23));
      Pow2Add(53, k + 23);
      Pow2Add(73, k);
      Pow2Add(3, 73 + k);
      EightIs();
    }
  }

  lemma EightIs()
    ensures Pow2(3) == 8 && Pow2(4) == 16
  {
  }

  lemma Multiples(x: nat, b: int, n: nat)
    requires b >= n
    ensures x * Pow2(b) == x * Pow2(b - n) * Pow2(n)
  {
    hide Pow2;
    Pow2Add(b - n, n);
    Associate(x, Pow2(b - n), Pow2(n));
  }

  lemma WindowOf(p: nat, z: nat, k: nat)
    requires z * Pow2(k + 24) <= p < z * Pow2(k + 24) + Pow2(k + 4)
    ensures Quotient(p, Pow2(k + 4)) % 0x10_0000 == 0
  {
    hide Pow2;
    Pow2Add(20, k + 4);
    TwentyBits();
    Associate(z, 0x10_0000, Pow2(k + 4));
    WholePart(z * 0x10_0000, p - z * Pow2(k + 24), Pow2(k + 4));
  }

  lemma TwentyBits()
    ensures Pow2(20) == 0x10_0000
  {
    Pow2Add(10, 10);
    TenBits();
  }

  lemma TwentyTwo()
    ensures Exp(10, 22) < Pow2(74)
  {
    hide Exp, Pow2;
    TableOfTen(18);
    LargestPower();
    ExpAdd(10, 18, 3);
    ExpAdd(10, 21, 1);
    ExpOne(10);
    Pow2Word();
    Pow2Add(32, 32);
    Pow2Add(64, 10);
    TenBits();
  }

  lemma LargestPower()
    ensures POWERS_OF_TEN[18] == 1000000000000000000
  {
  }

  /** Both were shifted by what gives the divisor its bits. */
  ghost predicate ScaledTo(mantissa: nat, base2: int, exponent: int, scaled: nat, divisor: nat) {
    var x, d := mantissa * UpPower(-exponent), UpPower(exponent);
    var p := DIVISOR_BITS - Bits(d);
    divisor == ShiftBy(d, p) && scaled == ShiftBy(x, p + base2)
  }

  /** The two numbers whose quotient, between one and ten, is printed. */
  method ScaleDecimal(mantissa: nat, base2: int, exponent: int) returns (scaled: BigInt, divisor: BigInt)
    requires 0 < mantissa < BASE * BASE && -324 <= exponent <= 308 && Leads(mantissa, base2, exponent)
    ensures Ready(scaled, divisor, Zero(), 10) && divisor.Magnitude() <= scaled.Magnitude()
    ensures ScaledTo(mantissa, base2, exponent, scaled.Magnitude(), divisor.Magnitude())
  {
    hide Pow2, Power, Number, ShiftBy, Cut, Ready, Less, HasBits, UpPower;
    ghost var x, d := mantissa * UpPower(-exponent), UpPower(exponent);
    var scaledValue, wholeDivisor := WholeNumbers(mantissa, exponent);
    var bits := BitCount(wholeDivisor);
    BitsOf(d);
    ShiftedBits(d, bits, DIVISOR_BITS);
    BitsFit(ShiftBy(d, DIVISOR_BITS - bits));
    divisor := Shift(wholeDivisor, DIVISOR_BITS - bits);
    Between(x, base2, d);
    scaled := Shift(scaledValue, DIVISOR_BITS - bits + base2);
    DivisorSuits(divisor);
    BothReady(scaled, divisor);
  }

  /** The mantissa and the divisor, one of them times a power of ten. */
  method WholeNumbers(mantissa: nat, exponent: int) returns (value: BigInt, divisor: BigInt)
    requires 0 < mantissa < BASE * BASE && -324 <= exponent <= 308
    ensures value.Valid() && value.sign == 1 && value.Magnitude() == mantissa * UpPower(-exponent)
    ensures divisor.Valid() && divisor.sign == 1 && divisor.Magnitude() == UpPower(exponent)
  {
    hide Pow2, Power, Number, Exp;
    UpPowerFits(exponent);
    UpPowerFits(-exponent);
    MantissaFits(mantissa, -exponent);
    value, divisor := FromU64(mantissa), One();
    ValueIsMagnitude(value);
    ValueIsMagnitude(divisor);
    if exponent > 0 {
      var power := Pow(10, exponent);
      ValueIsMagnitude(power);
      divisor := Multiply(divisor, power);
    } else if exponent < 0 {
      var multiplier := Pow(10, -exponent);
      ValueIsMagnitude(multiplier);
      value := Multiply(value, multiplier);
    }
    ValueIsMagnitude(value);
    ValueIsMagnitude(divisor);
  }
}
