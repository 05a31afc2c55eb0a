/** The digits of a number: how the loop that prints a number chooses and rounds them. */
module Digits {
  import opened Words
  import opened BigInteger
  import opened BigShift
  import opened BigDivide

  /** The number a sequence of digits denotes. */
  function Denotes(digits: seq<nat>, radix: nat): nat {
    if digits == [] then 0 else Denotes(digits[..|digits| - 1], radix) * radix + digits[|digits| - 1]
  }

  ghost predicate AreDigits(digits: seq<nat>, radix: nat) {
    forall k: nat {:trigger digits[k]} :: k < |digits| ==> digits[k] < radix
  }

  lemma OneMore(digits: seq<nat>, radix: nat, digit: nat)
    ensures Denotes(digits + [digit], radix) == Denotes(digits, radix) * radix + digit
  {
    assert (digits + [digit])[..|digits|] == digits;
  }

  /** With `k + 1` digits one of the neighbours is within the error: the lower one, and nearer, or the upper one. */
  ghost predicate Stops(v: nat, d: nat, e: nat, radix: nat, k: nat)
    requires d > 0
  {
    var r, error := v * Exp(radix, k) % d, e * Exp(radix, k);
    (r <= error && r < d / 2) || d - r <= error
  }

  /** What has been printed after `k` digits, the value still to be printed and the error, all at the scale of the
      next digit; no earlier digit could be rounded. */
  ghost predicate Unrounded(v: nat, d: nat, e: nat, radix: nat, digits: seq<nat>, s: nat, error: nat) {
    && d > 0 && (forall k: nat {:trigger Stops(v, d, e, radix, k)} :: k < |digits| ==> !Stops(v, d, e, radix, k))
    && AreDigits(digits, radix) && s < radix * d
    && v * Exp(radix, |digits|) == d * (Denotes(digits, radix) * radix) + s
    && error == e * Exp(radix, |digits|)
    && (digits != [] ==> radix * d - s > error)
  }

  /** `n` times `d` is within the error of `x`, and no other multiple is nearer; on a tie it is the upper one. */
  ghost predicate Nearest(x: nat, d: nat, n: nat, error: nat) {
    && x - d * n <= error && d * n - x <= error
    && 2 * (x - d * n) < d && 2 * (d * n - x) <= d + 1
  }

  lemma NearestDown(x: nat, d: nat, n: nat, r: nat, error: nat)
    requires x == d * n + r && r <= error && r < d / 2
    ensures Nearest(x, d, n, error)
  {
  }

  lemma NearestUp(x: nat, d: nat, n: nat, r: nat, error: nat)
    requires x == d * n + r && r < d && d - r <= error && !(r <= error && r < d / 2)
    ensures Nearest(x, d, n + 1, error)
  {
    Distribute(n, 1, d);
  }

  /** The digits are the first that denote the number to within the error, and of two such neighbours the nearer one, on a
      tie the upper one. A carry out of the first digit shows as the digit 1 and an
      exponent one higher. */
  ghost predicate Rounded(v: nat, d: nat, e: nat, radix: nat, digits: seq<nat>, carried: bool) {
    && d > 0 && digits != [] && AreDigits(digits, radix) && (carried ==> digits == [1])
    && (forall k: nat {:trigger Stops(v, d, e, radix, k)} :: k < |digits| ==> (Stops(v, d, e, radix, k) <==> k == |digits| - 1))
    && var n := if carried then radix else Denotes(digits, radix);
       var scale := Exp(radix, |digits| - 1);
       Nearest(v * scale, d, n, e * scale)
  }

  /** The digits are those of the exact number, cut off. */
  ghost predicate CutOff(v: nat, d: nat, radix: nat, digits: seq<nat>) {
    && AreDigits(digits, radix)
    && (digits != [] ==>
          var scale := Exp(radix, |digits| - 1);
          d * Denotes(digits, radix) <= v * scale < d * (Denotes(digits, radix) + 1))
  }

  // ---- One digit ----

  /** The state after the digit `q` with remainder `r`, before any rounding. */
  lemma DigitStep(v: nat, d: nat, e: nat, radix: nat, digits: seq<nat>, s: nat, error: nat, q: nat, r: nat)
    requires Unrounded(v, d, e, radix, digits, s, error) && s == q * d + r && r < d
    ensures q < radix && AreDigits(digits + [q], radix)
    ensures v * Exp(radix, |digits|) == d * Denotes(digits + [q], radix) + r && v * Exp(radix, |digits|) % d == r
    ensures Stops(v, d, e, radix, |digits|) <==> (r <= error && r < d / 2) || d - r <= error
  {
    hide Denotes, Exp;
    RestOf(v * Exp(radix, |digits|), d, Denotes(digits + [q], radix), r);
    DigitBelow(s, d, q, r, radix);
    OneMore(digits, radix, q);
    DigitSum(v * Exp(radix, |digits|), d, Denotes(digits, radix) * radix, q, r, s);
    MoreDigits(digits, radix, q);
  }

  lemma RestOf(x: nat, d: nat, n: nat, r: nat)
    requires r < d
    ensures x == d * n + r ==> x % d == r
  {
    if x == d * n + r {
      WholePart(n, r, d);
    }
  }

  lemma DigitBelow(s: nat, d: nat, q: nat, r: nat, radix: nat)
    requires s == q * d + r && s < radix * d
    ensures q < radix
  {
    if q >= radix {
      MulOrder(radix, q, d);
    }
  }

  lemma DigitSum(vp: int, d: int, n: int, q: int, r: int, s: int)
    requires vp == d * n + s && s == q * d + r
    ensures vp == d * (n + q) + r
  {
    Distribute(n, q, d);
  }

  lemma MoreDigits(digits: seq<nat>, radix: nat, q: nat)
    requires AreDigits(digits, radix) && q < radix
    ensures AreDigits(digits + [q], radix)
  {
  }

  lemma RoundDown(v: nat, d: nat, e: nat, radix: nat, digits: seq<nat>, s: nat, error: nat, q: nat, r: nat)
    requires Unrounded(v, d, e, radix, digits, s, error) && s == q * d + r && r < d && r <= error && r < d / 2
    ensures Rounded(v, d, e, radix, digits + [q], false)
  {
    hide Denotes, Exp, Stops, Nearest;
    DigitStep(v, d, e, radix, digits, s, error, q, r);
    NearestDown(v * Exp(radix, |digits|), d, Denotes(digits + [q], radix), r, error);
  }

  /** Rounding up carries out of the digit only if it is the first: otherwise the digit before would have been
      rounded up already. */
  lemma RoundUp(v: nat, d: nat, e: nat, radix: nat, digits: seq<nat>, s: nat, error: nat, q: nat, r: nat)
    requires Unrounded(v, d, e, radix, digits, s, error) && s == q * d + r && r < d && d - r <= error && radix > 1
    requires !(r <= error && r < d / 2)
    ensures q < radix && (q + 1 == radix ==> digits == [])
    ensures q + 1 < radix ==> Rounded(v, d, e, radix, digits + [q + 1], false)
    ensures q + 1 == radix ==> Rounded(v, d, e, radix, [1], true)
  {
    hide Denotes, Exp, Stops, Nearest;
    DigitStep(v, d, e, radix, digits, s, error, q, r);
    Distribute(q, 1, d);
    OneMore(digits, radix, q);
    OneMore(digits, radix, q + 1);
    NearestUp(v * Exp(radix, |digits|), d, Denotes(digits + [q], radix), r, error);
    if q + 1 == radix {
      if digits == [] {
        CarryOut(radix, q);
      }
    }
  }

  lemma CarryOut(radix: nat, q: nat)
    ensures Denotes([] + [q], radix) == q && Exp(radix, 0) == 1
  {
    OneMore([], radix, q);
  }

  /** Neither rounding applied: the next digit is worked out at the next scale. */
  lemma NoRounding(v: nat, d: nat, e: nat, radix: nat, digits: seq<nat>, s: nat, error: nat, q: nat, r: nat)
    requires Unrounded(v, d, e, radix, digits, s, error) && s == q * d + r && r < d && d - r > error && radix > 0
    requires !(r <= error && r < d / 2)
    ensures Unrounded(v, d, e, radix, digits + [q], r * radix, error * radix)
    ensures CutOff(v, d, radix, digits + [q])
  {
    hide Denotes, Stops;
    DigitStep(v, d, e, radix, digits, s, error, q, r);
    var k := |digits|;
    assert |digits + [q]| == k + 1 && Exp(radix, k + 1) == radix * Exp(radix, k);
    hide Exp;
    var n := Denotes(digits + [q], radix);
    ScaleUp(v, Exp(radix, k), radix, d, n, r);
    Associate(e, Exp(radix, k), radix);
    MulStrict(r, d, radix);
    MulStrict(error, d - r, radix);
    Distribute(d, r, radix);
    Distribute(n, 1, d);
  }

  lemma ScaleUp(v: nat, p: nat, radix: nat, d: nat, n: nat, r: nat)
    requires v * p == d * n + r
    ensures v * (radix * p) == d * (n * radix) + r * radix
  {
    Associate(v, p, radix);
    Distribute(d * n, r, radix);
    Associate(d, n, radix);
  }

  // ---- The loop ----

  /** Enough room for one-word digits and for the comparisons. */
  ghost predicate Ready(scaled: BigInt, divisor: BigInt, error: BigInt, radix: nat) {
    && scaled.Valid() && divisor.Valid() && error.Valid() && scaled.sign >= 0 && error.sign >= 0 && divisor.sign == 1
    && 2 <= radix <= 36 && divisor.Magnitude() > 1 && divisor.wordCount < WORDS
    && scaled.Magnitude() < radix * divisor.Magnitude()
    && radix <= divisor.HighWord() + 2 && radix * (divisor.HighWord() + 1) <= BASE
    && error.Magnitude() * radix < Power(WORDS)
  }

  /** Anything below `radix` times the divisor has no more words than the divisor. */
  lemma DividendFits(divisor: BigInt, x: BigInt, radix: nat)
    requires divisor.Valid() && x.Valid() && divisor.sign == 1 && x.Magnitude() < radix * divisor.Magnitude()
    requires radix * (divisor.HighWord() + 1) <= BASE
    ensures x.wordCount <= divisor.wordCount
  {
    hide Power, Number;
    BelowTop(divisor, x.Magnitude(), radix);
    Shape(x);
    if x.wordCount > divisor.wordCount {
      PowerOrder(divisor.wordCount, x.wordCount - 1);
    }
  }

  lemma BelowTop(divisor: BigInt, x: nat, radix: nat)
    requires divisor.Valid() && x < radix * divisor.Magnitude() && radix * (divisor.HighWord() + 1) <= BASE
    ensures x < Power(divisor.wordCount)
  {
    hide Power, Number;
    TopWordBounds(divisor);
    var p := Power(divisor.wordCount - 1);
    MulOrder(divisor.Magnitude(), (divisor.HighWord() + 1) * p, radix);
    Associate(radix, divisor.HighWord() + 1, p);
    MulOrder(radix * (divisor.HighWord() + 1), BASE, p);
    NextPower2(divisor.wordCount - 1);
  }

  lemma NextPower2(k: nat)
    ensures Power(k + 1) == BASE * Power(k)
  {
  }

  /** Prints digit after digit until the rest is within the error or there are enough digits. */
  method GenerateDigits(scaledValue: BigInt, divisor: BigInt, errorDelta: BigInt, radix: nat, maxDigits: nat,
          exponent: int)
    returns (digits: seq<nat>, rounded: bool, newExponent: int)
    requires Ready(scaledValue, divisor, errorDelta, radix)
    ensures |digits| <= maxDigits && newExponent <= exponent + 1 && (rounded || (|digits| == maxDigits && newExponent == exponent))
    ensures rounded ==> exponent <= newExponent
    ensures rounded ==> Rounded(scaledValue.Magnitude(), divisor.Magnitude(), errorDelta.Magnitude(), radix, digits, newExponent == exponent + 1)
    ensures !rounded ==> CutOff(scaledValue.Magnitude(), divisor.Magnitude(), radix, digits)
    ensures !rounded ==> forall k: nat :: k < maxDigits ==> !Stops(scaledValue.Magnitude(), divisor.Magnitude(), errorDelta.Magnitude(), radix, k)
  {
    hide Number, Power, Denotes, Exp, Rounded, CutOff, Unrounded, Ready;
    ghost var v, d, e := scaledValue.Magnitude(), divisor.Magnitude(), errorDelta.Magnitude();
    var scaled, error := scaledValue, errorDelta;
    var half := HalfOf(scaled, divisor, error, radix);
    digits, rounded, newExponent := [], false, exponent;
    NothingPrinted(scaledValue, divisor, errorDelta, radix);
    while |digits| < maxDigits && !rounded
      invariant |digits| <= maxDigits
      invariant !rounded ==> newExponent == exponent && Ready(scaled, divisor, error, radix)
      invariant !rounded ==> Unrounded(v, d, e, radix, digits, scaled.Magnitude(), error.Magnitude()) && CutOff(v, d, radix, digits)
      invariant rounded ==> exponent <= newExponent <= exponent + 1 && Rounded(v, d, e, radix, digits, newExponent == exponent + 1)
    {
      var digit, rest := NextDigit(scaled, divisor, error, radix);
      var down, up := Rounding(rest, divisor, error, half, radix);
      ghost var s, r := scaled.Magnitude(), rest.Magnitude();
      if down {
        RoundDown(v, d, e, radix, digits, s, error.Magnitude(), digit, r);
        rounded := true;
        digits := digits + [digit];
      } else if up {
        RoundUp(v, d, e, radix, digits, s, error.Magnitude(), digit, r);
        rounded := true;
        digit := digit + 1;
        if digit == radix {
          digit := 1;
          newExponent := newExponent + 1;
        }
        assert digit == 1 && newExponent == exponent + 1 ==> digits + [1] == [1];
        digits := digits + [digit];
      } else {
        NoRounding(v, d, e, radix, digits, s, error.Magnitude(), digit, r);
        digits := digits + [digit];
        scaled, error := NextScale(rest, divisor, error, radix);
      }
    }
    if !rounded {
      NeverStops(v, d, e, radix, digits, scaled.Magnitude(), error.Magnitude());
    }
  }

  lemma NeverStops(v: nat, d: nat, e: nat, radix: nat, digits: seq<nat>, s: nat, error: nat)
    requires Unrounded(v, d, e, radix, digits, s, error)
    ensures d > 0 && forall k: nat :: k < |digits| ==> !Stops(v, d, e, radix, k)
  {
  }

  lemma NothingPrinted(scaled: BigInt, divisor: BigInt, error: BigInt, radix: nat)
    requires Ready(scaled, divisor, error, radix)
    ensures var v, d, e := scaled.Magnitude(), divisor.Magnitude(), error.Magnitude();
      Unrounded(v, d, e, radix, [], v, e) && CutOff(v, d, radix, []) && 2 <= radix
  {
    hide Number, Power;
    assert Exp(radix, 0) == 1 && Denotes([], radix) == 0;
  }

  method HalfOf(ghost scaled: BigInt, divisor: BigInt, ghost error: BigInt, ghost radix: nat) returns (half: BigInt)
    requires Ready(scaled, divisor, error, radix)
    ensures half.Valid() && half.sign == 1 && half.Magnitude() == divisor.Magnitude() / 2
  {
    hide Number, Power;
    assert Pow2(1) == 2;
    var shifted := RightShift(divisor, 1);
    half := shifted.value;
  }

  method NextDigit(scaled: BigInt, divisor: BigInt, ghost error: BigInt, radix: nat) returns (digit: nat, rest: BigInt)
    requires Ready(scaled, divisor, error, radix)
    ensures Ready(rest, divisor, error, radix) && rest.Magnitude() < divisor.Magnitude()
    ensures scaled.Magnitude() == digit * divisor.Magnitude() + rest.Magnitude()
  {
    hide Number, Power;
    DividendFits(divisor, scaled, radix);
    MulOrder(radix, divisor.HighWord() + 2, divisor.Magnitude());
    MulOrder(2, radix, divisor.HighWord() + 1);
    digit, rest := Quorem(scaled, divisor);
    DivisionParts(scaled.Magnitude(), divisor.Magnitude());
    MulOrder(1, radix, divisor.Magnitude());
  }

  lemma DivisionParts(x: nat, d: nat)
    requires d > 0
    ensures x == x / d * d + x % d && 0 <= x % d < d
  {
  }

  /** The two comparisons with the error; the subtraction is never one of zero, because a rest of zero has been
      rounded down. */
  method Rounding(rest: BigInt, divisor: BigInt, error: BigInt, half: BigInt, ghost radix: nat) returns (down: bool,
          up: bool)
    requires Ready(rest, divisor, error, radix) && half.Valid() && half.sign == 1
    requires rest.Magnitude() < divisor.Magnitude()
    ensures down <==> rest.Magnitude() <= error.Magnitude() && rest.Magnitude() < half.Magnitude()
    ensures up <==> !down && divisor.Magnitude() - rest.Magnitude() <= error.Magnitude()
  {
    hide Number, Power;
    down, up := false, false;
    var order := Compare(rest, error);
    if order <= 0 {
      order := Compare(rest, half);
      down := order < 0;
    }
    if !down {
      var gap := Subtract(divisor, rest);
      order := Compare(gap, error);
      up := order <= 0;
    }
  }

  /** The rest and the error times the radix. */
  method NextScale(rest: BigInt, divisor: BigInt, error: BigInt, radix: nat) returns (scaled: BigInt, delta: BigInt)
    requires Ready(rest, divisor, error, radix) && rest.Magnitude() < divisor.Magnitude()
    requires error.Magnitude() < divisor.Magnitude() - rest.Magnitude()
    ensures Ready(scaled, divisor, delta, radix)
    ensures scaled.Magnitude() == rest.Magnitude() * radix && delta.Magnitude() == error.Magnitude() * radix
  {
    hide Number, Power;
    ScaleFits(divisor, rest.Magnitude(), radix);
    ScaleFits(divisor, error.Magnitude(), radix);
    scaled := MultiplyAdd(rest, radix, 0);
    delta := MultiplyAdd(error, radix, 0);
  }

  /** What is below the divisor has room for two more digits. */
  lemma ScaleFits(divisor: BigInt, x: nat, radix: nat)
    requires divisor.Valid() && divisor.wordCount < WORDS && x < divisor.Magnitude() && 0 < radix <= BASE
    requires radix * (divisor.HighWord() + 1) <= BASE
    ensures x * radix < radix * divisor.Magnitude() && x * radix < Power(WORDS) && x * radix * radix < Power(WORDS)
  {
    hide Number, Power;
    var p := Power(divisor.wordCount);
    MulStrict(x, divisor.Magnitude(), radix);
    BelowTop(divisor, x * radix, radix);
    PowerOrder(divisor.wordCount, WORDS);
    PowerOrder(divisor.wordCount + 1, WORDS);
    NextPower2(divisor.wordCount);
    MulStrict(x * radix, p, radix);
    MulOrder(radix, BASE, p);
  }
}
