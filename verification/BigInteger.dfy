/** Integers of up to 39 words with a sign. While results fit, the operations are exact. */
module BigInteger {
  import opened Words

  const WORDS: nat := 39

  datatype BigInt = BigInt(bits: seq<Word>, wordCount: nat, sign: int) {
    /** All words are there, those from the word count on are zero, and the one below it is not, except that zero
        has one word. */
    ghost predicate Trimmed() {
      && |bits| == WORDS && 1 <= wordCount <= WORDS
      && (forall k: nat {:trigger bits[k]} :: wordCount <= k < WORDS ==> bits[k] == 0)
      && (wordCount > 1 ==> bits[wordCount - 1] != 0)
      && (sign == 0 || sign == 1 || sign == -1)
    }

    /** And the sign says whether it is zero. */
    ghost predicate Valid() {
      Trimmed() && (sign == 0 <==> Magnitude() == 0)
    }

    ghost function Magnitude(): nat {
      Number(bits)
    }

    ghost function Value(): int {
      sign * Magnitude()
    }

    function HighWord(): Word
      requires 1 <= wordCount <= |bits|
    {
      bits[wordCount - 1]
    }
  }

  // ---- Facts about representations ----

  lemma Shape(a: BigInt)
    requires a.Trimmed()
    ensures a.bits[..WORDS] == a.bits
    ensures Number(a.bits[..a.wordCount]) == a.Magnitude() < Power(a.wordCount) <= Power(WORDS)
    ensures a.Magnitude() > 0 ==> a.Magnitude() >= Power(a.wordCount - 1) && a.HighWord() != 0
    ensures a.Magnitude() == 0 ==> a.wordCount == 1 && a.bits[0] == 0
  {
    hide Power, Number;
    assert a.bits[..WORDS] == a.bits;
    TopZeros(a.bits, a.wordCount, WORDS);
    Bound(a.bits[..a.wordCount]);
    PowerOrder(a.wordCount, WORDS);
    if a.wordCount > 1 {
      AtLeast(a.bits, a.wordCount);
    } else {
      SingleWord(a.bits);
    }
  }

  lemma SingleWord(s: seq<Word>)
    requires |s| > 0
    ensures Number(s[..1]) == s[0] && Power(0) == 1
  {
    NextWord(s, 0);
    assert s[..0] == [];
  }

  lemma PrefixOf(a: BigInt, i: nat)
    requires a.Trimmed() && a.wordCount <= i <= WORDS
    ensures Number(a.bits[..i]) == a.Magnitude()
  {
    hide Power, Number;
    Shape(a);
    TopZeros(a.bits, a.wordCount, i);
  }

  lemma ZeroWords(n: nat, s: seq<Word>)
    requires n <= |s| && forall k: nat {:trigger s[k]} :: k < n ==> s[k] == 0
    ensures Number(s[..n]) == 0
  {
    TopZeros(s, 0, n);
  }

  ghost predicate IsZeroFrom(bits: seq<Word>, n: nat) {
    forall k: nat {:trigger bits[k]} :: n <= k < |bits| ==> bits[k] == 0
  }

  /** Leaves leading zero words out. */
  method Trim(bits: seq<Word>, wordCount: nat, sign: int) returns (r: BigInt)
    requires |bits| == WORDS && 1 <= wordCount <= WORDS && IsZeroFrom(bits, wordCount) && (sign == 0 || sign == 1 || sign == -1)
    ensures r.Trimmed() && r.bits == bits && r.sign == sign && r.wordCount <= wordCount
  {
    var n := wordCount;
    while n > 1 && bits[n - 1] == 0
      invariant 1 <= n <= wordCount && IsZeroFrom(bits, n)
    {
      n := n - 1;
    }
    r := BigInt(bits, n, sign);
  }

  function FromWord(value: Word): (r: BigInt)
    ensures r.Valid() && r.Value() == value
  {
    var bits := seq(WORDS, i => if i == 0 then value else 0);
    assert Number(bits) == value by { OneWord(bits, value); }
    BigInt(bits, 1, if value == 0 then 0 else 1)
  }

  lemma OneWord(bits: seq<Word>, value: Word)
    requires |bits| > 0 && bits[0] == value && IsZeroFrom(bits, 1)
    ensures Number(bits) == value
  {
    assert bits[..|bits|] == bits;
    TopZeros(bits, 1, |bits|);
    NextWord(bits, 0);
    assert bits[..0] == [];
  }

  function Zero(): (r: BigInt)
    ensures r.Valid() && r.Value() == 0
  {
    FromWord(0)
  }

  function One(): (r: BigInt)
    ensures r.Valid() && r.Value() == 1
  {
    FromWord(1)
  }

  /** A number below 2 to the 64th. */
  function FromU64(value: nat): (r: BigInt)
    requires value < BASE * BASE
    ensures r.Valid() && r.Value() == value
  {
    var low: Word, high: Word := value % BASE, value / BASE;
    var bits := seq(WORDS, i => if i == 0 then low else if i == 1 then high else 0);
    assert Number(bits) == value by { TwoWords(bits, low, high); }
    BigInt(bits, if high == 0 then 1 else 2, if value == 0 then 0 else 1)
  }

  lemma TwoWords(bits: seq<Word>, low: Word, high: Word)
    requires |bits| == WORDS && bits[0] == low && bits[1] == high && IsZeroFrom(bits, 2)
    ensures Number(bits) == low + BASE * high
  {
    assert bits[..|bits|] == bits;
    TopZeros(bits, 2, |bits|);
    NextWord(bits, 1);
    NextWord(bits, 0);
    assert bits[..0] == [] && Power(1) == BASE * Power(0);
  }

  function Negate(a: BigInt): (r: BigInt)
    requires a.Valid()
    ensures r.Valid() && r.Value() == -a.Value() && r.Magnitude() == a.Magnitude()
  {
    a.(sign := -a.sign)
  }

  method Put(out: array<Word>, i: nat, w: Word)
    requires i < out.Length
    modifies out
    ensures out[..] == old(out[..])[i := w]
  {
    out[i] := w;
  }

  // ---- Comparing ----

  /** Going down from the top, the first differing word decides. */
  lemma TopDecides(a: seq<Word>, b: seq<Word>, i: nat, n: nat)
    requires i < n <= |a| && n <= |b| && a[i] < b[i] && forall k: nat {:trigger a[k]} {:trigger b[k]} :: i < k < n ==> a[k] == b[k]
    ensures Number(a[..n]) < Number(b[..n])
    decreases n
  {
    hide Power, Number;
    NextWord(a, n - 1);
    NextWord(b, n - 1);
    if i == n - 1 {
      Bound(a[..i]);
      var x: int := a[i];
      MulOrder(x + 1, b[i], Power(i));
      Distribute(x, 1, Power(i));
    } else {
      TopDecides(a, b, i, n - 1);
    }
  }

  lemma ShorterIsLess(a: BigInt, b: BigInt)
    requires a.Trimmed() && b.Trimmed() && a.wordCount < b.wordCount
    ensures a.Magnitude() < b.Magnitude()
  {
    hide Power, Number;
    Shape(a);
    Shape(b);
    PowerOrder(a.wordCount, b.wordCount - 1);
    AtLeast(b.bits, b.wordCount);
  }

  /** -1, 0 or 1 as |a| is less than, equal to or greater than |b|. */
  method CompareWords(a: BigInt, b: BigInt) returns (r: int)
    requires a.Trimmed() && b.Trimmed() && a.wordCount == b.wordCount
    ensures r == if a.Magnitude() < b.Magnitude() then -1 else if a.Magnitude() == b.Magnitude() then 0 else 1
  {
    hide Power, Number;
    ghost var n := a.wordCount;
    Shape(a);
    Shape(b);
    var i := a.wordCount;
    while i > 0
      invariant i <= a.wordCount
      invariant forall k: nat {:trigger a.bits[k]} {:trigger b.bits[k]} :: i <= k < n ==> a.bits[k] == b.bits[k]
    {
      i := i - 1;
      if a.bits[i] != b.bits[i] {
        if a.bits[i] < b.bits[i] {
          TopDecides(a.bits, b.bits, i, n);
          return -1;
        }
        TopDecides(b.bits, a.bits, i, n);
        return 1;
      }
    }
    SamePrefix(a.bits, b.bits, n);
    return 0;
  }

  /** The signs decide, then the magnitudes. */
  ghost function Order(a: BigInt, b: BigInt): int {
    if a.sign != b.sign then (if a.sign < b.sign then -1 else 1)
    else if a.sign == 0 || a.Magnitude() == b.Magnitude() then 0
    else if (a.Magnitude() < b.Magnitude()) == (a.sign > 0) then -1
    else 1
  }

  lemma OrderIsValues(a: BigInt, b: BigInt)
    requires a.Valid() && b.Valid()
    ensures Order(a, b) == if a.Value() < b.Value() then -1 else if a.Value() == b.Value() then 0 else 1
  {
    hide Number;
  }

  method Compare(a: BigInt, b: BigInt) returns (r: int)
    requires a.Trimmed() && b.Trimmed()
    ensures r == Order(a, b)
    ensures a.Valid() && b.Valid() ==> r == if a.Value() < b.Value() then -1 else if a.Value() == b.Value() then 0 else 1
  {
    hide Power, Number;
    if a.Valid() && b.Valid() {
      OrderIsValues(a, b);
    }
    if a.sign != b.sign {
      return if a.sign < b.sign then -1 else 1;
    }
    if a.sign > 0 {
      if a.wordCount < b.wordCount {
        ShorterIsLess(a, b);
        return -1;
      }
      if a.wordCount > b.wordCount {
        ShorterIsLess(b, a);
        return 1;
      }
      r := CompareWords(a, b);
    } else if a.sign < 0 {
      if a.wordCount < b.wordCount {
        ShorterIsLess(a, b);
        return 1;
      }
      if a.wordCount > b.wordCount {
        ShorterIsLess(b, a);
        return -1;
      }
      r := CompareWords(a, b);
      r := -r;
    } else {
      r := 0;
    }
  }

  // ---- Adding ----

  /** One column of an addition. */
  lemma AddColumn(out: seq<Word>, a: seq<Word>, b: seq<Word>, i: nat, carry: nat)
    requires i < |out| && i < |a| && i < |b| && carry <= 1
    requires Number(out[..i]) + carry * Power(i) == Number(a[..i]) + Number(b[..i])
    ensures var t := a[i] + b[i] + carry;
      t / BASE <= 1 && Number(out[i := t % BASE][..i + 1]) + (t / BASE) * Power(i + 1) == Number(a[..i + 1]) + Number(b[..i + 1])
  {
    var t := a[i] + b[i] + carry;
    assert Power(i + 1) == BASE * Power(i);
    ColumnParts(out, a, b, i, t);
    hide Power, Number;
    Carry(t, Power(i));
    var x: int, y: int := a[i], b[i];
    Distribute(x + y, carry, Power(i));
    Distribute(x, y, Power(i));
  }

  lemma ColumnParts(out: seq<Word>, a: seq<Word>, b: seq<Word>, i: nat, t: nat)
    requires i < |out| && i < |a| && i < |b|
    ensures Number(a[..i + 1]) == Number(a[..i]) + a[i] * Power(i)
    ensures Number(b[..i + 1]) == Number(b[..i]) + b[i] * Power(i)
    ensures Number(out[i := t % BASE][..i + 1]) == Number(out[..i]) + (t % BASE) * Power(i)
  {
    hide Power, Number;
    NextWord(a, i);
    NextWord(b, i);
    NextWord(out[i := t % BASE], i);
    assert out[i := t % BASE][..i] == out[..i];
  }

  ghost predicate AddedUpTo(out: seq<Word>, a: seq<Word>, b: seq<Word>, i: nat, carry: nat) {
    && |out| == |a| == |b| == WORDS && i <= WORDS && carry <= 1 && IsZeroFrom(out, i)
    && Number(out[..i]) + carry * Power(i) == Number(a[..i]) + Number(b[..i])
  }

  lemma AddNext(out: seq<Word>, a: seq<Word>, b: seq<Word>, i: nat, carry: nat)
    requires AddedUpTo(out, a, b, i, carry) && i < WORDS
    ensures var t := a[i] + b[i] + carry;
      AddedUpTo(out[i := t % BASE], a, b, i + 1, t / BASE)
  {
    hide Power, Number;
    AddColumn(out, a, b, i, carry);
  }

  /** The sum of the magnitudes, column by column: those both have, then the rest of the longer number. */
  method AddWords(left: BigInt, right: BigInt, sign: int) returns (r: BigInt)
    requires left.Valid() && right.Valid() && left.Magnitude() > 0 && (sign == 1 || sign == -1)
    requires left.Magnitude() + right.Magnitude() < Power(WORDS)
    ensures r.Valid() && r.sign == sign && r.Magnitude() == left.Magnitude() + right.Magnitude()
  {
    hide Power, Number, AddedUpTo;
    var n := if left.wordCount < right.wordCount then right.wordCount else left.wordCount;
    var low := if left.wordCount < right.wordCount then left.wordCount else right.wordCount;
    var out := new Word[WORDS](_ => 0);
    var borrow: nat := 0;
    var i := 0;
    NothingAdded(out[..], left.bits, right.bits);
    while i < low
      invariant i <= low && AddedUpTo(out[..], left.bits, right.bits, i, borrow) && borrow <= 1
    {
      var temp := left.bits[i] + right.bits[i] + borrow;
      AddNext(out[..], left.bits, right.bits, i, borrow);
      Put(out, i, temp % BASE);
      borrow := temp / BASE;
      AddedCarry(out[..], left.bits, right.bits, i + 1, borrow);
      i := i + 1;
    }
    while i < n
      invariant low <= i <= n && AddedUpTo(out[..], left.bits, right.bits, i, borrow) && borrow <= 1
    {
      var word := if left.wordCount > right.wordCount then left.bits[i] else right.bits[i];
      var temp := word + borrow;
      AddNext(out[..], left.bits, right.bits, i, borrow);
      Put(out, i, temp % BASE);
      borrow := temp / BASE;
      AddedCarry(out[..], left.bits, right.bits, i + 1, borrow);
      i := i + 1;
    }
    AddEnd(out[..], left, right, n, borrow);
    if borrow != 0 {
      Put(out, n, borrow);
      n := n + 1;
    }
    r := BigInt(out[..], n, sign);
  }

  lemma NothingAdded(out: seq<Word>, a: seq<Word>, b: seq<Word>)
    requires |out| == |a| == |b| == WORDS && IsZeroFrom(out, 0)
    ensures AddedUpTo(out, a, b, 0, 0)
  {
    assert out[..0] == a[..0] == b[..0] == [];
  }

  lemma AddedCarry(out: seq<Word>, a: seq<Word>, b: seq<Word>, i: nat, carry: nat)
    requires AddedUpTo(out, a, b, i, carry)
    ensures carry <= 1
  {
  }

  /** After the last column: the carry, if any, becomes one more word. */
  lemma AddEnd(out: seq<Word>, left: BigInt, right: BigInt, n: nat, carry: nat)
    requires left.Valid() && right.Valid() && left.Magnitude() > 0
    requires left.Magnitude() + right.Magnitude() < Power(WORDS)
    requires 1 <= n <= WORDS && left.wordCount <= n && right.wordCount <= n && (left.wordCount == n || right.wordCount == n)
    requires AddedUpTo(out, left.bits, right.bits, n, carry)
    ensures carry == 0 || (carry == 1 && n < WORDS)
    ensures var s, k := if carry != 0 then out[n := 1] else out, if carry != 0 then n + 1 else n;
      |s| == WORDS && IsZeroFrom(s, k) && Number(s) == left.Magnitude() + right.Magnitude() && (k > 1 ==> s[k - 1] != 0)
  {
    hide Power, Number;
    PrefixOf(left, n);
    PrefixOf(right, n);
    if carry != 0 {
      assert carry * Power(n) == Power(n);
      CarryFits(out, n, left.Magnitude() + right.Magnitude());
      var s := out[n := 1];
      NextWord(s, n);
      assert s[..n] == out[..n];
      assert s[..WORDS] == s;
      TopZeros(s, n + 1, WORDS);
      TopWordStays(s, left, right, n + 1);
    } else {
      assert out[..WORDS] == out;
      TopZeros(out, n, WORDS);
      TopWordStays(out, left, right, n);
    }
  }

  lemma CarryFits(out: seq<Word>, n: nat, sum: nat)
    requires n <= |out| == WORDS && Number(out[..n]) + Power(n) == sum < Power(WORDS)
    ensures n < WORDS
  {
    hide Number, Power;
    if n == WORDS {
      assert Power(n) == Power(WORDS);
    }
  }

  /** The sum is at least as large as the longer operand, so its top word is not zero. */
  lemma TopWordStays(out: seq<Word>, left: BigInt, right: BigInt, n: nat)
    requires left.Valid() && right.Valid() && |out| == WORDS && 1 <= n <= WORDS && IsZeroFrom(out, n)
    requires left.wordCount <= n && right.wordCount <= n
    requires Number(out) == left.Magnitude() + right.Magnitude()
    requires n > left.wordCount && n > right.wordCount ==> out[n - 1] != 0
    ensures n > 1 ==> out[n - 1] != 0
  {
    hide Power, Number;
    if n > 1 && out[n - 1] == 0 {
      var longer := if left.wordCount == n then left else right;
      assert longer.wordCount == n;
      AtLeast(longer.bits, n);
      Shape(longer);
      assert out[..WORDS] == out;
      TopZeros(out, n - 1, WORDS);
      Bound(out[..n - 1]);
    }
  }

  // ---- Subtracting ----

  /** What is left and what is borrowed, column by column, for the difference of `a` and `q` times `d`. */
  ghost predicate SubtractedUpTo(out: seq<Word>, a: seq<Word>, d: seq<Word>, q: nat, i: nat, borrow: nat, carry: nat) {
    && |out| == |a| == |d| == WORDS && i <= WORDS && q < BASE && borrow <= 1 && carry < BASE
    && Number(out[..i]) - borrow * Power(i) - carry * Power(i) == Number(a[..i]) - q * Number(d[..i])
  }

  lemma SubtractColumn(out: seq<Word>, a: seq<Word>, d: seq<Word>, q: nat, i: nat, borrow: nat, carry: nat, p: nat,
          ys: nat, y: int, w: Word, b: nat)
    requires SubtractedUpTo(out, a, d, q, i, borrow, carry) && i < WORDS && p == Power(i)
    requires ys == d[i] * q + carry && y == a[i] - ys % BASE - borrow && w == (if y < 0 then y + BASE else y)
    requires b == (if y < 0 then 1 else 0)
    ensures ys / BASE < BASE && SubtractedUpTo(out[i := w], a, d, q, i + 1, b, ys / BASE)
  {
    hide Power, Number;
    ColumnBound(d[i], q, carry);
    PrefixColumns(out, a, d, i, w, p);
    ColumnWords(a[i], ys, y, w, b, borrow, p);
    SubtractSums(Number(out[..i]), Number(a[..i]), Number(d[..i]), q, a[i], d[i], w * p, borrow, carry, ys % BASE, b * Power(i + 1), (ys / BASE) * Power(i + 1), p);
  }

  lemma ColumnWords(x: Word, ys: nat, y: int, w: Word, b: nat, borrow: nat, p: nat)
    requires borrow <= 1 && y == x - ys % BASE - borrow && w == (if y < 0 then y + BASE else y)
    requires b == (if y < 0 then 1 else 0)
    ensures w * p - b * (BASE * p) == (x - ys % BASE - borrow) * p
    ensures (ys % BASE) * p + (ys / BASE) * (BASE * p) == ys * p
  {
    Borrow(y, p);
    Carry(ys, p);
  }

  lemma SubtractSums(out: int, a: int, d: int, q: int, x: int, dw: int, wp: int, borrow: int, carry: int, low: int,
          bp: int, high: int, p: int)
    requires out - borrow * p - carry * p == a - q * d
    requires wp - bp == (x - low - borrow) * p && low * p + high == (dw * q + carry) * p
    ensures out + wp - bp - high == a + x * p - q * (d + dw * p)
  {
    Regroup(q, d, dw, p);
    DifferenceColumn(out, x, low, borrow, carry, p, wp, bp, high, dw * q);
  }

  lemma PrefixColumns(out: seq<Word>, a: seq<Word>, d: seq<Word>, i: nat, w: Word, p: nat)
    requires |out| == |a| == |d| == WORDS && i < WORDS && p == Power(i)
    ensures Power(i + 1) == BASE * p && Number(out[i := w][..i + 1]) == Number(out[..i]) + w * p
    ensures Number(a[..i + 1]) == Number(a[..i]) + a[i] * p && Number(d[..i + 1]) == Number(d[..i]) + d[i] * p
  {
    hide Number;
    NextWord(a, i);
    NextWord(d, i);
    NextWord(out[i := w], i);
    assert out[i := w][..i] == out[..i];
  }

  /** One column of a difference, by its parts. */
  lemma DifferenceColumn(n: int, x: int, low: int, borrow: int, carry: int, p: int, wp: int, bp: int, high: int,
          dq: int)
    requires wp - bp == (x - low - borrow) * p && low * p + high == (dq + carry) * p
    ensures n + wp - bp - high == n - borrow * p - carry * p + x * p - dq * p
  {
    Distribute(x - low, borrow, p);
    Distribute(x, low, p);
    Distribute(dq, carry, p);
  }

  lemma ColumnBound(x: Word, q: nat, carry: nat)
    requires q < BASE && carry < BASE
    ensures 0 <= x * q + carry < BASE * BASE && (x * q + carry) / BASE < BASE
  {
    MulOrder(x, 0xFFFF_FFFF, q);
    MulOrder(0, x, q);
    assert 0xFFFF_FFFF * q <= 0xFFFF_FFFE_0000_0001;
    var t: int := x * q + carry;
    assert 0 <= t < 0x1_0000_0000_0000_0000;
    QuotientBound(t);
  }

  lemma QuotientBound(t: int)
    requires 0 <= t < 0x1_0000_0000_0000_0000
    ensures t / BASE < BASE
  {
  }

  lemma Regroup(q: int, n: int, w: int, p: int)
    ensures q * (n + w * p) == q * n + w * q * p
  {
    Distribute(n, w * p, q);
    Associate(w, q, p);
    Associate(q, w, p);
  }

  /** With enough to subtract from, nothing is borrowed in the end. */
  lemma SubtractEnd(out: seq<Word>, a: seq<Word>, d: seq<Word>, q: nat, n: nat, borrow: nat, carry: nat)
    requires SubtractedUpTo(out, a, d, q, n, borrow, carry) && q * Number(d[..n]) <= Number(a[..n])
    ensures borrow == 0 && carry == 0 && Number(out[..n]) == Number(a[..n]) - q * Number(d[..n])
  {
    hide Power, Number;
    Bound(out[..n]);
    Bound(a[..n]);
    var p := Power(n);
    Distribute(borrow, carry, p);
    assert q * Number(d[..n]) >= 0;
    if borrow + carry > 0 {
      MulOrder(1, borrow + carry, p);
      assert false;
    }
  }

  lemma NothingSubtracted(out: seq<Word>, a: seq<Word>, d: seq<Word>, q: nat)
    requires |out| == |a| == |d| == WORDS && q < BASE
    ensures SubtractedUpTo(out, a, d, q, 0, 0, 0)
  {
    assert out[..0] == a[..0] == d[..0] == [];
  }

  /** The difference of the magnitudes, which must not be negative: the columns both have, then the rest. */
  method SubtractWords(left: BigInt, right: BigInt, sign: int) returns (r: BigInt)
    requires left.Trimmed() && right.Trimmed() && right.wordCount <= left.wordCount && right.Magnitude() <= left.Magnitude() && (sign == 1 || sign == -1)
    ensures r.Trimmed() && r.sign == sign && r.Magnitude() == left.Magnitude() - right.Magnitude()
  {
    hide Power, Number, SubtractedUpTo;
    var out := new Word[WORDS](_ => 0);
    var i, borrow: nat := 0, 0;
    NothingSubtracted(out[..], left.bits, right.bits, 1);
    while i < right.wordCount
      invariant i <= right.wordCount && borrow <= 1 && IsZeroFrom(out[..], i)
      invariant SubtractedUpTo(out[..], left.bits, right.bits, 1, i, borrow, 0)
    {
      var y := left.bits[i] as int - right.bits[i] as int - borrow;
      var w := if y < 0 then y + BASE else y;
      SubtractColumn(out[..], left.bits, right.bits, 1, i, borrow, 0, Power(i), right.bits[i], y, w, if y < 0 then 1 else 0);
      borrow := if y < 0 then 1 else 0;
      Put(out, i, w);
      i := i + 1;
    }
    while i < left.wordCount
      invariant right.wordCount <= i <= left.wordCount && borrow <= 1 && IsZeroFrom(out[..], i)
      invariant SubtractedUpTo(out[..], left.bits, right.bits, 1, i, borrow, 0)
    {
      var y := left.bits[i] as int - borrow;
      var w := if y < 0 then y + BASE else y;
      SubtractColumn(out[..], left.bits, right.bits, 1, i, borrow, 0, Power(i), 0, y, w, if y < 0 then 1 else 0);
      borrow := if y < 0 then 1 else 0;
      Put(out, i, w);
      i := i + 1;
    }
    PrefixOf(left, left.wordCount);
    PrefixOf(right, left.wordCount);
    SubtractEnd(out[..], left.bits, right.bits, 1, left.wordCount, borrow, 0);
    WholeNumber(out[..], left.wordCount);
    r := Trim(out[..], left.wordCount, sign);
  }

  lemma WholeNumber(bits: seq<Word>, n: nat)
    requires |bits| == WORDS && n <= WORDS && IsZeroFrom(bits, n)
    ensures Number(bits) == Number(bits[..n])
  {
    hide Power, Number;
    assert bits[..WORDS] == bits;
    TopZeros(bits, n, WORDS);
  }

  /** Differences, except that subtracting zero from something else negates it. */
  method Subtract(left: BigInt, right: BigInt) returns (r: BigInt)
    requires left.Valid() && right.Valid()
    requires left.sign * right.sign == -1 ==> left.Magnitude() + right.Magnitude() < Power(WORDS)
    ensures r.Value() == left.Value() - right.Value() <==> right.sign != 0 || left.sign == 0
    ensures left.sign != 0 && right.sign == 0 ==> r.Value() == -left.Value()
    ensures r.Trimmed() && (r.Valid() <==> !(left.sign == right.sign && left.sign != 0 && left.Magnitude() == right.Magnitude()))
    decreases if left.sign == right.sign then 0 else 1
  {
    hide Power, Number;
    if left.sign == 0 {
      return Negate(right);
    }
    if right.sign == 0 {
      return Negate(left);
    }
    if left.sign != right.sign {
      r := Add(left, Negate(right));
      return;
    }
    var swap := false;
    if left.wordCount < right.wordCount {
      ShorterIsLess(left, right);
      swap := true;
    } else if left.wordCount == right.wordCount {
      var order := CompareWords(left, right);
      swap := order < 0;
    } else {
      ShorterIsLess(right, left);
    }
    if swap {
      r := SubtractWords(right, left, -left.sign);
    } else {
      r := SubtractWords(left, right, left.sign);
    }
  }

  /** Five plus minus five is zero with a sign. */
  method OppositesAdded() returns (r: BigInt)
    ensures r.Value() == 0 && r.Trimmed() && !r.Valid()
  {
    hide Power, Number;
    var five := FromWord(5);
    r := Add(five, Negate(five));
  }

  /** Five minus zero is minus five. */
  method SubtractingZero() returns (r: BigInt)
    ensures r.Value() == -5
  {
    hide Power, Number;
    r := Subtract(FromWord(5), Zero());
  }

  method Add(left: BigInt, right: BigInt) returns (r: BigInt)
    requires left.Valid() && right.Valid()
    requires left.sign * right.sign == 1 ==> left.Magnitude() + right.Magnitude() < Power(WORDS)
    ensures r.Value() == left.Value() + right.Value()
    ensures r.Trimmed() && (r.Valid() <==> !(left.sign * right.sign == -1 && left.Magnitude() == right.Magnitude()))
    decreases if left.sign == right.sign then 0 else 1
  {
    hide Power, Number;
    if left.sign == 0 {
      return right;
    }
    if right.sign == 0 {
      return left;
    }
    if left.sign != right.sign {
      r := Subtract(left, Negate(right));
      return;
    }
    r := AddWords(left, right, left.sign);
  }
}
