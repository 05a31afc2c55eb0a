/** Multiplying by one word, shifting and raising to a power. */
module BigShift {
  import opened Wrappers
  import opened Words
  import opened BigInteger
  import opened BigProduct

  /** A number that is large enough has a nonzero top word. */
  lemma TopNonzero(s: seq<Word>, n: nat)
    requires |s| == WORDS && 1 <= n <= WORDS && IsZeroFrom(s, n) && Number(s) >= Power(n - 1)
    ensures s[n - 1] != 0
  {
    hide Power, Number;
    if s[n - 1] == 0 {
      WholeNumber(s, n - 1);
      Bound(s[..n - 1]);
    }
  }

  // ---- Multiplying by a word ----

  ghost predicate ScaledUpTo(out: seq<Word>, b: seq<Word>, m: nat, a: nat, i: nat, carry: nat) {
    && |out| == |b| == WORDS && i <= WORDS && carry < BASE && IsZeroFrom(out, i)
    && Number(out[..i]) + carry * Power(i) == Number(b[..i]) * m + a
  }

  lemma ScaleStep(out: seq<Word>, b: seq<Word>, m: nat, a: nat, i: nat, carry: nat, t: nat, low: Word, high: nat)
    requires ScaledUpTo(out, b, m, a, i, carry) && i < WORDS && m < BASE && t == b[i] * m + carry && low == t % BASE
    requires high == t / BASE
    ensures high < BASE && ScaledUpTo(out[i := low], b, m, a, i + 1, high)
  {
    hide Power, Number;
    ColumnBound(b[i], m, carry);
    var p := Power(i);
    NextPower(i);
    SplitTotal(t, low, high, p);
    NextWord(b, i);
    NextWord(out[i := low], i);
    assert out[i := low][..i] == out[..i];
    Regroup(m, Number(b[..i]), b[i], p);
    Distribute(b[i] as int * m, carry, p);
  }

  lemma ScaleStart(out: seq<Word>, b: seq<Word>, m: nat, a: nat)
    requires |out| == |b| == WORDS && a < BASE && IsZeroFrom(out, 0)
    ensures ScaledUpTo(out, b, m, a, 0, a)
  {
    assert out[..0] == b[..0] == [] && Power(0) == 1;
  }

  lemma ScaleEnd(out: seq<Word>, b: BigInt, m: nat, a: nat, carry: nat)
    requires b.Trimmed() && b.Magnitude() > 0 && m > 0 && ScaledUpTo(out, b.bits, m, a, b.wordCount, carry)
    requires b.Magnitude() * m + a < Power(WORDS)
    ensures carry != 0 ==> b.wordCount < WORDS
    ensures var s, k := if carry != 0 then out[b.wordCount := carry] else out, if carry != 0 then b.wordCount + 1 else b.wordCount;
      |s| == WORDS && IsZeroFrom(s, k) && Number(s) == b.Magnitude() * m + a && s[k - 1] != 0
  {
    hide Power, Number;
    var n := b.wordCount;
    Shape(b);
    if carry != 0 {
      MulOrder(1, carry, Power(n));
      IndexFits(n);
      var s := out[n := carry];
      NextWord(s, n);
      assert s[..n] == out[..n];
      WholeNumber(s, n + 1);
    } else {
      WholeNumber(out, n);
      MulOrder(1, m, b.Magnitude());
      TopNonzero(out, n);
    }
  }

  /** Multiply by `m` and add `a`; the sign of `b` is not kept, which only nonnegative numbers do not notice. */
  method MultiplyAdd(b: BigInt, m: Word, a: Word) returns (r: BigInt)
    requires b.Valid() && m != 0 && b.Magnitude() * m + a < Power(WORDS)
    ensures r.Valid() && r.Value() == b.Magnitude() * m + a
  {
    hide Power, Number, ScaledUpTo;
    if b.sign == 0 {
      return FromWord(a);
    }
    var out := new Word[WORDS](_ => 0);
    var carry: nat := a;
    var i := 0;
    ScaleStart(out[..], b.bits, m, a);
    while i < b.wordCount
      invariant i <= b.wordCount && carry < BASE && ScaledUpTo(out[..], b.bits, m, a, i, carry)
    {
      var temp: nat := b.bits[i] as int * m as int + carry;
      var low, high := temp % BASE, temp / BASE;
      ScaleStep(out[..], b.bits, m, a, i, carry, temp, low, high);
      Put(out, i, low);
      carry := high;
      i := i + 1;
    }
    var n := b.wordCount;
    ScaleEnd(out[..], b, m, a, carry);
    MulStrict(0, b.Magnitude(), m);
    if carry != 0 {
      Put(out, n, carry);
      n := n + 1;
    }
    r := BigInt(out[..], n, 1);
  }

  // ---- Shifting left ----

  /** A shifted word: what stays in place beside the carry, and what goes to the next word. */
  lemma ShiftWord(word: Word, q: nat, r: nat, carry: nat)
    requires q > 0 && r > 0 && q * r == BASE && carry < q
    ensures var t := word * q + carry;
      (word * q) % BASE + carry == t % BASE && word / r == t / BASE && t / BASE < q
  {
    var h, l := word / r, word % r;
    Distribute(h * r, l, q);
    Associate(h, r, q);
    assert word * q == h * BASE + l * q;
    MulOrder(l, r - 1, q);
    Distribute(r, 1, q);
    assert l * q + carry < BASE;
    if h >= q {
      MulOrder(q, h, r);
    }
    WholePart(h, l * q, BASE);
    WholePart(h, l * q + carry, BASE);
  }

  lemma WholePart(h: nat, rest: nat, n: nat)
    requires rest < n
    ensures (h * n + rest) / n == h && (h * n + rest) % n == rest
  {
    var x := h * n + rest;
    var k := x / n;
    assert x == k * n + x % n;
    if k > h {
      MulOrder(h + 1, k, n);
      Distribute(h, 1, n);
    }
    if k < h {
      MulOrder(k + 1, h, n);
      Distribute(k, 1, n);
    }
  }

  ghost predicate ShiftedUpTo(out: seq<Word>, v: seq<Word>, q: nat, w: nat, i: nat, carry: nat) {
    && |out| == |v| == WORDS && i + w <= WORDS && carry < q && IsZeroFrom(out, i + w)
    && Number(out) + carry * Power(i + w) == Number(v[..i]) * (q * Power(w))
  }

  lemma ShiftStep(out: seq<Word>, v: seq<Word>, q: nat, r: nat, w: nat, i: nat, carry: nat, low: Word, high: nat)
    requires ShiftedUpTo(out, v, q, w, i, carry) && i + w < WORDS && r > 0 && q * r == BASE
    requires low == (v[i] * q) % BASE + carry && high == v[i] / r
    ensures ShiftedUpTo(out[i + w := low], v, q, w, i + 1, high)
  {
    hide Power, Number;
    ShiftWord(v[i], q, r, carry);
    var xq: int := v[i] as int * q;
    ProductColumn(out, xq, i + w, carry, xq + carry, low, high);
    NextWord(v, i);
    PowerAdd(i, w);
    ShiftedWord(Number(v[..i]), v[i], Power(i), q, Power(w));
  }

  lemma ShiftedWord(n: int, x: int, p: int, q: int, w: int)
    ensures (n + x * p) * (q * w) == n * (q * w) + x * q * (p * w)
  {
    Distribute(n, x * p, q * w);
    Associate(x, p, q * w);
    Associate(p, q, w);
    Associate(q, p, w);
    Associate(x, q, p * w);
  }

  lemma ShiftStart(out: seq<Word>, v: seq<Word>, q: nat, w: nat)
    requires |out| == |v| == WORDS && w <= WORDS && q > 0 && IsZeroFrom(out, 0)
    ensures ShiftedUpTo(out, v, q, w, 0, 0)
  {
    assert v[..0] == [];
    ZeroWords(WORDS, out);
    assert out[..WORDS] == out;
  }

  /** The parts of a shift: whole words, bits, and what is left of a word. */
  lemma ShiftParts(shift: nat)
    ensures Pow2(shift) == Pow2(shift % 32) * Power(shift / 32) && Pow2(shift % 32) * Pow2(32 - shift % 32) == BASE
  {
    hide Pow2, Power;
    Pow2Add(shift % 32, 32 * (shift / 32));
    Pow2Words(shift / 32);
    Pow2Add(shift % 32, 32 - shift % 32);
    Pow2Word();
  }

  lemma ShiftFits(v: BigInt, shift: nat)
    requires v.Valid() && v.Magnitude() * Pow2(shift) < Power(WORDS) && (v.sign == 0 ==> shift < 32 * WORDS)
    ensures v.wordCount + shift / 32 <= WORDS
  {
    hide Pow2, Power, Number;
    Shape(v);
    if v.sign != 0 {
      ShiftedBound(v, shift);
      IndexFits(v.wordCount - 1 + shift / 32);
    }
  }

  lemma ShiftedBound(v: BigInt, shift: nat)
    requires v.Valid() && v.sign != 0
    ensures v.Magnitude() * Pow2(shift) >= Power(v.wordCount - 1 + shift / 32)
  {
    hide Pow2, Power, Number;
    Shape(v);
    ShiftParts(shift);
    var w, n, q := shift / 32, v.wordCount - 1, Pow2(shift % 32);
    ScaledBound(v.Magnitude(), Power(n), q, Power(w));
    PowerAdd(n, w);
  }

  lemma ScaledBound(x: nat, p: nat, q: nat, w: nat)
    requires x >= p && q > 0
    ensures x * (q * w) >= p * w
  {
    MulOrder(1, q, w);
    MulOrder(w, q * w, p);
    MulOrder(p, x, q * w);
  }

  lemma ShiftEnd(out: seq<Word>, v: BigInt, shift: nat, carry: nat)
    requires v.Valid() && v.Magnitude() * Pow2(shift) < Power(WORDS) && v.wordCount + shift / 32 <= WORDS
    requires ShiftedUpTo(out, v.bits, Pow2(shift % 32), shift / 32, v.wordCount, carry)
    ensures var k := v.wordCount + shift / 32;
      (carry != 0 ==> k < WORDS && carry < BASE && Number(out[k := carry]) == v.Magnitude() * Pow2(shift))
      && (carry == 0 ==> Number(out) == v.Magnitude() * Pow2(shift) && (v.sign != 0 ==> out[k - 1] != 0))
  {
    hide Pow2, Power, Number;
    var k := v.wordCount + shift / 32;
    Shape(v);
    ShiftParts(shift);
    if carry != 0 {
      MulOrder(1, carry, Power(k));
      IndexFits(k);
      MulOrder(1, Pow2(32 - shift % 32), Pow2(shift % 32));
      ReplaceWord(out, k, carry);
    } else if v.sign != 0 {
      ShiftedBound(v, shift);
      TopNonzero(out, k);
    }
  }

  /** Every word is moved up, its high bits into the next one. */
  method ShiftWords(value: BigInt, wordShift: nat, q: nat, t: nat) returns (bits: seq<Word>, carry: nat)
    requires value.Trimmed() && value.wordCount + wordShift <= WORDS && q > 0 && t > 0 && q * t == BASE
    ensures ShiftedUpTo(bits, value.bits, q, wordShift, value.wordCount, carry)
  {
    hide Power, Number, ShiftedUpTo;
    var out := new Word[WORDS](_ => 0);
    ShiftStart(out[..], value.bits, q, wordShift);
    carry := 0;
    var i := 0;
    while i < value.wordCount
      invariant i <= value.wordCount && ShiftedUpTo(out[..], value.bits, q, wordShift, i, carry) && carry < q
    {
      // the shifted bits and the carry do not overlap, so joining them adds them
      var low, high := ShiftOne(value.bits[i], q, t, carry);
      ShiftStep(out[..], value.bits, q, t, wordShift, i, carry, low, high);
      Put(out, i + wordShift, low);
      carry := high;
      i := i + 1;
    }
    bits := out[..];
  }

  method ShiftOne(word: Word, q: nat, t: nat, carry: nat) returns (low: Word, high: nat)
    requires q > 0 && t > 0 && q * t == BASE && carry < q
    ensures low == (word * q) % BASE + carry && high == word / t && high < q
  {
    ShiftWord(word, q, t, carry);
    low := (word as int * q) % BASE + carry;
    high := word as int / t;
  }

  method ShiftUp(value: BigInt, shift: nat) returns (r: BigInt)
    requires value.Valid() && shift > 0
    requires value.Magnitude() * Pow2(shift) < Power(WORDS) && (value.sign == 0 ==> shift < 32 * WORDS)
    ensures ShiftedLeft(value, shift, r)
  {
    hide Pow2, Power, Number;
    var wordShift, bitShift := shift / 32, shift % 32;
    ShiftFits(value, shift);
    ShiftParts(shift);
    var n := value.wordCount + wordShift;
    var bits, carry := ShiftWords(value, wordShift, Pow2(bitShift), Pow2(32 - bitShift));
    ShiftEnd(bits, value, shift, carry);
    if carry != 0 {
      bits := bits[n := carry];
      n := n + 1;
    }
    r := BigInt(bits, n, value.sign);
    if value.sign == 0 {
      Shape(value);
    }
    UpShape(value, shift, r);
  }

  lemma UpShape(value: BigInt, shift: nat, r: BigInt)
    requires value.Valid() && r.Magnitude() == value.Magnitude() * Pow2(shift) && r.sign == value.sign
    requires if value.sign != 0 then r.Trimmed() else r.wordCount == 1 + shift / 32 && (shift < 32 ==> r.Trimmed())
    requires Pow2(shift) > 0
    ensures ShiftedLeft(value, shift, r)
  {
    hide Pow2, Power, Number;
    if value.sign != 0 {
      MulStrict(0, value.Magnitude(), Pow2(shift));
    } else if r.Trimmed() {
      Shape(r);
    }
  }

  /** What a left shift gives: the product, well formed unless zero was shifted by a word or more, which leaves it with
      too many words. */
  ghost predicate ShiftedLeft(value: BigInt, shift: nat, r: BigInt) {
    && r.sign == value.sign && r.Magnitude() == value.Magnitude() * Pow2(shift)
    && (r.Valid() <==> value.sign != 0 || shift < 32)
  }

  /** A shift to the left fits. */
  ghost predicate FitsShifted(value: BigInt, shift: nat) {
    value.Magnitude() * Pow2(shift) < Power(WORDS) && (value.sign == 0 ==> shift < 32 * WORDS)
  }

  /** Shifting left multiplies by a power of two, while that fits; a negative shift goes right. */
  method LeftShift(value: BigInt, shift: int) returns (r: Option<BigInt>)
    requires value.Valid() && (shift > 0 ==> FitsShifted(value, shift))
    ensures r.None? <==> shift < 0 && -shift / 32 == value.wordCount
    ensures shift >= 0 ==> r.Some? && ShiftedLeft(value, shift, r.value)
    ensures shift < 0 && r.Some? ==> ShiftedRight(value, -shift, r.value)
    decreases if shift < 0 then 1 else 0
  {
    hide Pow2, Power, Number;
    if shift == 0 {
      Pow2Zero();
      return Some(value);
    }
    if shift < 0 {
      r := RightShift(value, -shift);
      return;
    }
    var up := ShiftUp(value, shift);
    r := Some(up);
  }

  lemma Pow2Zero()
    ensures Pow2(0) == 1
  {
  }

  // ---- Shifting right ----

  /** What a right shift gives: the quotient, well formed unless it is zero and words of the value were left. */
  ghost predicate ShiftedRight(value: BigInt, shift: nat, r: BigInt) {
    && r.Magnitude() == value.Magnitude() / Pow2(shift) && r.sign == (if shift / 32 > value.wordCount then 0 else value.sign)
    && (r.Valid() <==> r.Magnitude() > 0 || shift / 32 > value.wordCount)
  }

  /** The words from the i-th on have been shifted: what was shifted out of them is in the carry. */
  ghost predicate ShiftedDownTo(out: seq<Word>, v: seq<Word>, n: nat, w: nat, q: nat, i: nat, carry: nat) {
    && |out| == |v| == WORDS && w <= i <= n <= WORDS && carry < q
    && (forall k: nat {:trigger out[k]} :: k < WORDS && !(i - w <= k < n - w) ==> out[k] == 0)
    && Number(out[i - w..n - w]) * q + carry == Number(v[i..n])
  }

  lemma ShiftDownWord(word: Word, q: nat, t: nat, carry: nat)
    requires q > 0 && t > 0 && q * t == BASE && carry < q
    ensures 0 <= word / q + carry * t < BASE && (word / q + carry * t) * q + word % q == word + carry * BASE
    ensures word % q < q
  {
    MulOrder(carry, q - 1, t);
    Distribute(q, 1, t);
    var h := word / q;
    assert h * q <= word;
    if h >= t {
      MulOrder(t, h, q);
    }
    Distribute(h, carry * t, q);
    Associate(carry, t, q);
  }

  lemma ShiftDownStep(out: seq<Word>, v: seq<Word>, n: nat, w: nat, q: nat, i: nat, carry: nat, low: Word, rest: nat)
    requires ShiftedDownTo(out, v, n, w, q, i, carry) && i > w && low * q + rest == v[i - 1] + carry * BASE && rest < q
    ensures ShiftedDownTo(out[i - 1 - w := low], v, n, w, q, i - 1, rest)
  {
    hide Power, Number;
    var out' := out[i - 1 - w := low];
    var o, x := out'[i - 1 - w..n - w], v[i - 1..n];
    LowWord(o);
    LowWord(x);
    assert o[1..] == out[i - w..n - w] && x[1..] == v[i..n] && o[0] == low;
    ShiftedDown(low, Number(out[i - w..n - w]), q, carry, rest, v[i - 1]);
  }

  lemma ShiftedDown(low: int, o: int, q: int, carry: int, rest: int, word: int)
    requires low * q + rest == word + carry * BASE
    ensures (low + BASE * o) * q + rest == word + BASE * (o * q + carry)
  {
    Distribute(low, BASE * o, q);
    Associate(BASE, o, q);
    Distribute(o * q, carry, BASE);
  }

  /** A number is its low words and its high words. */
  lemma {:induction false} HighWords(v: seq<Word>, w: nat)
    requires w <= |v|
    ensures Number(v) == Number(v[..w]) + Power(w) * Number(v[w..])
    decreases w
  {
    if w == 0 {
      assert v[0..] == v && v[..0] == [];
    } else {
      LowWord(v);
      LowWord(v[..w]);
      HighWords(v[1..], w - 1);
      assert v[1..][..w - 1] == v[..w][1..] && v[1..][w - 1..] == v[w..];
      Distribute(Number(v[..w][1..]), Power(w - 1) * Number(v[w..]), BASE);
      Associate(BASE, Power(w - 1), Number(v[w..]));
    }
  }

  lemma ShiftDownEnd(out: seq<Word>, v: BigInt, shift: nat, carry: nat)
    requires v.Trimmed() && shift / 32 <= v.wordCount
    requires ShiftedDownTo(out, v.bits, v.wordCount, shift / 32, Pow2(shift % 32), shift / 32, carry)
    ensures Number(out) == v.Magnitude() / Pow2(shift)
  {
    hide Pow2, Power, Number;
    var w, n, q := shift / 32, v.wordCount, Pow2(shift % 32);
    Shape(v);
    ShiftParts(shift);
    var x := v.bits[..n];
    HighWords(x, w);
    assert x[..w] == v.bits[..w] && x[w..] == v.bits[w..n];
    Bound(v.bits[..w]);
    assert out[0..n - w] == out[..n - w];
    WholeNumber(out, n - w);
    QuotientByParts(v.Magnitude(), Number(out), q, Power(w), carry, Number(v.bits[..w]));
  }

  lemma QuotientByParts(x: nat, o: nat, q: nat, p: nat, carry: nat, low: nat)
    requires x == low + p * (o * q + carry) && low < p && carry < q && p > 0
    ensures q * p > 0 && x / (q * p) == o
  {
    Distribute(o * q, carry, p);
    Associate(o, q, p);
    MulOrder(carry, q - 1, p);
    Distribute(q, 1, p);
    assert q * p > 0;
    WholePart(o, carry * p + low, q * p);
  }

  /** A right shift of some words and bits, from the top down; a negative shift goes left. It panics exactly if there
      are as many words to shift by as the value has. */
  method RightShift(value: BigInt, shift: int) returns (r: Option<BigInt>)
    requires value.Valid() && (shift < 0 ==> FitsShifted(value, -shift))
    ensures r.None? <==> shift > 0 && shift / 32 == value.wordCount
    ensures shift > 0 && r.Some? ==> ShiftedRight(value, shift, r.value)
    ensures shift <= 0 ==> r.Some? && ShiftedLeft(value, -shift, r.value)
    decreases if shift < 0 then 1 else 0
  {
    hide Pow2, Power, Number, ShiftedDownTo;
    if shift == 0 {
      Pow2Zero();
      return Some(value);
    }
    if shift < 0 {
      r := LeftShift(value, -shift);
      return;
    }
    var wordShift := shift / 32;
    if wordShift > value.wordCount {
      TooFar(value, shift);
      return Some(Zero());
    }
    if wordShift == value.wordCount {
      return None;
    }
    var down := ShiftDown(value, shift);
    r := Some(down);
  }

  /** Five has one word, so shifting it right by one word panics. */
  method ShiftsByItsWords() returns (r: Option<BigInt>)
    ensures r.None?
  {
    hide Pow2, Power, Number;
    var five := FromWord(5);
    r := RightShift(five, 32);
  }

  /** A zero that comes from a right shift, or is shifted left by a word, is not well formed. */
  method ShiftsToNothing() returns (right: Option<BigInt>, left: Option<BigInt>)
    ensures right.Some? && right.value.Magnitude() == 0 && !right.value.Valid()
    ensures left.Some? && left.value.Magnitude() == 0 && !left.value.Valid()
  {
    hide Power, Number;
    var five := FromWord(5);
    FivePositive(five);
    assert Pow2(3) == 8;
    right := RightShift(five, 3);
    hide Pow2;
    ZeroFits();
    left := LeftShift(Zero(), 32);
  }

  lemma FivePositive(a: BigInt)
    requires a == FromWord(5)
    ensures a.Magnitude() == 5 && a.wordCount == 1
  {
    hide Power, Number;
  }

  lemma ZeroFits()
    ensures FitsShifted(Zero(), 32) && Zero().Magnitude() == 0 && Zero().sign == 0
  {
    hide Pow2, Power, Number;
    Shape(Zero());
  }

  method ShiftDown(value: BigInt, shift: nat) returns (r: BigInt)
    requires value.Valid() && shift / 32 < value.wordCount
    ensures ShiftedRight(value, shift, r)
  {
    hide Pow2, Power, Number, ShiftedDownTo;
    var wordShift, bitShift := shift / 32, shift % 32;
    ShiftParts(shift);
    var bits := ShiftWordsDown(value, wordShift, Pow2(bitShift), Pow2(32 - bitShift), shift);
    var n := value.wordCount - wordShift - 1;
    DownTop(bits, value, shift);
    if bits[n] != 0 {
      n := n + 1;
    }
    r := BigInt(bits, n, value.sign);
    if value.sign == 0 {
      Shape(value);
    }
    if r.Trimmed() {
      Shape(r);
    }
  }

  method ShiftWordsDown(value: BigInt, wordShift: nat, q: nat, t: nat, ghost shift: nat) returns (bits: seq<Word>)
    requires value.Trimmed() && wordShift < value.wordCount && q > 0 && t > 0 && q * t == BASE
    requires wordShift == shift / 32 && q == Pow2(shift % 32)
    ensures |bits| == WORDS && Number(bits) == value.Magnitude() / Pow2(shift)
    ensures IsZeroFrom(bits, value.wordCount - wordShift)
  {
    hide Pow2, Power, Number, ShiftedDownTo;
    var out := new Word[WORDS](_ => 0);
    var carry: nat := 0;
    var i := value.wordCount;
    ShiftDownStart(out[..], value.bits, i, wordShift, q);
    while i > wordShift
      invariant wordShift <= i <= value.wordCount
      invariant ShiftedDownTo(out[..], value.bits, value.wordCount, wordShift, q, i, carry) && carry < q
    {
      var low, rest := ShiftOneDown(value.bits[i - 1], q, t, carry);
      ShiftDownStep(out[..], value.bits, value.wordCount, wordShift, q, i, carry, low, rest);
      Put(out, i - 1 - wordShift, low);
      carry := rest;
      i := i - 1;
    }
    bits := out[..];
    ShiftDownEnd(bits, value, shift, carry);
    DownZeros(bits, value.bits, value.wordCount, wordShift, q, i, carry);
  }

  method ShiftOneDown(word: Word, q: nat, t: nat, carry: nat) returns (low: Word, rest: nat)
    requires q > 0 && t > 0 && q * t == BASE && carry < q
    ensures low * q + rest == word + carry * BASE && rest < q
  {
    ShiftDownWord(word, q, t, carry);
    low := word as int / q + carry * t;
    rest := word as int % q;
  }

  lemma ShiftDownStart(out: seq<Word>, v: seq<Word>, n: nat, w: nat, q: nat)
    requires |out| == |v| == WORDS && w <= n <= WORDS && q > 0 && IsZeroFrom(out, 0)
    ensures ShiftedDownTo(out, v, n, w, q, n, 0)
  {
    assert out[n - w..n - w] == [] && v[n..n] == [];
  }

  lemma DownZeros(out: seq<Word>, v: seq<Word>, n: nat, w: nat, q: nat, i: nat, carry: nat)
    requires ShiftedDownTo(out, v, n, w, q, i, carry)
    ensures |out| == WORDS && IsZeroFrom(out, n - w)
  {
  }

  lemma TooFar(v: BigInt, shift: nat)
    requires v.Trimmed() && shift / 32 > v.wordCount
    ensures v.Magnitude() / Pow2(shift) == 0
  {
    hide Pow2, Power, Number;
    Shape(v);
    ShiftParts(shift);
    PowerOrder(v.wordCount, shift / 32);
    MulOrder(1, Pow2(shift % 32), Power(shift / 32));
    WholePart(0, v.Magnitude(), Pow2(shift));
  }

  /** A nonzero result has its top word at the top or, if that was shifted out, just below. */
  lemma DownTop(bits: seq<Word>, v: BigInt, shift: nat)
    requires v.Valid() && shift / 32 < v.wordCount && |bits| == WORDS && IsZeroFrom(bits, v.wordCount - shift / 32)
    requires Number(bits) == v.Magnitude() / Pow2(shift)
    ensures var n := v.wordCount - shift / 32;
      Number(bits) > 0 && bits[n - 1] == 0 ==> n > 1 && bits[n - 2] != 0
    ensures Number(bits) > 0 ==> v.sign != 0
  {
    hide Pow2, Power, Number;
    var n := v.wordCount - shift / 32;
    Shape(v);
    if v.sign == 0 {
      WholePart(0, 0, Pow2(shift));
    } else if Number(bits) > 0 && bits[n - 1] == 0 {
      WholeNumber(bits, n - 1);
      if n == 1 {
        assert bits[..0] == [];
        EmptyNumber();
      } else {
        TopShiftedOut(v, shift, n);
        TopNonzero(bits, n - 1);
      }
    }
  }

  lemma EmptyNumber()
    ensures Number([]) == 0
  {
  }

  lemma TopShiftedOut(v: BigInt, shift: nat, n: nat)
    requires v.Valid() && v.sign != 0 && n == v.wordCount - shift / 32 && n > 1
    ensures v.Magnitude() / Pow2(shift) >= Power(n - 2)
  {
    hide Pow2, Power, Number;
    Shape(v);
    ShiftParts(shift);
    var w, q, p := shift / 32, Pow2(shift % 32), Power(n - 2);
    NextPower(v.wordCount - 2);
    PowerAdd(n - 2, w);
    MulOrder(1, Pow2(32 - shift % 32), q);
    MulOrder(q, BASE, p * Power(w));
    Associate(p, Power(w), q);
    Associate(p, q, Power(w));
    assert p * Pow2(shift) == q * (p * Power(w)) <= v.Magnitude();
    AtLeastQuotient(v.Magnitude(), Pow2(shift), p);
  }

  lemma AtLeastQuotient(x: nat, d: nat, k: nat)
    requires d > 0 && k * d <= x
    ensures x / d >= k
  {
    var h := x / d;
    if h < k {
      MulOrder(h + 1, k, d);
      Distribute(h, 1, d);
    }
  }
}
