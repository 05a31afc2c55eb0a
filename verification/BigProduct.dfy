/** Products, shifts and powers. */
module BigProduct {
  import opened Words
  import opened BigInteger

  // ---- Multiplication ----

  /** One column of a row: the product of two words, what was there and the carry. */
  lemma ProductColumn(out: seq<Word>, xy: nat, k: nat, carry: nat, t: nat, low: Word, high: nat)
    requires |out| == WORDS && k < WORDS && t == xy + out[k] + carry && low == t % BASE && high == t / BASE
    ensures Number(out[k := low]) + high * Power(k + 1) == Number(out) + carry * Power(k) + xy * Power(k)
  {
    hide Power, Number;
    var p, o: int := Power(k), out[k];
    ReplaceWord(out, k, low);
    NextPower(k);
    SplitTotal(t, low, high, p);
    ColumnSum(Number(out[k := low]), Number(out), low, o, p, high * Power(k + 1), xy, carry);
  }

  lemma NextPower(k: nat)
    ensures Power(k + 1) == BASE * Power(k)
  {
  }

  lemma ReplaceWord(out: seq<Word>, k: nat, w: Word)
    requires |out| == WORDS && k < WORDS
    ensures Number(out[k := w]) == Number(out) + (w - out[k]) * Power(k)
  {
    hide Power, Number;
    assert out[..WORDS] == out && out[k := w][..WORDS] == out[k := w];
    SetWord(out, k, w, WORDS);
  }

  lemma SplitTotal(t: nat, low: nat, high: nat, p: nat)
    requires low == t % BASE && high == t / BASE
    ensures low * p + high * (BASE * p) == t * p
  {
    Carry(t, p);
  }

  lemma ColumnSum(after: int, before: int, low: int, o: int, p: int, high: int, xy: int, carry: int)
    requires after == before + (low - o) * p && low * p + high == (xy + o + carry) * p
    ensures after + high == before + carry * p + xy * p
  {
    Distribute(low, o, p);
    Distribute(xy + o, carry, p);
    Distribute(xy, o, p);
  }

  lemma TotalBound(x: Word, y: Word, o: Word, carry: nat)
    requires carry < BASE
    ensures 0 <= x * y + o + carry && (x * y + o + carry) / BASE < BASE
  {
    MulOrder(x, 0xFFFF_FFFF, y);
    MulOrder(0, x, y);
    assert 0xFFFF_FFFF * y <= 0xFFFF_FFFE_0000_0001;
    QuotientBound(x * y + o + carry);
  }

  /** The first `i` rows and the first `j` columns of the next one have been added up. */
  ghost predicate MultipliedUpTo(out: seq<Word>, a: seq<Word>, b: seq<Word>, n: nat, i: nat, j: nat, carry: nat) {
    && |out| == |a| == |b| == WORDS && i < WORDS && j <= n <= WORDS && carry < BASE
    && Number(out) + carry * Power(i + j) == Number(a[..i]) * Number(b[..n]) + a[i] * Number(b[..j]) * Power(i)
  }

  lemma ProductStep(out: seq<Word>, a: seq<Word>, b: seq<Word>, n: nat, i: nat, j: nat, carry: nat, t: nat)
    requires MultipliedUpTo(out, a, b, n, i, j, carry) && j < n && i + j < WORDS
    requires t == a[i] * b[j] + out[i + j] + carry
    ensures MultipliedUpTo(out[i + j := t % BASE], a, b, n, i, j + 1, t / BASE)
  {
    hide Power, Number;
    TotalBound(a[i], b[j], out[i + j], carry);
    var xy: int := a[i] as int * b[j] as int;
    ProductColumn(out, xy, i + j, carry, t, t % BASE, t / BASE);
    NextWord(b, j);
    PowerAdd(i, j);
    var x, y: int := a[i], b[j];
    RowStep(x, Number(b[..j]), y, Power(j), Power(i));
  }

  lemma RowStep(x: int, n: int, y: int, pj: int, pi: int)
    ensures x * (n + y * pj) * pi == x * n * pi + x * y * (pi * pj)
  {
    Distribute(n, y * pj, x);
    assert x * (n + y * pj) == x * n + x * (y * pj);
    Distribute(x * n, x * (y * pj), pi);
    Associate(x, y, pj);
    Associate(x * y, pj, pi);
  }

  lemma RowStart(out: seq<Word>, a: seq<Word>, b: seq<Word>, n: nat, i: nat)
    requires |out| == |a| == |b| == WORDS && i < WORDS && n <= WORDS && Number(out) == Number(a[..i]) * Number(b[..n])
    ensures MultipliedUpTo(out, a, b, n, i, 0, 0)
  {
    assert b[..0] == [];
    assert a[i] * Number(b[..0]) * Power(i) == 0;
  }

  /** The end of a row: what is carried goes into the next word, which is still free. */
  lemma RowEnd(out: seq<Word>, a: seq<Word>, b: seq<Word>, n: nat, i: nat, carry: nat, m: nat)
    requires MultipliedUpTo(out, a, b, n, i, n, carry) && i < m <= WORDS && IsZeroFrom(out, i + n)
    requires Number(a[..m]) * Number(b[..n]) < Power(WORDS)
    ensures carry == 0 ==> Number(out) == Number(a[..i + 1]) * Number(b[..n])
    ensures carry != 0 ==> i + n < WORDS && Number(out[i + n := carry]) == Number(a[..i + 1]) * Number(b[..n])
  {
    hide Power, Number;
    NextWord(a, i);
    var x: int := a[i];
    LastColumn(Number(a[..i]), x, Number(b[..n]), Power(i));
    if carry != 0 {
      PrefixLess(a, i + 1, m);
      MulOrder(Number(a[..i + 1]), Number(a[..m]), Number(b[..n]));
      MulOrder(1, carry, Power(i + n));
      IndexFits(i + n);
      assert out[..WORDS] == out && out[i + n := carry][..WORDS] == out[i + n := carry];
      SetWord(out, i + n, carry, WORDS);
    }
  }

  lemma LastColumn(n: int, x: int, r: int, p: int)
    ensures n * r + x * r * p == (n + x * p) * r
  {
    Distribute(n, x * p, r);
    Associate(x, p, r);
    Associate(x, r, p);
  }

  lemma IndexFits(k: nat)
    requires Power(k) < Power(WORDS)
    ensures k < WORDS
  {
    hide Power;
    if k >= WORDS {
      PowerOrder(WORDS, k);
    }
  }

  lemma {:induction false} PrefixLess(a: seq<Word>, i: nat, m: nat)
    requires i <= m <= |a|
    ensures Number(a[..i]) <= Number(a[..m])
    decreases m - i
  {
    if i < m {
      PrefixLess(a, i, m - 1);
      NextWord(a, m - 1);
      MulOrder(0, a[m - 1], Power(m - 1));
    }
  }

  /** Two nonzero numbers whose product fits have few enough words. */
  lemma WordsFit(left: BigInt, right: BigInt)
    requires left.Valid() && right.Valid() && left.Magnitude() > 0 && right.Magnitude() > 0
    requires left.Magnitude() * right.Magnitude() < Power(WORDS)
    ensures left.wordCount + right.wordCount - 1 <= WORDS
  {
    hide Power, Number;
    Shape(left);
    Shape(right);
    var p, q := Power(left.wordCount - 1), Power(right.wordCount - 1);
    MulOrder(p, left.Magnitude(), q);
    MulOrder(q, right.Magnitude(), left.Magnitude());
    PowerAdd(left.wordCount - 1, right.wordCount - 1);
    IndexFits(left.wordCount - 1 + right.wordCount - 1);
  }

  /** One row: the right number times one word of the left one, added at its place. */
  method MultiplyRow(out: array<Word>, a: seq<Word>, b: seq<Word>, n: nat, i: nat, ghost m: nat) returns (carried: bool)
    requires out.Length == |a| == |b| == WORDS && i < m <= WORDS && 1 <= n && i + n <= WORDS
    requires IsZeroFrom(out[..], i + n)
    requires Number(out[..]) == Number(a[..i]) * Number(b[..n]) && Number(a[..m]) * Number(b[..n]) < Power(WORDS)
    modifies out
    ensures Number(out[..]) == Number(a[..i + 1]) * Number(b[..n])
    ensures carried ==> i + n < WORDS && IsZeroFrom(out[..], i + n + 1)
    ensures !carried ==> IsZeroFrom(out[..], i + n)
  {
    hide Power, Number, MultipliedUpTo;
    var carry: nat := 0;
    var j := 0;
    RowStart(out[..], a, b, n, i);
    while j < n
      invariant j <= n && carry < BASE && MultipliedUpTo(out[..], a, b, n, i, j, carry) && IsZeroFrom(out[..], i + n)
    {
      var temp: nat := a[i] as int * b[j] as int + out[i + j] as int + carry;
      ProductStep(out[..], a, b, n, i, j, carry, temp);
      CarryBound(a[i], b[j], out[i + j], carry, temp);
      Put(out, i + j, temp % BASE);
      carry := temp / BASE;
      j := j + 1;
    }
    RowEnd(out[..], a, b, n, i, carry, m);
    carried := carry != 0;
    if carried {
      Put(out, i + n, carry);
    }
  }

  lemma CarryBound(x: Word, y: Word, o: Word, carry: nat, t: nat)
    requires carry < BASE && t == x * y + o + carry
    ensures t / BASE < BASE
  {
    TotalBound(x, y, o, carry);
  }

  method MultiplyWords(left: BigInt, right: BigInt) returns (r: BigInt)
    requires left.Valid() && right.Valid() && left.Magnitude() > 0 && right.Magnitude() > 0
    requires left.Magnitude() * right.Magnitude() < Power(WORDS)
    ensures r.Trimmed() && r.sign == left.sign * right.sign && r.Magnitude() == left.Magnitude() * right.Magnitude()
  {
    hide Power, Number;
    WordsFit(left, right);
    Shape(left);
    Shape(right);
    var n := left.wordCount + right.wordCount - 1;
    var out := new Word[WORDS](_ => 0);
    NothingMultiplied(out[..], left.bits, Number(right.bits[..right.wordCount]));
    var i := 0;
    while i < left.wordCount
      invariant i <= left.wordCount && left.wordCount + right.wordCount - 1 <= n <= WORDS && IsZeroFrom(out[..], n)
      invariant IsZeroFrom(out[..], i + right.wordCount)
      invariant Number(out[..]) == Number(left.bits[..i]) * Number(right.bits[..right.wordCount])
    {
      var carried := MultiplyRow(out, left.bits, right.bits, right.wordCount, i, left.wordCount);
      if carried {
        n := if n < i + right.wordCount + 1 then i + right.wordCount + 1 else n;
      }
      i := i + 1;
    }
    r := Trim(out[..], n, left.sign * right.sign);
  }

  lemma NothingMultiplied(out: seq<Word>, a: seq<Word>, r: nat)
    requires |out| == |a| == WORDS && IsZeroFrom(out, 0)
    ensures Number(out) == Number(a[..0]) * r == 0
  {
    assert out[..WORDS] == out && a[..0] == [];
    ZeroWords(WORDS, out);
  }

  /** Products are exact while they fit. */
  method Multiply(left: BigInt, right: BigInt) returns (r: BigInt)
    requires left.Valid() && right.Valid() && left.Magnitude() * right.Magnitude() < Power(WORDS)
    ensures r.Valid() && r.Value() == left.Value() * right.Value()
  {
    hide Power, Number;
    Shape(left);
    Shape(right);
    if left.wordCount == 1 {
      SmallNumber(left);
    }
    if right.wordCount == 1 {
      SmallNumber(right);
    }
    ProductSign(left, right);
    if left.wordCount == 1 {
      if left.bits[0] == 0 {
        return Zero();
      }
      if left.bits[0] == 1 {
        return if left.sign == -1 then Negate(right) else right;
      }
    }
    if right.wordCount == 1 {
      if right.bits[0] == 0 {
        return Zero();
      }
      if right.bits[0] == 1 {
        return if right.sign == -1 then Negate(left) else left;
      }
    }
    r := MultiplyWords(left, right);
  }

  lemma SmallNumber(a: BigInt)
    requires a.Valid() && a.wordCount == 1
    ensures a.Magnitude() == a.bits[0]
  {
    hide Power, Number;
    Shape(a);
    SingleWord(a.bits);
  }

  lemma ProductSign(left: BigInt, right: BigInt)
    requires left.Valid() && right.Valid()
    ensures left.Value() * right.Value() == (left.sign * right.sign) * (left.Magnitude() * right.Magnitude())
    ensures left.Magnitude() * right.Magnitude() == 0 <==> left.sign * right.sign == 0
  {
    hide Number;
    if left.Magnitude() > 0 && right.Magnitude() > 0 {
      MulStrict(0, left.Magnitude(), right.Magnitude());
    }
  }
}
