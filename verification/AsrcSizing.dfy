/** Sizing of the sample-rate converter's output: input size times output rate over input rate, by
    shift-and-subtract long division in binary. */
module AsrcSizing {
  import opened BitWords
  import opened MachineInts
  import opened NatArithmetic

  // ---------- long division, digit by digit ----------

  /** floor(2^k * num / den) and what is left over. */
  function Quotient(num: nat, den: nat, k: nat): (q: nat)
    requires den > 0
  {
    num * Pow2(k) / den
  }

  function Remainder(num: nat, den: nat, k: nat): (r: nat)
    requires den > 0
  {
    num * Pow2(k) % den
  }

  /** The k-th binary digit of num/den after the point is a one. */
  predicate Digit(num: nat, den: nat, k: nat)
    requires den > 0
  {
    Quotient(num, den, k) % 2 == 1
  }

  lemma Division(num: nat, den: nat, k: nat)
    requires den > 0
    ensures num * Pow2(k) == den * Quotient(num, den, k) + Remainder(num, den, k)
    ensures Remainder(num, den, k) < den
  {}

  /** Doubling the remainder and subtracting the divisor if it fits gives the next digit. */
  lemma NextDigit(num: nat, den: nat, k: nat)
    requires den > 0
    ensures var r := Remainder(num, den, k);
            Digit(num, den, k + 1) == (2 * r >= den)
            && Remainder(num, den, k + 1) == if 2 * r >= den then 2 * r - den else 2 * r
  {
    var q, r := Quotient(num, den, k), Remainder(num, den, k);
    Division(num, den, k);
    Doubled(num, Pow2(k), den, q, r);
    assert Pow2(k + 1) == Pow2(k) + Pow2(k);
    DoubledDigit(den, q, r, num * Pow2(k + 1));
  }

  lemma DoubledDigit(den: nat, q: nat, r: nat, n: nat)
    requires den > 0 && r < den && n == den * (2 * q) + 2 * r
    ensures (n / den % 2 == 1) == (2 * r >= den)
    ensures n % den == if 2 * r >= den then 2 * r - den else 2 * r
  {
    if 2 * r >= den {
      assert den * (2 * q + 1) == den * (2 * q) + den;
      UniqueDivision(den, 2 * q + 1, 2 * r - den, n);
    } else {
      UniqueDivision(den, 2 * q, 2 * r, n);
    }
  }

  lemma Doubled(num: nat, p: nat, den: nat, q: nat, r: nat)
    requires num * p == den * q + r
    ensures num * (p + p) == den * (2 * q) + 2 * r
  {
    assert num * (p + p) == num * p + num * p;
    assert den * (2 * q) == den * q + den * q;
  }

  /** Once nothing is left over, all further digits are zero. */
  lemma {:induction false} NoMoreDigits(num: nat, den: nat, k: nat, n: nat)
    requires den > 0 && k < n && Remainder(num, den, k) == 0
    ensures !Digit(num, den, n) && Remainder(num, den, n) == 0
    decreases n
  {
    if n - 1 > k { NoMoreDigits(num, den, k, n - 1); }
    NextDigit(num, den, n - 1);
  }

  // ---------- the size ----------

  /** The places whose weight size >> n is above two. */
  function Places(size: nat): (n: nat)
    ensures n <= size / 2
  {
    if size / 2 <= 2 then 0 else 1 + Places(size / 2)
  }

  /** size times (out/in cut after n binary places), each partial product rounded down. */
  function DigitSum(size: nat, in_: nat, out: nat, n: nat): nat
    requires in_ > 0
  {
    if n == 0 then Scale(out / in_, size)
    else DigitSum(size, in_, out, n - 1) + if Digit(out, in_, n) then Weight(size, n) else 0
  }

  /** size >> n. */
  function Weight(size: nat, n: nat): nat {
    size / Pow2(n)
  }

  function Scale(times: nat, size: nat): nat {
    Product(times, size);
    times * size
  }

  function FramesSize(size: nat, in_: nat, out: nat): nat
    requires in_ > 0
  {
    DigitSum(size, in_, out, Places(size)) / 8 * 8
  }

  lemma {:induction false} ShiftAgain(size: nat, n: nat)
    ensures size / Pow2(n + 1) == size / 2 / Pow2(n) == size / Pow2(n) / 2
  {
    HalfOf(size, Pow2(n));
  }

  lemma HalfOf(size: nat, p: nat)
    requires p > 0
    ensures size / (p + p) == size / 2 / p == size / p / 2
  {
    var a := size / p;
    HalvesLast(size, p, a, size % p, a / 2, a % 2);
    HalvesFirst(size, p);
  }

  lemma HalvesLast(size: nat, p: nat, a: nat, low: nat, b: nat, c: nat)
    requires p > 0 && low < p && c < 2 && size == p * a + low && a == 2 * b + c
    ensures size / (p + p) == b
  {
    assert p * (2 * b + c) == p * (2 * b) + p * c;
    assert p * (2 * b) == (p + p) * b;
    assert p * c == if c == 0 then 0 else p;
    UniqueDivision(p + p, b, p * c + low, size);
  }

  lemma HalvesFirst(size: nat, p: nat)
    requires p > 0
    ensures size / 2 / p == size / (p + p)
  {
    var h := size / 2;
    var q, r := h / p, h % p;
    assert h == p * q + r;
    assert size == 2 * h + size % 2;
    assert 2 * (p * q) == (p + p) * q;
    UniqueDivision(p + p, q, 2 * r + size % 2, size);
  }

  /** A place counts exactly when its weight is above two. */
  lemma {:induction false} PlaceCounts(size: nat, n: nat)
    ensures (n < Places(size)) == (size / Pow2(n + 1) > 2)
    decreases n
  {
    ShiftAgain(size, n);
    if n == 0 {
    } else {
      if size / 2 > 2 {
        PlaceCounts(size / 2, n - 1);
        ShiftAgain(size / 2, n - 1);
      } else {
        Smaller(size / 2, Pow2(n));
      }
    }
  }

  lemma Smaller(x: nat, p: nat)
    requires p > 0
    ensures x / p <= x
  {
    var q := x / p;
    assert x == p * q + x % p;
    Product(p - 1, q);
    assert p * q == (p - 1) * q + q;
  }

  // ---------- how good the size is ----------

  function CutOff(size: nat, n: nat): nat {
    size % Pow2(n)
  }

  /** What rounding each partial product down has lost, in units of 1/2^n. */
  function Lost(size: nat, in_: nat, out: nat, n: nat): nat
    requires in_ > 0
  {
    if n == 0 then 0 else 2 * Lost(size, in_, out, n - 1) + if Digit(out, in_, n) then CutOff(size, n) else 0
  }

  /** size * out == in * (sum + lost / p) + size * left / p, without fractions. */
  predicate Balanced(size: nat, in_: nat, out: nat, p: nat, sum: nat, lost: nat, left: nat) {
    in_ * (p * sum + lost) + size * left == size * (out * p)
  }

  lemma {:induction false} Balance(size: nat, in_: nat, out: nat, n: nat)
    requires in_ > 0
    ensures Balanced(size, in_, out, Pow2(n), DigitSum(size, in_, out, n), Lost(size, in_, out, n),
                     Remainder(out, in_, n))
  {
    if n == 0 {
      Division(out, in_, 0);
      BalanceStart(size, in_, out, out / in_, out % in_);
    } else {
      Balance(size, in_, out, n - 1);
      NextDigit(out, in_, n - 1);
      BalanceStep(size, in_, out, Pow2(n - 1), DigitSum(size, in_, out, n - 1), Lost(size, in_, out, n - 1),
                  Remainder(out, in_, n - 1));
    }
  }

  lemma BalanceStart(size: nat, in_: nat, out: nat, q: nat, r: nat)
    requires out == in_ * q + r
    ensures Balanced(size, in_, out, 1, Scale(q, size), 0, r)
  {
    assert size * (in_ * q) == in_ * (q * size);
  }

  lemma BalanceStep(size: nat, in_: nat, out: nat, p: nat, s: nat, f: nat, r: nat)
    requires p > 0 && Balanced(size, in_, out, p, s, f, r)
    ensures if 2 * r >= in_
            then Balanced(size, in_, out, p + p, s + size / (p + p), 2 * f + size % (p + p), 2 * r - in_)
            else Balanced(size, in_, out, p + p, s, 2 * f, 2 * r)
  {
    BalanceDoubled(size, in_, out, p, s, f, r);
    if 2 * r >= in_ {
      BalanceOne(size, in_, out, p + p, size / (p + p), size % (p + p), s, 2 * f, 2 * r);
    }
  }

  lemma BalanceDoubled(size: nat, in_: nat, out: nat, p: nat, s: nat, f: nat, r: nat)
    requires Balanced(size, in_, out, p, s, f, r)
    ensures Balanced(size, in_, out, p + p, s, 2 * f, 2 * r)
  {
    assert (p + p) * s + 2 * f == 2 * (p * s + f) by { assert (p + p) * s == p * s + p * s; }
    assert in_ * (2 * (p * s + f)) == 2 * (in_ * (p * s + f));
    assert out * (p + p) == 2 * (out * p);
    assert size * (2 * (out * p)) == 2 * (size * (out * p));
  }

  lemma BalanceOne(size: nat, in_: nat, out: nat, p: nat, w: nat, m: nat, s: nat, f: nat, r: nat)
    requires size == p * w + m && r >= in_ && Balanced(size, in_, out, p, s, f, r)
    ensures Balanced(size, in_, out, p, s + w, f + m, r - in_)
  {
    assert p * (s + w) == p * s + p * w;
    assert in_ * (p * s + f + size) == in_ * (p * s + f) + in_ * size;
    assert size * (r - in_) == size * r - size * in_;
  }

  lemma {:induction false} LostBound(size: nat, in_: nat, out: nat, n: nat)
    requires in_ > 0
    ensures Lost(size, in_, out, n) <= n * Pow2(n)
  {
    if n == 0 {
    } else {
      LostBound(size, in_, out, n - 1);
      DoubledBound(Lost(size, in_, out, n - 1), CutOff(size, n), n - 1, Pow2(n - 1));
    }
  }

  lemma DoubledBound(lost: nat, more: nat, n: nat, p: nat)
    requires lost <= n * p && more < p + p
    ensures 2 * lost + more <= (n + 1) * (p + p)
  {
    assert (n + 1) * (p + p) == 2 * (n * p) + (p + p);
  }

  function FloorLog2(size: nat): nat {
    if size < 2 then 0 else 1 + FloorLog2(size / 2)
  }

  lemma {:induction false} PlacesBelowLog(size: nat)
    requires size >= 2
    ensures Places(size) + 1 <= FloorLog2(size)
  {
    if size / 2 > 2 { PlacesBelowLog(size / 2); }
  }

  /** Cancelling p from the balance. */
  lemma CancelBelow(size: nat, in_: nat, out: nat, p: nat, s: nat, f: nat, r: nat)
    requires p > 0 && Balanced(size, in_, out, p, s, f, r)
    ensures in_ * s <= size * out
  {
    Product(in_, f);
    Product(size, r);
    assert in_ * (p * s + f) == in_ * (p * s) + in_ * f;
    assert p * (in_ * s) == in_ * (p * s);
    assert p * (size * out) == size * (out * p);
    CancelFactor(p, in_ * s, size * out);
  }

  lemma CancelAbove(size: nat, in_: nat, out: nat, p: nat, s: nat, f: nat, r: nat, n: nat, w: nat)
    requires p > 0 && r < in_ && f <= n * p && size < w * p && Balanced(size, in_, out, p, s, f, r)
    ensures size * out < in_ * (s + n + w)
  {
    LessProduct(size, r, w * p, in_);
    LessOrEqualProduct(in_, f, n * p);
    assert in_ * (p * s + f) == in_ * (p * s) + in_ * f;
    Gather(in_, p, s, n, w);
    assert p * (size * out) == size * (out * p);
    CancelStrict(p, size * out, in_ * (s + n + w));
  }

  lemma Gather(in_: nat, p: nat, s: nat, n: nat, w: nat)
    ensures p * (in_ * (s + n + w)) == in_ * (p * s) + in_ * (n * p) + (w * p) * in_
  {
    assert in_ * (s + n + w) == in_ * s + in_ * n + in_ * w;
    assert p * (in_ * s + in_ * n + in_ * w) == p * (in_ * s) + p * (in_ * n) + p * (in_ * w);
  }

  /** The size never exceeds the exact size * out / in, and falls short of it by less than
      floor(log2 size) + 12 bytes. */
  lemma SizeWithinBounds(size: nat, in_: nat, out: nat)
    requires in_ > 0 && size >= 1
    ensures FramesSize(size, in_, out) % 8 == 0
    ensures in_ * FramesSize(size, in_, out) <= size * out
    ensures size * out < in_ * (FramesSize(size, in_, out) + FloorLog2(size) + 12)
  {
    var n := Places(size);
    var p, s := Pow2(n), DigitSum(size, in_, out, n);
    Balance(size, in_, out, n);
    LostBound(size, in_, out, n);
    Division(out, in_, n);
    LastPlace(size);
    CancelBelow(size, in_, out, p, s, Lost(size, in_, out, n), Remainder(out, in_, n));
    CancelAbove(size, in_, out, p, s, Lost(size, in_, out, n), Remainder(out, in_, n), n, if size == 1 then 2 else 6);
    if size >= 2 { PlacesBelowLog(size); }
    RoundDown(s);
    LessOrEqualProduct(in_, s / 8 * 8, s);
    LessOrEqualProduct(in_, s + n + (if size == 1 then 2 else 6), FramesSize(size, in_, out) + FloorLog2(size) + 12);
  }

  lemma RoundDown(s: nat)
    ensures s / 8 * 8 <= s <= s / 8 * 8 + 7 && s / 8 * 8 % 8 == 0
  {}

  lemma LastPlace(size: nat)
    ensures size < 6 * Pow2(Places(size))
    ensures size == 1 ==> size < 2 * Pow2(Places(size))
  {
    PlaceCounts(size, Places(size));
    BelowNextMultiple(size, Pow2(Places(size) + 1), 2);
  }

  lemma BelowNextMultiple(x: nat, p: nat, k: nat)
    requires p > 0 && x / p <= k
    ensures x < p * k + p
  {
    var q := x / p;
    assert x == p * q + x % p;
    LessOrEqualProduct(p, q, k);
  }

  // ---------- the routine ----------

  /** Every partial sum is within the exact size, however many places are used. */
  lemma PartialSizeBound(size: nat, in_: nat, out: nat, n: nat)
    requires in_ > 0
    ensures in_ * DigitSum(size, in_, out, n) <= size * out
  {
    Balance(size, in_, out, n);
    CancelBelow(size, in_, out, Pow2(n), DigitSum(size, in_, out, n), Lost(size, in_, out, n),
                Remainder(out, in_, n));
  }

  /** The rates and sizes for which nothing overflows. */
  predicate Fits(size: nat, in_: nat, out: nat, outWord: nat) {
    0 < in_ <= 0x4000_0000 && 0 < outWord && size * out * outWord < in_ * TWO_TO_THE_31
  }

  lemma SumFits(size: nat, in_: nat, out: nat, outWord: nat, sum: nat)
    requires Fits(size, in_, out, outWord) && in_ * sum <= size * out
    ensures sum <= sum * outWord < TWO_TO_THE_31
  {
    LessOrEqualProduct(outWord, in_ * sum, size * out);
    assert in_ * (sum * outWord) == outWord * (in_ * sum);
    assert outWord * (size * out) == size * out * outWord;
    CancelStrict(in_, sum * outWord, TWO_TO_THE_31);
    LessOrEqualProduct(sum, 1, outWord);
  }

  lemma PartialSizeFits(size: nat, in_: nat, out: nat, outWord: nat, n: nat)
    requires Fits(size, in_, out, outWord)
    ensures DigitSum(size, in_, out, n) < TWO_TO_THE_31
  {
    PartialSizeBound(size, in_, out, n);
    SumFits(size, in_, out, outWord, DigitSum(size, in_, out, n));
  }

  lemma {:induction false} NothingLeft(size: nat, in_: nat, out: nat, k: nat, n: nat)
    requires in_ > 0 && k <= n && Remainder(out, in_, k) == 0
    ensures DigitSum(size, in_, out, k) == DigitSum(size, in_, out, n)
    decreases n
  {
    if k == n {
    } else {
      NothingLeft(size, in_, out, k, n - 1);
      NoMoreDigits(out, in_, k, n);
    }
  }

  /** The whole quotient by repeated subtraction, scaled. */
  method WholePart(size: int32, in_: int32, out: int32, ghost outWord: nat) returns (sum: int32, left: int32)
    requires size >= 0 && out >= 0 && in_ > 0 && Fits(size, in_, out, outWord)
    ensures sum == DigitSum(size, in_, out, 0) && left == Remainder(out, in_, 0)
  {
    var i: int32 := 0;
    left := out;
    while left >= in_
      invariant 0 <= i && 0 <= left && i + left <= out && out == in_ * i + left
    {
      assert in_ * (i + 1) == in_ * i + in_;
      i := i + 1;
      left := left - in_;
    }
    UniqueDivision(in_, i, left, out);
    PartialSizeFits(size, in_, out, outWord, 0);
    assert i == out / in_;
    sum := Scale(i, size);
  }

  /** asrc_get_output_buffer_size. All of its arithmetic stays within int32_t. */
  method GetOutputBufferSize(size: int32, in_: int32, out: int32, inWord: int32, outWord: int32) returns (r: int32)
    requires size >= 0 && out >= 0 && inWord > 0 && in_ > 0 && outWord > 0 && Fits(size, in_, out, outWord)
    ensures r == FramesSize(size, in_, out) * outWord / inWord
  {
    var sum, left := WholePart(size, in_, out, outWord);
    var i: int32 := 1;
    while size / Pow2(i) > 2 && left != 0
      invariant 1 <= i <= Places(size) + 1
      invariant sum == DigitSum(size, in_, out, i - 1) && left == Remainder(out, in_, i - 1)
      decreases Places(size) + 1 - i
    {
      PlaceCounts(size, i - 1);
      NextDigit(out, in_, i - 1);
      PartialSizeFits(size, in_, out, outWord, i);
      var twice: int32 := left + left;
      var rest: int32 := twice - in_;
      if rest >= 0 {
        left := rest;
        sum := sum + Weight(size, i);
      } else {
        left := twice;
      }
      i := i + 1;
    }
    PlaceCounts(size, i - 1);
    if left == 0 { NothingLeft(size, in_, out, i - 1, Places(size)); }
    PartialSizeBound(size, in_, out, Places(size));
    SumFits(size, in_, out, outWord, DigitSum(size, in_, out, Places(size)));
    r := ScaleWords(sum, inWord, outWord);
  }

  /** Rounding to a multiple of eight, then from input words to output words. */
  method ScaleWords(sum: int32, inWord: int32, outWord: int32) returns (r: int32)
    requires sum >= 0 && inWord > 0 && outWord > 0 && sum * outWord < TWO_TO_THE_31
    ensures r == sum / 8 * 8 * outWord / inWord
  {
    var rounded: int32 := sum / 8 * 8;
    LessOrEqualProduct(outWord, rounded, sum);
    Product(rounded, outWord);
    var scaled: int32 := rounded * outWord;
    Smaller(scaled, inWord);
    r := scaled / inWord;
  }

  /** For words of 1, 2 or 4 bytes the conversion to output words is exact: r whole input words go in. */
  lemma WordsConvertExactly(size: nat, in_: nat, out: nat, inWord: nat, outWord: nat)
    requires in_ > 0 && inWord in {1, 2, 4}
    ensures FramesSize(size, in_, out) * outWord / inWord * inWord == FramesSize(size, in_, out) * outWord
  {
    var q := DigitSum(size, in_, out, Places(size)) / 8;
    EightTimes(q, outWord, inWord, 8 / inWord);
  }

  lemma EightTimes(q: nat, outWord: nat, inWord: nat, times: nat)
    requires inWord > 0 && inWord * times == 8
    ensures q * 8 * outWord / inWord * inWord == q * 8 * outWord
  {
    Product(q, outWord);
    Product(times, q * outWord);
    assert q * 8 * outWord == inWord * (times * (q * outWord)) by {
      assert q * 8 * outWord == 8 * (q * outWord);
      assert inWord * times * (q * outWord) == inWord * (times * (q * outWord));
    }
    UniqueDivision(inWord, times * (q * outWord), 0, q * 8 * outWord);
  }
}
