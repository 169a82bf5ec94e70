/** The unrolled network is 24 steps of the bit-serial register. The proof never compares the two
    networks symbolically: the register half of the network is linear, commutes with a step of the
    bit-serial register (one fact a row), and moves the bottom bit up by 24. */
module CrcRefinement {
  import opened BitWords
  import opened CrcNetwork
  import opened Lfsr

  // ---------- one step, seen through a mask ----------

  /** Parity of the generator's exponents that the mask contains. */
  predicate Common(m: set<nat>) {
    Select(m, Generator(), 32)
  }

  /** The mask that reads from c what m reads from Step(c, false). */
  function Back(m: set<nat>): set<nat> {
    set k: nat | k < 32 && ReadsBack(m, k)
  }

  predicate ReadsBack(m: set<nat>, k: nat) {
    if k < 31 then k + 1 in m else Common(m)
  }

  lemma {:induction false} SelectShift(m: set<nat>, c: Word, k: nat)
    requires k < 32
    ensures Select(m, Shift(c), k + 1) == Select(Back(m), c, k)
  {
    if k == 0 {
    } else {
      SelectShift(m, c, k - 1);
    }
  }

  lemma StepAdjoint(m: set<nat>, c: Word)
    ensures Select(m, Step(c, false), 32) == Select(Back(m), c, 32)
  {
    SelectXor(m, Shift(c), Generator(), 32);
    SelectShift(m, c, 31);
    assert Select(Back(m), c, 32) == (Select(Back(m), c, 31) != (Common(m) && c[31]));
    if !c[31] { assert Step(c, false) == Shift(c); }
  }

  // ---------- the table facts ----------

  /** Row i - 1 plus the fed-back top row. */
  predicate FedBack(i: nat, k: nat)
    requires i < 32
  {
    (i > 0 && RegisterTap(i - 1, k)) != (i in POLY && RegisterTap(31, k))
  }

  /** Row i of the network, stepped back, is row i - 1 plus the fed-back top row. */
  lemma RowsRecur(i: nat)
    requires i < 32
    ensures forall k: nat | k < 31 :: RegisterTap(i, k + 1) == FedBack(i, k)
  {
    if i < 8 {
      LowRowsRecur(i);
    } else if i < 16 {
      MiddleRowsRecur(i);
    } else if i < 24 {
      UpperRowsRecur(i);
    } else {
      TopRowsRecur(i);
    }
  }

  lemma LowRowsRecur(i: nat)
    requires i < 8
    ensures forall k: nat | k < 31 :: RegisterTap(i, k + 1) == FedBack(i, k)
  {}

  lemma MiddleRowsRecur(i: nat)
    requires 8 <= i < 16
    ensures forall k: nat | k < 31 :: RegisterTap(i, k + 1) == FedBack(i, k)
  {}

  lemma UpperRowsRecur(i: nat)
    requires 16 <= i < 24
    ensures forall k: nat | k < 31 :: RegisterTap(i, k + 1) == FedBack(i, k)
  {}

  lemma TopRowsRecur(i: nat)
    requires 24 <= i < 32
    ensures forall k: nat | k < 31 :: RegisterTap(i, k + 1) == FedBack(i, k)
  {}

  /** The data taps of a row are its register taps on the 24 top bits, moved down by 8. */
  lemma DataTapsAligned(i: nat)
    requires i < 32
    ensures forall k: nat | k < 24 :: DataTap(i, k) == RegisterTap(i, k + 8)
    ensures forall k: nat | k >= 24 :: !DataTap(i, k)
  {}

  lemma BottomTap(i: nat)
    requires i < 32
    ensures RegisterTap(i, 0) <==> i == 24
  {}

  /** Parity of row i's taps on the generator's exponents, lowest first. */
  predicate CommonTaps(i: nat)
    requires i < 32
  {
    var p1 := RegisterTap(i, 0) != RegisterTap(i, 1);
    var p2 := p1 != RegisterTap(i, 2);
    var p4 := p2 != RegisterTap(i, 4);
    var p5 := p4 != RegisterTap(i, 5);
    var p7 := p5 != RegisterTap(i, 7);
    var p8 := p7 != RegisterTap(i, 8);
    var p10 := p8 != RegisterTap(i, 10);
    var p11 := p10 != RegisterTap(i, 11);
    var p12 := p11 != RegisterTap(i, 12);
    var p16 := p12 != RegisterTap(i, 16);
    var p22 := p16 != RegisterTap(i, 22);
    var p23 := p22 != RegisterTap(i, 23);
    p23 != RegisterTap(i, 26)
  }

  lemma CommonTapsRecur(i: nat)
    requires i < 32
    ensures CommonTaps(i) == FedBack(i, 31)
  {
    if i < 16 { LowCommonTaps(i); } else if i < 24 { UpperCommonTaps(i); } else { TopCommonTaps(i); }
  }

  lemma LowCommonTaps(i: nat)
    requires i < 16
    ensures CommonTaps(i) == FedBack(i, 31)
  {}

  lemma UpperCommonTaps(i: nat)
    requires 16 <= i < 24
    ensures CommonTaps(i) == FedBack(i, 31)
  {}

  lemma TopCommonTaps(i: nat)
    requires 24 <= i < 32
    ensures CommonTaps(i) == FedBack(i, 31)
  {}

  lemma {:induction false} SelectSkip(m: set<nat>, s: Word, j: nat, k: nat)
    requires j <= k <= 32 && forall t | j <= t < k :: !s[t]
    ensures Select(m, s, k) == Select(m, s, j)
  {
    if j == k {
    } else {
      SelectSkip(m, s, j, k - 1);
    }
  }

  /** One term of the selection, after the gap since the previous exponent. */
  lemma SelectNext(m: set<nat>, j: nat, k: nat)
    requires j <= k < 32 && k in POLY && forall t: nat | j <= t < k :: t !in POLY
    ensures Select(m, Generator(), k + 1) == (Select(m, Generator(), j) != (k in m))
  {
    SelectSkip(m, Generator(), j, k);
  }

  /** The selection up to the exponent 8, term by term. */
  lemma SelectLow(m: set<nat>)
    ensures Select(m, Generator(), 9)
            == (((((((0 in m) != (1 in m)) != (2 in m)) != (4 in m)) != (5 in m)) != (7 in m)) != (8 in m))
  {
    SelectNext(m, 0, 0);
    SelectNext(m, 1, 1);
    SelectNext(m, 2, 2);
    SelectNext(m, 3, 4);
    SelectNext(m, 5, 5);
    SelectNext(m, 6, 7);
    SelectNext(m, 8, 8);
  }

  lemma SelectHigh(m: set<nat>)
    ensures Select(m, Generator(), 32)
            == (((((((Select(m, Generator(), 9) != (10 in m)) != (11 in m)) != (12 in m)) != (16 in m))
                 != (22 in m)) != (23 in m)) != (26 in m))
  {
    SelectNext(m, 9, 10);
    SelectNext(m, 11, 11);
    SelectNext(m, 12, 12);
    SelectNext(m, 13, 16);
    SelectNext(m, 17, 22);
    SelectNext(m, 23, 23);
    SelectNext(m, 24, 26);
    SelectSkip(m, Generator(), 27, 32);
  }

  lemma CommonIsCommonTaps(i: nat)
    requires i < 32
    ensures Common(RegisterTaps(i)) == CommonTaps(i)
  {
    SelectLow(RegisterTaps(i));
    SelectHigh(RegisterTaps(i));
  }

  // ---------- the register half of the network is 24 steps with zero data ----------

  function RegisterHalf(c: Word): Word {
    seq(32, i requires 0 <= i < 32 => Select(RegisterTaps(i), c, 32))
  }

  lemma HalfLinear(c: Word, e: Word)
    ensures RegisterHalf(Xor(c, e)) == Xor(RegisterHalf(c), RegisterHalf(e))
  {
    forall i | 0 <= i < 32 ensures RegisterHalf(Xor(c, e))[i] == (RegisterHalf(c)[i] != RegisterHalf(e)[i]) {
      SelectXor(RegisterTaps(i), c, e, 32);
    }
  }

  lemma HalfCommutes(c: Word)
    ensures RegisterHalf(Step(c, false)) == Step(RegisterHalf(c), false)
  {
    var h := RegisterHalf(c);
    forall i: nat | i < 32 ensures RegisterHalf(Step(c, false))[i] == Step(h, false)[i] {
      RowCommutes(i, c);
    }
  }

  lemma RowCommutes(i: nat, c: Word)
    requires i < 32
    ensures Select(RegisterTaps(i), Step(c, false), 32)
            == ((i > 0 && RegisterHalf(c)[i - 1]) != (i in POLY && RegisterHalf(c)[31]))
  {
    var m := RegisterTaps(i);
    StepAdjoint(m, c);
    var a, b := RowBelow(i), RowFed(i);
    BackOfRow(i);
    SelectMaskXor(Back(m), a, b, c, 32);
    SelectNone(c, 32);
  }

  function RowBelow(i: nat): set<nat>
    requires i < 32
  {
    if i > 0 then RegisterTaps(i - 1) else {}
  }

  function RowFed(i: nat): set<nat>
    requires i < 32
  {
    if i in POLY then RegisterTaps(31) else {}
  }

  lemma BackOfRow(i: nat)
    requires i < 32
    ensures forall k: nat | k < 32 :: (k in Back(RegisterTaps(i))) == ((k in RowBelow(i)) != (k in RowFed(i)))
  {
    forall k: nat | k < 32 ensures (k in Back(RegisterTaps(i))) == FedBack(i, k) {
      if k < 31 { RowsRecur(i); } else { CommonIsCommonTaps(i); CommonTapsRecur(i); }
    }
    forall k: nat | k < 32 ensures ((k in RowBelow(i)) != (k in RowFed(i))) == FedBack(i, k) {}
  }

  lemma {:induction false} SelectNone(s: Word, k: nat)
    requires k <= 32
    ensures !Select({}, s, k)
  {
    if k == 0 {
    } else {
      SelectNone(s, k - 1);
    }
  }

  lemma {:induction false} HalfCommutesBy(c: Word, k: nat)
    ensures RegisterHalf(Zeros(c, k)) == Zeros(RegisterHalf(c), k)
    decreases k
  {
    if k == 0 {
    } else {
      HalfCommutes(c);
      HalfCommutesBy(Step(c, false), k - 1);
    }
  }

  /** On the word with only bit k set, the register half is 24 steps. */
  lemma HalfOfUnit(k: nat)
    requires k < 32
    ensures RegisterHalf(Unit(k)) == Zeros(Unit(k), 24)
  {
    forall i: nat | i < 32 ensures RegisterHalf(Unit(0))[i] == Unit(24)[i] {
      SelectUnit(RegisterTaps(i), 0, 32);
      BottomTap(i);
    }
    assert RegisterHalf(Unit(0)) == Unit(24);
    ZerosOfUnit(0, 24);
    ZerosOfUnit(0, k);
    HalfCommutesBy(Unit(0), k);
    ZerosSum(Unit(0), 24, k);
    ZerosSum(Unit(0), k, 24);
  }

  /** The k low bits of c. */
  function Low(c: Word, k: nat): Word {
    seq(32, i requires 0 <= i < 32 => i < k && c[i])
  }

  lemma {:induction false} HalfOfLow(c: Word, k: nat)
    requires k <= 32
    ensures RegisterHalf(Low(c, k)) == Zeros(Low(c, k), 24)
  {
    if k == 0 {
      assert Low(c, 0) == Xor(ZERO_WORD, ZERO_WORD) == ZERO_WORD;
      HalfLinear(ZERO_WORD, ZERO_WORD);
      ZerosLinear(ZERO_WORD, ZERO_WORD, 24);
      XorSelf(RegisterHalf(ZERO_WORD));
      XorSelf(Zeros(ZERO_WORD, 24));
    } else {
      HalfOfLow(c, k - 1);
      if c[k - 1] {
        assert Low(c, k) == Xor(Low(c, k - 1), Unit(k - 1));
        HalfLinear(Low(c, k - 1), Unit(k - 1));
        ZerosLinear(Low(c, k - 1), Unit(k - 1), 24);
        HalfOfUnit(k - 1);
      } else {
        assert Low(c, k) == Low(c, k - 1);
      }
    }
  }

  lemma XorSelf(x: Word)
    ensures Xor(x, x) == ZERO_WORD
  {}

  lemma HalfIsZeros(c: Word)
    ensures RegisterHalf(c) == Zeros(c, 24)
  {
    HalfOfLow(c, 32);
    assert Low(c, 32) == c;
  }

  // ---------- the whole network ----------

  /** Reading the data word through a row's data taps is reading its low 24 bits, placed at the top
      of the register, through the row's register taps. */
  lemma {:induction false} SelectAtTop(i: nat, w: Word, k: nat)
    requires i < 32 && k <= 24
    ensures Select(RegisterTaps(i), AtTop(w, 24), k + 8) == Select(DataTaps(i), w, k)
  {
    var a := AtTop(w, 24);
    if k == 0 {
      SelectSkip(RegisterTaps(i), a, 0, 8);
    } else {
      SelectAtTop(i, w, k - 1);
      DataTapsAligned(i);
      assert a[k + 7] == w[k - 1];
    }
  }

  lemma {:induction false} SelectPastData(i: nat, w: Word, k: nat)
    requires i < 32 && 24 <= k <= 32
    ensures Select(DataTaps(i), w, k) == Select(DataTaps(i), w, 24)
  {
    if k == 24 {
    } else {
      SelectPastData(i, w, k - 1);
      DataTapsAligned(i);
    }
  }

  /** crc32_calc_single_24bit is the bit-serial register clocked with the word's low 24 bits,
      most significant first. */
  lemma NetworkIsLfsr(c: Word, w: Word)
    ensures Crc32CalcSingle24bit(c, w) == Run(c, LowBits(w, 24))
  {
    var a := AtTop(w, 24);
    Align(c, w, 24);
    HalfIsZeros(Xor(c, a));
    HalfLinear(c, a);
    forall i: nat | i < 32 ensures Crc32CalcSingle24bit(c, w)[i] == Xor(RegisterHalf(c), RegisterHalf(a))[i] {
      SelectAtTop(i, w, 24);
      SelectPastData(i, w, 32);
    }
  }
}
