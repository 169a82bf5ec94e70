/** The bit-serial CRC-32 register for the generator polynomial of section 3.2.9 of IEEE 802.3:
    most significant bit first, not reflected, no final complement. */
module Lfsr {
  import opened BitWords

  /** The exponents of the generator below 32; x^32 itself is implied. */
  const POLY: set<nat> := {26, 23, 22, 16, 12, 11, 10, 8, 7, 5, 4, 2, 1, 0}

  /** The generator's low 32 coefficients as a word: 0x04C11DB7. */
  function Generator(): Word {
    seq(32, i requires 0 <= i => i in POLY)
  }

  /** One bit into the register: shift, and feed the generator back when the bit leaving at the
      top differs from the data bit. */
  function Step(c: Word, d: bool): Word {
    if c[31] != d then Xor(Shift(c), Generator()) else Shift(c)
  }

  function Run(c: Word, bits: seq<bool>): Word
    decreases |bits|
  {
    if bits == [] then c else Run(Step(c, bits[0]), bits[1..])
  }

  /** The k low bits of a word, most significant first. */
  function LowBits(w: Word, k: nat): (bits: seq<bool>)
    requires k <= 32
    ensures |bits| == k
    ensures forall i | 0 <= i < k :: bits[i] == w[k - 1 - i]
    decreases k
  {
    if k == 0 then [] else [w[k - 1]] + LowBits(w, k - 1)
  }

  // ---------- runs over bit strings ----------

  lemma {:induction false} RunConcat(c: Word, s: seq<bool>, t: seq<bool>)
    ensures Run(c, s + t) == Run(Run(c, s), t)
    decreases |s|
  {
    if s == [] {
      assert s + t == t;
    } else {
      RunConcat(Step(c, s[0]), s[1..], t);
      assert (s + t)[1..] == s[1..] + t;
    }
  }

  lemma StepLinear(c: Word, e: Word, d: bool, f: bool)
    ensures Step(Xor(c, e), d != f) == Xor(Step(c, d), Step(e, f))
  {}

  lemma {:induction false} RunLinear(c: Word, e: Word, s: seq<bool>, t: seq<bool>)
    requires |s| == |t|
    ensures Run(Xor(c, e), XorSeq(s, t)) == Xor(Run(c, s), Run(e, t))
    decreases |s|
  {
    if s == [] {
    } else {
      StepLinear(c, e, s[0], t[0]);
      RunLinear(Step(c, s[0]), Step(e, t[0]), s[1..], t[1..]);
      assert XorSeq(s, t)[1..] == XorSeq(s[1..], t[1..]);
    }
  }

  /** The step has an inverse: the low bit of the result tells whether the generator was fed back. */
  function Unstep(r: Word, d: bool): Word {
    var shifted := if r[0] then Xor(r, Generator()) else r;
    shifted[1..] + [r[0] != d]
  }

  lemma UnstepStep(c: Word, d: bool)
    ensures Unstep(Step(c, d), d) == c
  {}

  lemma StepUnstep(r: Word, d: bool)
    ensures Step(Unstep(r, d), d) == r
  {}

  lemma {:induction false} RunInjective(c: Word, e: Word, bits: seq<bool>)
    requires Run(c, bits) == Run(e, bits)
    ensures c == e
    decreases |bits|
  {
    if bits == [] {
    } else {
      RunInjective(Step(c, bits[0]), Step(e, bits[0]), bits[1..]);
      UnstepStep(c, bits[0]);
      UnstepStep(e, bits[0]);
    }
  }

  /** The register from which the given bits lead to r. */
  function Unrun(r: Word, bits: seq<bool>): Word
    decreases |bits|
  {
    if bits == [] then r else Unstep(Unrun(r, bits[1..]), bits[0])
  }

  lemma {:induction false} RunUnrun(r: Word, bits: seq<bool>)
    ensures Run(Unrun(r, bits), bits) == r
    decreases |bits|
  {
    if bits == [] {
    } else {
      StepUnstep(Unrun(r, bits[1..]), bits[0]);
      RunUnrun(r, bits[1..]);
    }
  }

  // ---------- error detection ----------

  /** If shifting in at most 32 bits clears the register, the register held exactly those bits. */
  lemma {:induction false} Cleared(c: Word, bits: seq<bool>)
    requires |bits| <= 32 && Run(c, bits) == ZERO_WORD
    ensures forall i | 0 <= i < 32 :: c[i] == (i >= 32 - |bits| && bits[31 - i])
    decreases |bits|
  {
    if bits == [] {
    } else {
      var next := Step(c, bits[0]);
      Cleared(next, bits[1..]);
      assert !next[0];
      assert c[31] == bits[0];
      forall i | 0 <= i < 31 ensures c[i] == next[i + 1] {}
    }
  }

  /** Two messages that differ only inside a window of at most 32 bits leave different registers:
      if the registers agree, so do the windows. */
  lemma BurstDetected(c: Word, before: seq<bool>, s: seq<bool>, t: seq<bool>, after: seq<bool>)
    requires |s| == |t| <= 32
    requires Run(c, before + s + after) == Run(c, before + t + after)
    ensures s == t
  {
    RunConcat(c, before + s, after);
    RunConcat(c, before + t, after);
    RunConcat(c, before, s);
    RunConcat(c, before, t);
    var r := Run(c, before);
    RunInjective(Run(r, s), Run(r, t), after);
    WindowInjective(r, s, t);
  }

  lemma WindowInjective(r: Word, s: seq<bool>, t: seq<bool>)
    requires |s| == |t| <= 32
    requires Run(r, s) == Run(r, t)
    ensures s == t
  {
    RunLinear(r, r, s, t);
    assert Xor(r, r) == ZERO_WORD == Xor(Run(r, s), Run(r, t));
    Cleared(ZERO_WORD, XorSeq(s, t));
    forall i | 0 <= i < |s| ensures s[i] == t[i] {
      assert !ZERO_WORD[31 - i] && XorSeq(s, t)[i] == (s[i] != t[i]);
    }
  }

  // ---------- a word's bits enter at the top of the register ----------

  function Zeros(c: Word, k: nat): Word
    decreases k
  {
    if k == 0 then c else Zeros(Step(c, false), k - 1)
  }

  /** The k low bits of w at the top of the register, zeros below. */
  function AtTop(w: Word, k: nat): Word
    requires k <= 32
  {
    seq(32 - k, _ => false) + w[..k]
  }

  lemma StepAlign(c: Word, w: Word, k: nat)
    requires 0 < k <= 32
    ensures Step(Xor(c, AtTop(w, k)), false) == Xor(Step(c, w[k - 1]), AtTop(w, k - 1))
  {
    assert Shift(AtTop(w, k)) == AtTop(w, k - 1);
    assert AtTop(w, k)[31] == w[k - 1];
    assert Shift(Xor(c, AtTop(w, k))) == Xor(Shift(c), AtTop(w, k - 1));
  }

  /** Shifting in the bits of w is adding them to the top of the register and shifting in zeros. */
  lemma {:induction false} Align(c: Word, w: Word, k: nat)
    requires k <= 32
    ensures Run(c, LowBits(w, k)) == Zeros(Xor(c, AtTop(w, k)), k)
    decreases k
  {
    if k == 0 {
      assert AtTop(w, 0) == ZERO_WORD;
      assert Xor(c, ZERO_WORD) == c;
    } else {
      StepAlign(c, w, k);
      Align(Step(c, w[k - 1]), w, k - 1);
      assert LowBits(w, k)[1..] == LowBits(w, k - 1);
    }
  }

  // ---------- shifting in zeros ----------

  lemma {:induction false} ZerosLinear(c: Word, e: Word, k: nat)
    ensures Zeros(Xor(c, e), k) == Xor(Zeros(c, k), Zeros(e, k))
    decreases k
  {
    if k == 0 {
    } else {
      StepLinear(c, e, false, false);
      ZerosLinear(Step(c, false), Step(e, false), k - 1);
    }
  }

  lemma {:induction false} ZerosSum(c: Word, j: nat, k: nat)
    ensures Zeros(Zeros(c, j), k) == Zeros(c, j + k)
    decreases j
  {
    if j == 0 {
    } else {
      ZerosSum(Step(c, false), j - 1, k);
    }
  }

  /** A one at the bottom climbs without feedback until it reaches the top. */
  lemma {:induction false} ZerosOfUnit(j: nat, k: nat)
    requires j + k <= 31
    ensures Zeros(Unit(j), k) == Unit(j + k)
    decreases k
  {
    if k == 0 {
    } else {
      assert Step(Unit(j), false) == Unit(j + 1);
      ZerosOfUnit(j + 1, k - 1);
    }
  }
}
