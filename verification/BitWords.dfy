/** 32-bit words as bit strings, least significant bit first, and exclusive-ors of chosen bits. */
module BitWords {
  type Word = s: seq<bool> | |s| == 32 witness seq(32, _ => false)

  type Byte = s: seq<bool> | |s| == 8 witness seq(8, _ => false)
  type Half = s: seq<bool> | |s| == 16 witness seq(16, _ => false)

  const ZERO_WORD: Word := seq(32, _ => false)

  function XorSeq(a: seq<bool>, b: seq<bool>): (r: seq<bool>)
    requires |a| == |b|
    ensures |r| == |a|
  {
    seq(|a|, i requires 0 <= i < |a| => a[i] != b[i])
  }

  function Xor(a: Word, b: Word): Word {
    XorSeq(a, b)
  }

  /** x << 1. */
  function Shift(x: Word): Word {
    [false] + x[..31]
  }

  // x << k, x >> k and x | y.

  function Left(x: Word, k: nat): Word {
    seq(32, i requires 0 <= i < 32 => i >= k && x[i - k])
  }

  function Right(x: Word, k: nat): Word {
    seq(32, i requires 0 <= i < 32 => i + k < 32 && x[i + k])
  }

  function Or(x: Word, y: Word): Word {
    seq(32, i requires 0 <= i < 32 => x[i] || y[i])
  }

  /** The word with only bit k set. */
  function Unit(k: nat): Word {
    seq(32, i => i == k)
  }

  /** The exclusive-or of the bits of s below k whose positions are in the mask. */
  predicate Select(mask: set<nat>, s: seq<bool>, k: nat)
    requires k <= |s|
  {
    if k == 0 then false else Select(mask, s, k - 1) != (k - 1 in mask && s[k - 1])
  }

  lemma {:induction false} SelectXor(mask: set<nat>, a: seq<bool>, b: seq<bool>, k: nat)
    requires k <= |a| == |b|
    ensures Select(mask, XorSeq(a, b), k) == (Select(mask, a, k) != Select(mask, b, k))
  {
    if k == 0 {
    } else {
      SelectXor(mask, a, b, k - 1);
    }
  }

  /** Masks that agree up to an exclusive-or select accordingly. */
  lemma {:induction false} SelectMaskXor(m: set<nat>, a: set<nat>, b: set<nat>, s: seq<bool>, k: nat)
    requires k <= |s|
    requires forall j: nat | j < k :: (j in m) == ((j in a) != (j in b))
    ensures Select(m, s, k) == (Select(a, s, k) != Select(b, s, k))
  {
    if k == 0 {
    } else {
      SelectMaskXor(m, a, b, s, k - 1);
    }
  }

  lemma {:induction false} SelectUnit(mask: set<nat>, j: nat, k: nat)
    requires k <= 32
    ensures Select(mask, Unit(j), k) == (j < k && j in mask)
  {
    if k == 0 {
    } else {
      SelectUnit(mask, j, k - 1);
    }
  }

  lemma {:induction false} SelectZero(mask: set<nat>, k: nat)
    requires k <= 32
    ensures !Select(mask, ZERO_WORD, k)
  {
    if k == 0 {
    } else {
      SelectZero(mask, k - 1);
    }
  }

  // ---------- numbers ----------

  function Pow2(k: nat): (p: nat)
    ensures p > 0
  {
    if k == 0 then 1 else Pow2(k - 1) + Pow2(k - 1)
  }

  function ToNat(s: seq<bool>): (n: nat)
    ensures n < Pow2(|s|)
  {
    if s == [] then 0 else (if s[0] then 1 else 0) + 2 * ToNat(s[1..])
  }

  function FromNat(n: nat, k: nat): (s: seq<bool>)
    ensures |s| == k
    decreases k
  {
    if k == 0 then [] else [n % 2 == 1] + FromNat(n / 2, k - 1)
  }

  lemma {:induction false} ToNatFromNat(n: nat, k: nat)
    requires n < Pow2(k)
    ensures ToNat(FromNat(n, k)) == n
    decreases k
  {
    if k == 0 {
    } else {
      ToNatFromNat(n / 2, k - 1);
      assert FromNat(n, k)[1..] == FromNat(n / 2, k - 1);
    }
  }
}
