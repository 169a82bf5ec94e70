/** Two's-complement 32-bit arithmetic, with wrap-around written out. */
module MachineInts {
  const TWO_TO_THE_31: nat := 0x8000_0000
  const TWO_TO_THE_32: nat := 0x1_0000_0000

  type uint8 = x: int | 0 <= x < 0x100
  type int32 = x: int | -0x8000_0000 <= x < 0x8000_0000

  /** The int32_t that a sum or difference of int32_t values leaves behind. */
  function Wrap(x: int): int32 {
    (x + 0x8000_0000) % 0x1_0000_0000 - 0x8000_0000
  }

  /** int32_t addition and subtraction. */
  function Plus(a: int, b: int): int32 {
    Wrap(a + b)
  }

  function Minus(a: int, b: int): int32 {
    Wrap(a - b)
  }

  lemma MinusOne(a: int)
    ensures Minus(a, 1) == Plus(a, -1)
  {}

  lemma WrapIsIdentityInRange(x: int)
    requires -0x8000_0000 <= x < 0x8000_0000
    ensures Wrap(x) == x
  {}

  /** Whole turns of 2^32 make no difference. */
  lemma WrapOfTurns(x: int, k: int)
    ensures Wrap(x + 0x1_0000_0000 * k) == Wrap(x)
  {}

  lemma WrapTurns(x: int) returns (k: int)
    ensures Wrap(x) == x + 0x1_0000_0000 * k
  {
    k := -((x + 0x8000_0000) / 0x1_0000_0000);
  }

  /** Wrapping early or late makes no difference to a sum. */
  lemma WrapOfSum(a: int, b: int)
    ensures Plus(Wrap(a), Wrap(b)) == Wrap(a + b)
    ensures Plus(Wrap(a), b) == Wrap(a + b)
  {
    var j := WrapTurns(a);
    var k := WrapTurns(b);
    WrapOfTurns(a + b, j + k);
    WrapOfTurns(a + b, j);
  }

  lemma WrapOfDifference(a: int, b: int)
    ensures Minus(Wrap(a), Wrap(b)) == Wrap(a - b)
  {
    var j := WrapTurns(a);
    var k := WrapTurns(b);
    WrapOfTurns(a - b, j - k);
  }

  /** An offset passes through a wrapping subtraction. */
  lemma WrapOfOffsets(p: int, e: int, q: int, d: int)
    ensures Minus(Wrap(p + e), Wrap(q + d)) == Wrap(Minus(p, q) + (e - d))
  {
    WrapOfDifference(p + e, q + d);
    var j := WrapTurns(p - q);
    WrapOfTurns(p + e - (q + d), j);
  }
}
