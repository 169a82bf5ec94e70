/** Bit reversal by table. */
module DsdBits {
  import opened BitWords
  import opened MachineInts
  import opened Sequences

  // The table, as its macros expand: each level lists its argument plus 0, 2, 1 and 3 times a step.

  function R2(n: nat): seq<nat> {
    [n, n + 2 * 64, n + 1 * 64, n + 3 * 64]
  }

  function R4(n: nat): (r: seq<nat>)
    ensures |r| == 16
  {
    R2(n) + R2(n + 2 * 16) + R2(n + 1 * 16) + R2(n + 3 * 16)
  }

  function R6(n: nat): (r: seq<nat>)
    ensures |r| == 64
  {
    R4(n) + R4(n + 2 * 4) + R4(n + 1 * 4) + R4(n + 3 * 4)
  }

  function R8(n: nat): (r: seq<nat>)
    ensures |r| == 256
  {
    R6(n) + R6(n + 2) + R6(n + 1) + R6(n + 3)
  }

  /** The two low bits of k exchanged. */
  function Swap2(k: nat): nat
    requires k < 4
  {
    if k == 1 then 2 else if k == 2 then 1 else k
  }

  /** Element k of block i among four blocks of equal length n. */
  lemma FourBlocks(a: seq<nat>, b: seq<nat>, c: seq<nat>, d: seq<nat>, n: nat, i: nat, block: seq<nat>, k: nat)
    requires |a| == |b| == |c| == |d| == n && k < n && i < 4
    requires block == if i == 0 then a else if i == 1 then b else if i == 2 then c else d
    ensures n * i + k < |a + b + c + d| && (a + b + c + d)[n * i + k] == block[k]
  {}

  lemma R4At(n: nat, j: nat, k: nat)
    requires j < 4 && k < 4
    ensures |R4(n)| == 16 && R4(n)[4 * j + k] == n + 16 * Swap2(j) + 64 * Swap2(k)
  {
    FourBlocks(R2(n), R2(n + 2 * 16), R2(n + 1 * 16), R2(n + 3 * 16), 4, j, R2(n + 16 * Swap2(j)), k);
  }

  lemma R6At(n: nat, i: nat, j: nat, k: nat)
    requires i < 4 && j < 4 && k < 4
    ensures R6(n)[16 * i + 4 * j + k] == n + 4 * Swap2(i) + 16 * Swap2(j) + 64 * Swap2(k)
  {
    var block := n + 4 * Swap2(i);
    R4At(block, j, k);
    R6Block(n, i, block, 4 * j + k);
  }

  lemma R6Block(n: nat, i: nat, block: nat, k: nat)
    requires i < 4 && k < 16 && block == n + 4 * Swap2(i)
    ensures R6(n)[16 * i + k] == R4(block)[k]
  {
    FourBlocks(R4(n), R4(n + 2 * 4), R4(n + 1 * 4), R4(n + 3 * 4), 16, i, R4(block), k);
  }

  lemma R8At(n: nat, h: nat, i: nat, j: nat, k: nat)
    requires h < 4 && i < 4 && j < 4 && k < 4
    ensures R8(n)[64 * h + 16 * i + 4 * j + k] == n + Swap2(h) + 4 * Swap2(i) + 16 * Swap2(j) + 64 * Swap2(k)
  {
    R6At(n + Swap2(h), i, j, k);
    R8Block(n, h, n + Swap2(h), 16 * i + 4 * j + k);
  }

  lemma R8Block(n: nat, h: nat, block: nat, k: nat)
    requires h < 4 && k < 64 && block == n + Swap2(h)
    ensures R8(n)[64 * h + k] == R6(block)[k]
  {
    FourBlocks(R6(n), R6(n + 2), R6(n + 1), R6(n + 3), 64, h, R6(block), k);
  }

  // ---------- what the table means ----------

  lemma Quarters(x: uint8)
    ensures var h, i, j, k := x / 64, x / 16 % 4, x / 4 % 4, x % 4;
            h < 4 && x == 64 * h + 16 * i + 4 * j + k
  {}

  lemma TableValue(x: uint8, a: nat, b: nat, c: nat, d: nat)
    requires a < 4 && b < 4 && c < 4 && d < 4 && x == 64 * a + 16 * b + 4 * c + d
    ensures R8(0)[x] == 64 * Swap2(d) + 16 * Swap2(c) + 4 * Swap2(b) + Swap2(a) < 256
  {
    R8At(0, a, b, c, d);
  }

  lemma TableRange(x: uint8)
    ensures R8(0)[x] < 256
  {
    Quarters(x);
    TableValue(x, x / 64, x / 16 % 4, x / 4 % 4, x % 4);
  }

  /** bit_reverse: the table is R8(0). */
  function BitReverse(x: uint8): uint8 {
    TableRange(x);
    R8(0)[x]
  }

  /** Bit i of x, from the least significant. */
  predicate Bit(x: nat, i: nat) {
    i < 8 && x / Pow2(i) % 2 == 1
  }

  /** The table exchanges bit i with bit 7 - i. */
  lemma TableReverses(x: uint8, i: nat)
    requires i < 8
    ensures Bit(BitReverse(x), i) == Bit(x, 7 - i)
  {
    var a, b, c, d := x / 64, x / 16 % 4, x / 4 % 4, x % 4;
    Quarters(x);
    TableValue(x, a, b, c, d);
    Mirrored(x, BitReverse(x), a, b, c, d, i);
  }

  lemma Mirrored(x: nat, y: nat, a: nat, b: nat, c: nat, d: nat, i: nat)
    requires a < 4 && b < 4 && c < 4 && d < 4 && i < 8 && x == 64 * a + 16 * b + 4 * c + d
    requires y == 64 * Swap2(d) + 16 * Swap2(c) + 4 * Swap2(b) + Swap2(a)
    ensures y < 256 && Bit(y, i) == Bit(x, 7 - i)
  {
    FromQuarters(y, Swap2(d), Swap2(c), Swap2(b), Swap2(a), i);
    FromQuarters(x, a, b, c, d, 7 - i);
    SwapQuarter(a);
    SwapQuarter(b);
    SwapQuarter(c);
    SwapQuarter(d);
  }

  lemma SwapQuarter(k: nat)
    requires k < 4
    ensures (Swap2(k) % 2 == 1) == (k / 2 == 1) && (Swap2(k) / 2 == 1) == (k % 2 == 1)
  {}

  /** The bits of a number given in base four. */
  predicate QuarterBit(a: nat, b: nat, c: nat, d: nat, i: nat) {
    match i
    case 0 => d % 2 == 1
    case 1 => d / 2 == 1
    case 2 => c % 2 == 1
    case 3 => c / 2 == 1
    case 4 => b % 2 == 1
    case 5 => b / 2 == 1
    case 6 => a % 2 == 1
    case _ => a / 2 == 1
  }

  lemma FromQuarters(x: nat, a: nat, b: nat, c: nat, d: nat, i: nat)
    requires a < 4 && b < 4 && c < 4 && d < 4 && i < 8 && x == 64 * a + 16 * b + 4 * c + d
    ensures Bit(x, i) == QuarterBit(a, b, c, d, i)
  {
    Powers();
    if i < 4 { LowQuarters(x, a, b, c, d, i); } else { HighQuarters(x, a, b, c, d, i); }
  }

  lemma LowQuarters(x: nat, a: nat, b: nat, c: nat, d: nat, i: nat)
    requires a < 4 && b < 4 && c < 4 && d < 4 && i < 4 && x == 64 * a + 16 * b + 4 * c + d
    ensures Bit(x, i) == QuarterBit(a, b, c, d, i)
  {
    Powers();
    if i == 0 {
    } else if i == 1 {
      assert x / 2 == 32 * a + 8 * b + 2 * c + d / 2;
    } else if i == 2 {
      assert x / 4 == 16 * a + 4 * b + c;
    } else {
      assert x / 8 == 8 * a + 2 * b + c / 2;
    }
  }

  lemma HighQuarters(x: nat, a: nat, b: nat, c: nat, d: nat, i: nat)
    requires a < 4 && b < 4 && c < 4 && d < 4 && 4 <= i < 8 && x == 64 * a + 16 * b + 4 * c + d
    ensures Bit(x, i) == QuarterBit(a, b, c, d, i)
  {
    Powers();
    if i == 4 {
      assert x / 16 == 4 * a + b;
    } else if i == 5 {
      assert x / 32 == 2 * a + b / 2;
    } else if i == 6 {
      assert x / 64 == a;
    } else {
      assert x / 128 == a / 2;
    }
  }

  lemma Powers()
    ensures Pow2(0) == 1 && Pow2(1) == 2 && Pow2(2) == 4 && Pow2(3) == 8
    ensures Pow2(4) == 16 && Pow2(5) == 32 && Pow2(6) == 64 && Pow2(7) == 128
  {}

  /** Reversing twice gives the byte back. */
  lemma Involution(x: uint8)
    ensures BitReverse(BitReverse(x)) == x
  {
    var a, b, c, d := x / 64, x / 16 % 4, x / 4 % 4, x % 4;
    Quarters(x);
    TableValue(x, a, b, c, d);
    TableValue(BitReverse(x), Swap2(d), Swap2(c), Swap2(b), Swap2(a));
    SwapTwice(a);
    SwapTwice(b);
    SwapTwice(c);
    SwapTwice(d);
  }

  lemma SwapTwice(k: nat)
    requires k < 4
    ensures Swap2(Swap2(k)) == k
  {}

  /** Every byte of a buffer reversed. */
  function Reversed(s: seq<uint8>): seq<uint8> {
    Map(BitReverse, s)
  }

  lemma ReversedTwice(s: seq<uint8>)
    ensures Reversed(Reversed(s)) == s
  {
    forall i | 0 <= i < |s| ensures Reversed(Reversed(s))[i] == s[i] {
      Involution(s[i]);
    }
  }

  /** bit_reverse_buffer. */
  method BitReverseBuffer(p: array<uint8>)
    modifies p
    ensures p[..] == Reversed(old(p[..]))
  {
    var i := 0;
    while i < p.Length
      invariant 0 <= i <= p.Length
      invariant forall k | 0 <= k < i :: p[k] == BitReverse(old(p[k]))
      invariant forall k | i <= k < p.Length :: p[k] == old(p[k])
    {
      p[i] := BitReverse(p[i]);
      i := i + 1;
    }
  }
}
