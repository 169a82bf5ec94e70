/** crc32_calc_single_24bit: the hand-unrolled network that advances the CRC register by 24 bits.
    Output bit i is the exclusive-or of some bits of the data word (D in the source) and some bits
    of the incoming register (C). The two tables list them in the source's order; no line of the
    source lists a bit twice. */
module CrcNetwork {
  import opened BitWords

  /** GET_BIT(D, k) takes part in output bit i. */
  predicate DataTap(i: nat, k: nat)
    requires i < 32
  {
    match i
    case 0 => k in {16, 12, 10, 9, 6, 0}
    case 1 => k in {17, 16, 13, 12, 11, 9, 7, 6, 1, 0}
    case 2 => k in {18, 17, 16, 14, 13, 9, 8, 7, 6, 2, 1, 0}
    case 3 => k in {19, 18, 17, 15, 14, 10, 9, 8, 7, 3, 2, 1}
    case 4 => k in {20, 19, 18, 15, 12, 11, 8, 6, 4, 3, 2, 0}
    case 5 => k in {21, 20, 19, 13, 10, 7, 6, 5, 4, 3, 1, 0}
    case 6 => k in {22, 21, 20, 14, 11, 8, 7, 6, 5, 4, 2, 1}
    case 7 => k in {23, 22, 21, 16, 15, 10, 8, 7, 5, 3, 2, 0}
    case 8 => k in {23, 22, 17, 12, 11, 10, 8, 4, 3, 1, 0}
    case 9 => k in {23, 18, 13, 12, 11, 9, 5, 4, 2, 1}
    case 10 => k in {19, 16, 14, 13, 9, 5, 3, 2, 0}
    case 11 => k in {20, 17, 16, 15, 14, 12, 9, 4, 3, 1, 0}
    case 12 => k in {21, 18, 17, 15, 13, 12, 9, 6, 5, 4, 2, 1, 0}
    case 13 => k in {22, 19, 18, 16, 14, 13, 10, 7, 6, 5, 3, 2, 1}
    case 14 => k in {23, 20, 19, 17, 15, 14, 11, 8, 7, 6, 4, 3, 2}
    case 15 => k in {21, 20, 18, 16, 15, 12, 9, 8, 7, 5, 4, 3}
    case 16 => k in {22, 21, 19, 17, 13, 12, 8, 5, 4, 0}
    case 17 => k in {23, 22, 20, 18, 14, 13, 9, 6, 5, 1}
    case 18 => k in {23, 21, 19, 15, 14, 10, 7, 6, 2}
    case 19 => k in {22, 20, 16, 15, 11, 8, 7, 3}
    case 20 => k in {23, 21, 17, 16, 12, 9, 8, 4}
    case 21 => k in {22, 18, 17, 13, 10, 9, 5}
    case 22 => k in {23, 19, 18, 16, 14, 12, 11, 9, 0}
    case 23 => k in {20, 19, 17, 16, 15, 13, 9, 6, 1, 0}
    case 24 => k in {21, 20, 18, 17, 16, 14, 10, 7, 2, 1}
    case 25 => k in {22, 21, 19, 18, 17, 15, 11, 8, 3, 2}
    case 26 => k in {23, 22, 20, 19, 18, 10, 6, 4, 3, 0}
    case 27 => k in {23, 21, 20, 19, 11, 7, 5, 4, 1}
    case 28 => k in {22, 21, 20, 12, 8, 6, 5, 2}
    case 29 => k in {23, 22, 21, 13, 9, 7, 6, 3}
    case 30 => k in {23, 22, 14, 10, 8, 7, 4}
    case _ => k in {23, 15, 11, 9, 8, 5}
  }

  /** GET_BIT(C, k) takes part in output bit i. */
  predicate RegisterTap(i: nat, k: nat)
    requires i < 32
  {
    match i
    case 0 => k in {8, 14, 17, 18, 20, 24}
    case 1 => k in {8, 9, 14, 15, 17, 19, 20, 21, 24, 25}
    case 2 => k in {8, 9, 10, 14, 15, 16, 17, 21, 22, 24, 25, 26}
    case 3 => k in {9, 10, 11, 15, 16, 17, 18, 22, 23, 25, 26, 27}
    case 4 => k in {8, 10, 11, 12, 14, 16, 19, 20, 23, 26, 27, 28}
    case 5 => k in {8, 9, 11, 12, 13, 14, 15, 18, 21, 27, 28, 29}
    case 6 => k in {9, 10, 12, 13, 14, 15, 16, 19, 22, 28, 29, 30}
    case 7 => k in {8, 10, 11, 13, 15, 16, 18, 23, 24, 29, 30, 31}
    case 8 => k in {8, 9, 11, 12, 16, 18, 19, 20, 25, 30, 31}
    case 9 => k in {9, 10, 12, 13, 17, 19, 20, 21, 26, 31}
    case 10 => k in {8, 10, 11, 13, 17, 21, 22, 24, 27}
    case 11 => k in {8, 9, 11, 12, 17, 20, 22, 23, 24, 25, 28}
    case 12 => k in {8, 9, 10, 12, 13, 14, 17, 20, 21, 23, 25, 26, 29}
    case 13 => k in {9, 10, 11, 13, 14, 15, 18, 21, 22, 24, 26, 27, 30}
    case 14 => k in {10, 11, 12, 14, 15, 16, 19, 22, 23, 25, 27, 28, 31}
    case 15 => k in {11, 12, 13, 15, 16, 17, 20, 23, 24, 26, 28, 29}
    case 16 => k in {8, 12, 13, 16, 20, 21, 25, 27, 29, 30}
    case 17 => k in {9, 13, 14, 17, 21, 22, 26, 28, 30, 31}
    case 18 => k in {10, 14, 15, 18, 22, 23, 27, 29, 31}
    case 19 => k in {11, 15, 16, 19, 23, 24, 28, 30}
    case 20 => k in {12, 16, 17, 20, 24, 25, 29, 31}
    case 21 => k in {13, 17, 18, 21, 25, 26, 30}
    case 22 => k in {8, 17, 19, 20, 22, 24, 26, 27, 31}
    case 23 => k in {8, 9, 14, 17, 21, 23, 24, 25, 27, 28}
    case 24 => k in {0, 9, 10, 15, 18, 22, 24, 25, 26, 28, 29}
    case 25 => k in {1, 10, 11, 16, 19, 23, 25, 26, 27, 29, 30}
    case 26 => k in {2, 8, 11, 12, 14, 18, 26, 27, 28, 30, 31}
    case 27 => k in {3, 9, 12, 13, 15, 19, 27, 28, 29, 31}
    case 28 => k in {4, 10, 13, 14, 16, 20, 28, 29, 30}
    case 29 => k in {5, 11, 14, 15, 17, 21, 29, 30, 31}
    case 30 => k in {6, 12, 15, 16, 18, 22, 30, 31}
    case _ => k in {7, 13, 16, 17, 19, 23, 31}
  }

  function DataTaps(i: nat): set<nat>
    requires i < 32
  {
    set k: nat | k < 32 && DataTap(i, k)
  }

  function RegisterTaps(i: nat): set<nat>
    requires i < 32
  {
    set k: nat | k < 32 && RegisterTap(i, k)
  }

  /** Every output bit is set from its own taps. */
  function Crc32CalcSingle24bit(crcIn: Word, dataIn: Word): Word {
    seq(32, i requires 0 <= i < 32 =>
        Select(DataTaps(i), dataIn, 32) != Select(RegisterTaps(i), crcIn, 32))
  }
}
