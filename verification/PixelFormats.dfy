/** Repacking framebuffer pixels for the display bus, as in the DCIC CRC drivers. */
module PixelFormats {
  import opened BitWords

  /** An unsigned short as an unsigned int. */
  function Extend(p: Half): Word {
    p + seq(16, _ => false)
  }

  // The source's masks keep a run of bits; its shifts move them; its ors put the runs together.

  /** x & mask, for the mask of the bits from lo up to but not including hi. */
  function Keep(x: Word, lo: nat, hi: nat): Word {
    seq(32, i requires 0 <= i < 32 => lo <= i < hi && x[i])
  }

  /** 24-bit pixel to the 18-bit bus: masks 0xFC0000, 0xFC00 and 0xFC. */
  function Pack18Of24(x: Word): Word {
    Or(Or(Right(Keep(x, 18, 24), 6), Right(Keep(x, 10, 16), 4)), Right(Keep(x, 2, 8), 2))
  }

  /** RGB565 to the 24-bit bus: masks 0xF800, 0xE000, 0x7E0, 0x600, 0x1F and 0x1C. */
  function Pack24Of16(p: Half): Word {
    var x := Extend(p);
    var red := Or(Left(Keep(x, 11, 16), 8), Left(Keep(x, 13, 16), 3));
    var green := Or(Left(Keep(x, 5, 11), 5), Right(Keep(x, 9, 11), 1));
    var blue := Or(Left(Keep(x, 0, 5), 3), Right(Keep(x, 2, 5), 2));
    Or(Or(red, green), blue)
  }

  /** RGB565 to the 18-bit bus: masks 0xF800, 0x8000, 0x7E0, 0x1F and 0x10. */
  function Pack18Of16(p: Half): Word {
    var x := Extend(p);
    var red := Or(Left(Keep(x, 11, 16), 2), Right(Keep(x, 15, 16), 3));
    var green := Left(Keep(x, 5, 11), 1);
    var blue := Or(Left(Keep(x, 0, 5), 1), Right(Keep(x, 4, 5), 4));
    Or(Or(red, green), blue)
  }

  /** Going straight to 18 bits is widening to 24 and then truncating. */
  lemma PacksCommute(p: Half)
    ensures Pack18Of16(p) == Pack18Of24(Pack24Of16(p))
  {
    forall i | 0 <= i < 32 ensures Pack18Of16(p)[i] == Pack18Of24(Pack24Of16(p))[i] {
      Narrow18At(p, i);
      Pack18At(Pack24Of16(p), i);
      if 0 <= i < 6 { Wide24At(p, i + 2); }
      if 6 <= i < 12 { Wide24At(p, i + 4); }
      if 12 <= i < 18 { Wide24At(p, i + 6); }
    }
  }

  /** Which pixel bit each bus bit shows: six bits a colour, blue lowest. */
  lemma Pack18At(x: Word, i: nat)
    requires i < 32
    ensures Pack18Of24(x)[i] ==
            if i < 6 then x[i + 2] else if i < 12 then x[i + 4] else i < 18 && x[i + 6]
  {}

  lemma Narrow18At(p: Half, i: nat)
    requires i < 32
    ensures Pack18Of16(p)[i] ==
            if i == 0 then p[4] else if i < 12 then p[i - 1] else if i == 12 then p[15] else i < 18 && p[i - 2]
  {}

  lemma Wide24At(p: Half, i: nat)
    requires i < 32
    ensures Pack24Of16(p)[i] ==
            if i < 3 then p[i + 2] else if i < 8 then p[i - 3]
            else if i < 10 then p[i + 1] else if i < 16 then p[i - 5]
            else if i < 19 then p[i - 3] else i < 24 && p[i - 8]
  {}
}
