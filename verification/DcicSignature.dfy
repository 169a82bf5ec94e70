/** The DCIC reference signatures: the four CRC drivers and what the signature guarantees. */
module DcicSignature {
  import opened BitWords
  import opened CrcNetwork
  import opened CrcPolynomial
  import opened CrcRefinement
  import opened Lfsr
  import opened PixelFormats
  import opened Sequences

  // ---------- what the drivers compute ----------

  /** One pixel on the bus: the low 24 bits, most significant first. */
  function PixelBits(x: Word): (bits: seq<bool>)
    ensures |bits| == 24
  {
    seq(24, i requires 0 <= i < 24 => x[23 - i])
  }

  lemma PixelBitsAreLowBits(x: Word, k: nat)
    requires k == 24
    ensures PixelBits(x) == LowBits(x, k)
  {}

  /** The pixels on the bus, 24 bits each, most significant first. */
  function Message(pixels: seq<Word>): (bits: seq<bool>)
    ensures |bits| == 24 * |pixels|
  {
    if pixels == [] then [] else PixelBits(pixels[0]) + Message(pixels[1..])
  }

  /** The bit-serial register after all the pixels. */
  function Signature(init: Word, pixels: seq<Word>): Word {
    Run(init, Message(pixels))
  }

  lemma {:induction false} MessageConcat(p: seq<Word>, q: seq<Word>)
    ensures Message(p + q) == Message(p) + Message(q)
    decreases |p|
  {
    if p == [] {
      assert p + q == q;
    } else {
      MessageConcat(p[1..], q);
      assert (p + q)[1..] == p[1..] + q;
    }
  }

  lemma MessageOne(x: Word)
    ensures Message([x]) == PixelBits(x)
  {
    assert Message([x]) == PixelBits(x) + Message([x][1..]);
    assert Message([x][1..]) == [];
  }

  /** The signature of a buffer is that of its halves, one continuing from the other. */
  lemma SignatureConcat(init: Word, p: seq<Word>, q: seq<Word>)
    ensures Signature(init, p + q) == Signature(Signature(init, p), q)
  {
    MessageConcat(p, q);
    RunConcat(init, Message(p), Message(q));
  }

  /** One more pixel is one more pass through the unrolled network. */
  lemma SignatureNext(init: Word, pixels: seq<Word>, i: nat)
    requires i < |pixels|
    ensures Signature(init, pixels[..i + 1]) == Crc32CalcSingle24bit(Signature(init, pixels[..i]), pixels[i])
  {
    SignatureConcat(init, pixels[..i], [pixels[i]]);
    assert pixels[..i + 1] == pixels[..i] + [pixels[i]];
    MessageOne(pixels[i]);
    PixelBitsAreLowBits(pixels[i], 24);
    NetworkIsLfsr(Signature(init, pixels[..i]), pixels[i]);
  }

  lemma SignatureFirst(init: Word, pixels: seq<Word>)
    requires pixels != []
    ensures Signature(init, pixels[..1]) == Crc32CalcSingle24bit(init, pixels[0])
  {
    SignatureNext(init, pixels, 0);
    assert pixels[..0] == [];
  }

  /** How many words a driver reads: the first one always, whatever the count. */
  function WordsRead(count: nat): nat {
    if count > 1 then count else 1
  }

  method Crc32Calc24bit(crcInit: Word, dataIn: seq<Word>, wordsCount: nat) returns (crcOut: Word)
    requires WordsRead(wordsCount) <= |dataIn|
    ensures crcOut == Signature(crcInit, dataIn[..WordsRead(wordsCount)])
  {
    SignatureFirst(crcInit, dataIn);
    crcOut := Crc32CalcSingle24bit(crcInit, dataIn[0]);
    if wordsCount > 1 {
      for i := 1 to wordsCount
        invariant crcOut == Signature(crcInit, dataIn[..i])
      {
        SignatureNext(crcInit, dataIn, i);
        crcOut := Crc32CalcSingle24bit(crcOut, dataIn[i]);
      }
    }
  }

  method Crc32Calc18Of24bit(crcInit: Word, dataIn: seq<Word>, wordsCount: nat) returns (crcOut: Word)
    requires WordsRead(wordsCount) <= |dataIn|
    ensures crcOut == Signature(crcInit, Map(Pack18Of24, dataIn)[..WordsRead(wordsCount)])
  {
    ghost var pixels := Map(Pack18Of24, dataIn);
    var data18b := Pack18Of24(dataIn[0]);
    SignatureFirst(crcInit, pixels);
    crcOut := Crc32CalcSingle24bit(crcInit, data18b);
    if wordsCount > 1 {
      for i := 1 to wordsCount
        invariant crcOut == Signature(crcInit, pixels[..i])
      {
        data18b := Pack18Of24(dataIn[i]);
        SignatureNext(crcInit, pixels, i);
        crcOut := Crc32CalcSingle24bit(crcOut, data18b);
      }
    }
  }

  method Crc32Calc24Of16bit(crcInit: Word, dataIn: seq<Half>, wordsCount: nat) returns (crcOut: Word)
    requires WordsRead(wordsCount) <= |dataIn|
    ensures crcOut == Signature(crcInit, Map(Pack24Of16, dataIn)[..WordsRead(wordsCount)])
  {
    ghost var pixels := Map(Pack24Of16, dataIn);
    var data16b := Pack24Of16(dataIn[0]);
    SignatureFirst(crcInit, pixels);
    crcOut := Crc32CalcSingle24bit(crcInit, data16b);
    if wordsCount > 1 {
      for i := 1 to wordsCount
        invariant crcOut == Signature(crcInit, pixels[..i])
      {
        data16b := Pack24Of16(dataIn[i]);
        SignatureNext(crcInit, pixels, i);
        crcOut := Crc32CalcSingle24bit(crcOut, data16b);
      }
    }
  }

  method Crc32Calc18Of16bit(crcInit: Word, dataIn: seq<Half>, wordsCount: nat) returns (crcOut: Word)
    requires WordsRead(wordsCount) <= |dataIn|
    ensures crcOut == Signature(crcInit, Map(Pack18Of16, dataIn)[..WordsRead(wordsCount)])
  {
    ghost var pixels := Map(Pack18Of16, dataIn);
    var data16b := Pack18Of16(dataIn[0]);
    SignatureFirst(crcInit, pixels);
    crcOut := Crc32CalcSingle24bit(crcInit, data16b);
    if wordsCount > 1 {
      for i := 1 to wordsCount
        invariant crcOut == Signature(crcInit, pixels[..i])
      {
        data16b := Pack18Of16(dataIn[i]);
        SignatureNext(crcInit, pixels, i);
        crcOut := Crc32CalcSingle24bit(crcOut, data16b);
      }
    }
  }

  // ---------- properties of the signature ----------

  /** The signature is the remainder of init * x^(24n) + M * x^32 by the generator. */
  lemma SignatureIsRemainder(init: Word, pixels: seq<Word>, r: Poly)
    ensures IsRemainder(Dividend(init, Message(pixels)), r) <==> r == PolyOfWord(Signature(init, pixels))
  {
    RunIsRemainder(init, Message(pixels), r);
  }

  /** The 18-bit signature of a 16-bit buffer is that of the buffer first widened to 24 bits. */
  lemma PixelPathsCommute(init: Word, data: seq<Half>)
    ensures Signature(init, Map(Pack18Of16, data)) == Signature(init, Map(Pack18Of24, Map(Pack24Of16, data)))
  {
    forall i | 0 <= i < |data|
      ensures Map(Pack18Of16, data)[i] == Map(Pack18Of24, Map(Pack24Of16, data))[i]
    {
      PacksCommute(data[i]);
    }
    assert Map(Pack18Of16, data) == Map(Pack18Of24, Map(Pack24Of16, data));
  }

  /** Two buffers that agree in every pixel but one, and whose signatures agree, agree in that
      pixel's 24 bits too: the signature detects every single-pixel change. */
  lemma SinglePixelDetected(init: Word, p: seq<Word>, x: Word, y: Word, q: seq<Word>)
    requires Signature(init, p + [x] + q) == Signature(init, p + [y] + q)
    ensures x[..24] == y[..24]
  {
    OnePixelMessage(p, x, q);
    OnePixelMessage(p, y, q);
    var s, t := PixelBits(x), PixelBits(y);
    BurstDetected(init, Message(p), s, t, Message(q));
    forall k | 0 <= k < 24 ensures x[k] == y[k] {
      assert s[23 - k] == t[23 - k];
    }
  }

  lemma OnePixelMessage(p: seq<Word>, x: Word, q: seq<Word>)
    ensures Message(p + [x] + q) == Message(p) + PixelBits(x) + Message(q)
  {
    MessageConcat(p + [x], q);
    MessageConcat(p, [x]);
    MessageOne(x);
  }

  /** For a fixed buffer the signature is a bijection of the initial register. */
  lemma SignatureBijective(pixels: seq<Word>, r: Word)
    ensures Signature(Unrun(r, Message(pixels)), pixels) == r
    ensures forall init | Signature(init, pixels) == r :: init == Unrun(r, Message(pixels))
  {
    RunUnrun(r, Message(pixels));
    forall init | Signature(init, pixels) == r ensures init == Unrun(r, Message(pixels)) {
      RunInjective(init, Unrun(r, Message(pixels)), Message(pixels));
    }
  }

  function XorPixels(p: seq<Word>, q: seq<Word>): (r: seq<Word>)
    requires |p| == |q|
    ensures |r| == |p|
  {
    if p == [] then [] else [Xor(p[0], q[0])] + XorPixels(p[1..], q[1..])
  }

  lemma {:induction false} MessageLinear(p: seq<Word>, q: seq<Word>)
    requires |p| == |q|
    ensures Message(XorPixels(p, q)) == XorSeq(Message(p), Message(q))
    decreases |p|
  {
    if p == [] {
    } else {
      MessageLinear(p[1..], q[1..]);
      var x := XorPixels(p, q);
      assert x[1..] == XorPixels(p[1..], q[1..]);
      assert PixelBits(x[0]) == XorSeq(PixelBits(p[0]), PixelBits(q[0]));
      XorSeqConcat(PixelBits(p[0]), Message(p[1..]), PixelBits(q[0]), Message(q[1..]));
    }
  }

  lemma XorSeqConcat(a: seq<bool>, b: seq<bool>, c: seq<bool>, d: seq<bool>)
    requires |a| == |c| && |b| == |d|
    ensures XorSeq(a + b, c + d) == XorSeq(a, c) + XorSeq(b, d)
  {}

  /** The signature is linear over exclusive-or in the initial register and the pixels together. */
  lemma SignatureLinear(init: Word, init': Word, p: seq<Word>, q: seq<Word>)
    requires |p| == |q|
    ensures Signature(Xor(init, init'), XorPixels(p, q)) == Xor(Signature(init, p), Signature(init', q))
  {
    MessageLinear(p, q);
    RunLinear(init, init', Message(p), Message(q));
  }
}
