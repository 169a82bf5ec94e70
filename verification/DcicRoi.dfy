/** Painting regions of interest into the framebuffer and recording their reference signatures. */
module DcicRoi {
  import opened BitWords
  import opened DcicSignature
  import opened NatArithmetic
  import opened PixelFormats
  import opened Sequences

  datatype Screen = Screen(bitsPerPixel: nat, xresVirtual: nat) {
    function PixelBytes(): (n: nat)
      ensures n == 2 || n == 4
    {
      if bitsPerPixel == 16 then 2 else 4
    }

    function Stride(): nat {
      xresVirtual * PixelBytes()
    }
  }

  /** The rectangle of struct roi_params, corners included. */
  datatype Rect = Rect(startX: nat, startY: nat, endX: nat, endY: nat) {
    predicate Ordered() {
      startX <= endX && startY <= endY
    }

    /** Bytes of one line of the rectangle. */
    function LineLen(v: Screen): (n: nat)
      requires Ordered()
      ensures n > 0
    {
      (endX - startX + 1) * v.PixelBytes()
    }

    function Lines(): (n: nat)
      requires Ordered()
      ensures n > 0
    {
      endY - startY + 1
    }

    /** Inside the virtual screen, and inside a framebuffer of the given size. */
    predicate Inside(v: Screen, size: nat) {
      Ordered() && endX < v.xresVirtual && (endY + 1) * v.Stride() <= size
    }

    /** Position in the framebuffer of byte x of the rectangle's line y. */
    function At(v: Screen, y: nat, x: nat): nat {
      (startY + y) * v.Stride() + startX * v.PixelBytes() + x
    }
  }

  class RoiParams {
    const rect: Rect
    var refSig: Word

    constructor (rect: Rect)
      ensures this.rect == rect
    {
      this.rect := rect;
      refSig := ZERO_WORD;
    }
  }

  // ---------- signatures of byte buffers ----------

  function Join(low: seq<bool>, high: seq<bool>): seq<bool> {
    low + high
  }

  /** Little-endian unsigned shorts and ints in memory. */
  function Halves(bytes: seq<Byte>): (r: seq<Half>)
    ensures |r| == |bytes| / 2
  {
    seq(|bytes| / 2, i requires 0 <= i < |bytes| / 2 => Join(bytes[2 * i], bytes[2 * i + 1]))
  }

  function Words(bytes: seq<Byte>): (r: seq<Word>)
    ensures |r| == |bytes| / 4
  {
    seq(|bytes| / 4, i requires 0 <= i < |bytes| / 4 =>
        Join(Join(bytes[4 * i], bytes[4 * i + 1]), Join(bytes[4 * i + 2], bytes[4 * i + 3])))
  }

  /** The signature of a buffer, for the bus widths that have one. */
  datatype Expected = NoSignature | Expected(sig: Word)

  function BufferSignature(bytes: seq<Byte>, bitsPerPixel: nat, busWidth: nat): Expected {
    if bitsPerPixel == 16 then
      if busWidth == 24 then Expected(Signature(ZERO_WORD, Map(Pack24Of16, Halves(bytes))))
      else if busWidth == 18 then Expected(Signature(ZERO_WORD, Map(Pack18Of16, Halves(bytes))))
      else NoSignature
    else
      if busWidth == 24 then Expected(Signature(ZERO_WORD, Words(bytes)))
      else if busWidth == 18 then Expected(Signature(ZERO_WORD, Map(Pack18Of24, Words(bytes))))
      else NoSignature
  }

  // ---------- what the framebuffer shows ----------

  /** Line y of the rectangle, as read from the framebuffer. */
  function Line(fb: seq<Byte>, v: Screen, r: Rect, y: nat): (s: seq<Byte>)
    requires r.Inside(v, |fb|) && y < r.Lines()
    ensures |s| == r.LineLen(v)
  {
    LineInside(v, r, |fb|, y);
    fb[r.At(v, y, 0)..r.At(v, y, r.LineLen(v))]
  }

  lemma LineInside(v: Screen, r: Rect, size: nat, y: nat)
    requires r.Inside(v, size) && y < r.Lines()
    ensures r.At(v, y, 0) + r.LineLen(v) == r.At(v, y, r.LineLen(v)) <= size
    ensures r.startX * v.PixelBytes() + r.LineLen(v) <= v.Stride()
  {
    assert (r.endX + 1) * v.PixelBytes() <= v.Stride();
    assert (r.startY + y + 1) * v.Stride() <= (r.endY + 1) * v.Stride();
    assert (r.startY + y + 1) * v.Stride() == (r.startY + y) * v.Stride() + v.Stride();
  }

  /** The first n lines of the rectangle in raster order. */
  function Raster(fb: seq<Byte>, v: Screen, r: Rect, n: nat): (s: seq<Byte>)
    requires r.Inside(v, |fb|) && n <= r.Lines()
  {
    if n == 0 then [] else Raster(fb, v, r, n - 1) + Line(fb, v, r, n - 1)
  }

  /** The whole rectangle in raster order. */
  function ReadRoi(fb: seq<Byte>, v: Screen, r: Rect): (s: seq<Byte>)
    requires r.Inside(v, |fb|)
  {
    Raster(fb, v, r, r.Lines())
  }

  /** The byte at position p lies in the rectangle's first n lines. */
  ghost predicate Covers(r: Rect, v: Screen, n: nat, p: nat)
    requires r.Ordered()
  {
    exists y: nat, x: nat :: y < n && x < r.LineLen(v) && p == r.At(v, y, x)
  }

  /** Every byte of the rectangle shows the given value. */
  ghost predicate Shows(fb: seq<Byte>, v: Screen, r: Rect, n: nat, b: Byte)
    requires r.Ordered()
  {
    forall p: nat | p < |fb| && Covers(r, v, n, p) :: fb[p] == b
  }

  function Filled(b: Byte, n: nat): (s: seq<Byte>)
    ensures |s| == n && forall i | 0 <= i < n :: s[i] == b
  {
    seq(n, _ => b)
  }

  /** Where raster order has the bytes of line y. */
  lemma {:induction false} RasterAt(fb: seq<Byte>, v: Screen, r: Rect, n: nat, y: nat, x: nat)
    requires r.Inside(v, |fb|) && y < n <= r.Lines() && x < r.LineLen(v)
    ensures |Raster(fb, v, r, n)| == Offset(n, r.LineLen(v)) && r.At(v, y, x) < |fb|
    ensures Offset(y, r.LineLen(v)) + x < Offset(n, r.LineLen(v))
    ensures Raster(fb, v, r, n)[Offset(y, r.LineLen(v)) + x] == fb[r.At(v, y, x)]
  {
    var len := r.LineLen(v);
    RasterLength(fb, v, r, n - 1);
    LineInside(v, r, |fb|, y);
    assert r.At(v, y, x) == r.At(v, y, 0) + x;
    if y == n - 1 {
      assert Line(fb, v, r, y)[x] == fb[r.At(v, y, x)];
      InConcat(Raster(fb, v, r, n - 1), Line(fb, v, r, y), Offset(y, len), x);
    } else {
      RasterAt(fb, v, r, n - 1, y, x);
      InConcat(Raster(fb, v, r, n - 1), Line(fb, v, r, n - 1), Offset(y, len) + x, 0);
    }
  }

  lemma InConcat(a: seq<Byte>, b: seq<Byte>, i: nat, j: nat)
    ensures i < |a| ==> (a + b)[i] == a[i]
    ensures i == |a| && j < |b| ==> (a + b)[i + j] == b[j]
  {}

  lemma {:induction false} RasterLength(fb: seq<Byte>, v: Screen, r: Rect, n: nat)
    requires r.Inside(v, |fb|) && n <= r.Lines()
    ensures |Raster(fb, v, r, n)| == Offset(n, r.LineLen(v))
  {
    if n == 0 {
    } else {
      RasterLength(fb, v, r, n - 1);
    }
  }

  /** A byte of raster order, as line and place. */
  lemma {:induction false} RasterPlace(fb: seq<Byte>, v: Screen, r: Rect, n: nat, k: nat) returns (y: nat, x: nat)
    requires r.Inside(v, |fb|) && n <= r.Lines() && k < Offset(n, r.LineLen(v))
    ensures y < n && x < r.LineLen(v) && k == Offset(y, r.LineLen(v)) + x
  {
    if k >= Offset(n - 1, r.LineLen(v)) {
      y, x := n - 1, k - Offset(n - 1, r.LineLen(v));
    } else {
      y, x := RasterPlace(fb, v, r, n - 1, k);
    }
  }

  /** The rectangle shows one value everywhere if and only if it reads as a buffer filled with it. */
  lemma RasterShows(fb: seq<Byte>, v: Screen, r: Rect, b: Byte)
    requires r.Inside(v, |fb|)
    ensures Shows(fb, v, r, r.Lines(), b) <==> ReadRoi(fb, v, r) == Filled(b, Offset(r.Lines(), r.LineLen(v)))
  {
    RasterLength(fb, v, r, r.Lines());
    if Shows(fb, v, r, r.Lines(), b) {
      forall k | 0 <= k < |ReadRoi(fb, v, r)| ensures ReadRoi(fb, v, r)[k] == b {
        ShownRead(fb, v, r, b, k);
      }
    } else {
      var p: nat :| p < |fb| && Covers(r, v, r.Lines(), p) && fb[p] != b;
      NotShownRead(fb, v, r, b, p);
    }
  }

  lemma ShownRead(fb: seq<Byte>, v: Screen, r: Rect, b: Byte, k: nat)
    requires r.Inside(v, |fb|) && Shows(fb, v, r, r.Lines(), b) && k < |ReadRoi(fb, v, r)|
    ensures ReadRoi(fb, v, r)[k] == b
  {
    RasterLength(fb, v, r, r.Lines());
    var y, x := RasterPlace(fb, v, r, r.Lines(), k);
    RasterAt(fb, v, r, r.Lines(), y, x);
    assert Covers(r, v, r.Lines(), r.At(v, y, x));
  }

  lemma NotShownRead(fb: seq<Byte>, v: Screen, r: Rect, b: Byte, p: nat)
    requires r.Inside(v, |fb|) && p < |fb| && Covers(r, v, r.Lines(), p) && fb[p] != b
    ensures exists k | 0 <= k < |ReadRoi(fb, v, r)| :: ReadRoi(fb, v, r)[k] != b
  {
    var y: nat, x: nat :| y < r.Lines() && x < r.LineLen(v) && p == r.At(v, y, x);
    RasterAt(fb, v, r, r.Lines(), y, x);
    assert ReadRoi(fb, v, r)[Offset(y, r.LineLen(v)) + x] != b;
  }

  /** Computes the reference signature of the test buffer in software. */
  method RecordSignature(pbuf: seq<Byte>, v: Screen, roi: RoiParams, busWidth: nat)
    requires pbuf != [] && |pbuf| % v.PixelBytes() == 0
    modifies roi`refSig
    ensures match BufferSignature(pbuf, v.bitsPerPixel, busWidth)
            case Expected(sig) => roi.refSig == sig
            case NoSignature => roi.refSig == old(roi.refSig)
  {
    if v.bitsPerPixel == 16 {
      var data := Halves(pbuf);
      if busWidth == 24 {
        roi.refSig := Crc32Calc24Of16bit(ZERO_WORD, data, |pbuf| / 2);
        assert Map(Pack24Of16, data)[..|data|] == Map(Pack24Of16, data);
      }
      if busWidth == 18 {
        roi.refSig := Crc32Calc18Of16bit(ZERO_WORD, data, |pbuf| / 2);
        assert Map(Pack18Of16, data)[..|data|] == Map(Pack18Of16, data);
      }
    } else {
      var data := Words(pbuf);
      if busWidth == 24 {
        roi.refSig := Crc32Calc24bit(ZERO_WORD, data, |pbuf| / 4);
        assert data[..|data|] == data;
      }
      if busWidth == 18 {
        roi.refSig := Crc32Calc18Of24bit(ZERO_WORD, data, |pbuf| / 4);
        assert Map(Pack18Of24, data)[..|data|] == Map(Pack18Of24, data);
      }
    }
  }

  /** memcpy of one line. */
  method CopyLine(fb: array<Byte>, offset: nat, pbuf: seq<Byte>, from: nat, len: nat)
    requires offset + len <= fb.Length && from + len <= |pbuf|
    modifies fb
    ensures forall p | 0 <= p < fb.Length ::
              fb[p] == if offset <= p < offset + len then pbuf[from + (p - offset)] else old(fb[p])
  {
    forall k | 0 <= k < len {
      fb[offset + k] := pbuf[from + k];
    }
  }

  /** Line n more: a byte is covered by the first n + 1 lines or is on line n. */
  lemma CoversNext(r: Rect, v: Screen, n: nat, p: nat)
    requires r.Ordered()
    ensures Covers(r, v, n + 1, p) <==> Covers(r, v, n, p) || r.At(v, n, 0) <= p < r.At(v, n, 0) + r.LineLen(v)
  {
    if r.At(v, n, 0) <= p < r.At(v, n, 0) + r.LineLen(v) {
      assert p == r.At(v, n, p - r.At(v, n, 0));
    }
  }

  /** Writing line n changes no byte outside the first n + 1 lines. */
  lemma LineFramed(before: seq<Byte>, after: seq<Byte>, v: Screen, r: Rect, n: nat)
    requires r.Ordered() && |before| == |after|
    requires forall p: nat | p < |after| && !(r.At(v, n, 0) <= p < r.At(v, n, 0) + r.LineLen(v)) :: after[p] == before[p]
    ensures forall p: nat | p < |after| && !Covers(r, v, n + 1, p) :: after[p] == before[p] && !Covers(r, v, n, p)
  {
    forall p: nat | p < |after| && !Covers(r, v, n + 1, p) ensures after[p] == before[p] && !Covers(r, v, n, p) {
      CoversNext(r, v, n, p);
    }
  }

  /** Lines do not overlap: the stride is at least the width. */
  lemma LinesApart(v: Screen, r: Rect, size: nat, j: nat, i: nat)
    requires r.Inside(v, size) && j < i < r.Lines()
    ensures r.At(v, j, r.LineLen(v)) <= r.At(v, i, 0)
  {
    LineInside(v, r, size, j);
    assert (r.startY + j + 1) * v.Stride() <= (r.startY + i) * v.Stride();
    assert (r.startY + j + 1) * v.Stride() == (r.startY + j) * v.Stride() + v.Stride();
  }

  /** So writing line i leaves what the lines before it show. */
  lemma {:induction false} RasterKept(before: seq<Byte>, after: seq<Byte>, v: Screen, r: Rect, n: nat, i: nat)
    requires |before| == |after| && r.Inside(v, |before|) && n <= i < r.Lines()
    requires forall p: nat | p < |after| && !(r.At(v, i, 0) <= p < r.At(v, i, 0) + r.LineLen(v)) :: after[p] == before[p]
    ensures Raster(after, v, r, n) == Raster(before, v, r, n)
  {
    if n == 0 {
    } else {
      RasterKept(before, after, v, r, n - 1, i);
      LinesApart(v, r, |before|, n - 1, i);
      LineInside(v, r, |before|, n - 1);
      assert Line(after, v, r, n - 1) == Line(before, v, r, n - 1);
    }
  }

  /** Line i of the buffer has been copied. */
  lemma LineCopied(before: seq<Byte>, after: seq<Byte>, v: Screen, r: Rect, pbuf: seq<Byte>, i: nat, from: nat)
    requires |before| == |after| && r.Inside(v, |before|) && i < r.Lines()
    requires from == Offset(i, r.LineLen(v)) && from + r.LineLen(v) <= |pbuf|
    requires Raster(before, v, r, i) == pbuf[..from]
    requires forall p: nat | p < |after| ::
               after[p] == if r.At(v, i, 0) <= p < r.At(v, i, 0) + r.LineLen(v) then pbuf[from + (p - r.At(v, i, 0))]
                           else before[p]
    ensures Raster(after, v, r, i + 1) == pbuf[..from + r.LineLen(v)]
  {
    var len := r.LineLen(v);
    RasterKept(before, after, v, r, i, i);
    LineInside(v, r, |before|, i);
    assert Line(after, v, r, i) == pbuf[from..from + len];
    assert pbuf[..from + len] == pbuf[..from] + pbuf[from..from + len];
  }

  /** The recorded signature matches what the framebuffer shows in the region. */
  predicate Matches(fb: seq<Byte>, v: Screen, r: Rect, sig: Word, busWidth: nat)
    requires r.Inside(v, |fb|)
  {
    match BufferSignature(ReadRoi(fb, v, r), v.bitsPerPixel, busWidth)
    case Expected(expected) => sig == expected
    case NoSignature => true
  }

  /** Fills one ROI of the framebuffer with the test value and records the signature the display
      controller should report for it. */
  method RoiFbInit(fb: array<Byte>, v: Screen, roi: RoiParams, showData: Byte, busWidth: nat)
    requires roi.rect.Inside(v, fb.Length)
    modifies fb, roi`refSig
    ensures Shows(fb[..], v, roi.rect, roi.rect.Lines(), showData)
    ensures forall p: nat | p < fb.Length && !Covers(roi.rect, v, roi.rect.Lines(), p) :: fb[p] == old(fb[p])
    ensures Matches(fb[..], v, roi.rect, roi.refSig, busWidth)
    ensures BufferSignature(ReadRoi(fb[..], v, roi.rect), v.bitsPerPixel, busWidth).NoSignature?
            ==> roi.refSig == old(roi.refSig)
  {
    var r := roi.rect;
    var bufSize := r.Lines() * r.LineLen(v);
    BufferSize(r, v);
    var pbuf := Filled(showData, bufSize);
    OffsetIsProduct(r.Lines(), r.LineLen(v));
    RecordSignature(pbuf, v, roi, busWidth);
    CopyLines(fb, v, r, pbuf);
    RasterShows(fb[..], v, r, showData);
  }

  /** The copy loop: line after line of a buffer into the framebuffer. Afterwards the rectangle reads as the buffer,
      whatever that holds. */
  method CopyLines(fb: array<Byte>, v: Screen, r: Rect, pbuf: seq<Byte>)
    requires r.Inside(v, fb.Length) && |pbuf| == Offset(r.Lines(), r.LineLen(v))
    modifies fb
    ensures ReadRoi(fb[..], v, r) == pbuf
    ensures forall p: nat | p < fb.Length && !Covers(r, v, r.Lines(), p) :: fb[p] == old(fb[p])
  {
    var lineLen := r.LineLen(v);
    for i := 0 to r.Lines()
      invariant Offset(i, lineLen) <= |pbuf|
      invariant Raster(fb[..], v, r, i) == pbuf[..Offset(i, lineLen)]
      invariant forall p: nat | p < fb.Length && !Covers(r, v, i, p) :: fb[p] == old(fb[p])
    {
      ghost var before := fb[..];
      var from := i * lineLen;
      OffsetIsProduct(i, lineLen);
      OffsetMonotone(i + 1, r.Lines(), lineLen);
      LineInside(v, r, fb.Length, i);
      CopyLine(fb, r.At(v, i, 0), pbuf, from, lineLen);
      LineCopied(before, fb[..], v, r, pbuf, i, from);
      LineFramed(before, fb[..], v, r, i);
    }
    assert pbuf[..|pbuf|] == pbuf;
  }

  lemma BufferSize(r: Rect, v: Screen)
    requires r.Ordered()
    ensures r.Lines() * r.LineLen(v) > 0
    ensures (r.Lines() * r.LineLen(v)) % v.PixelBytes() == 0
  {
    var w := r.endX - r.startX + 1;
    assert r.Lines() * (w * v.PixelBytes()) == (r.Lines() * w) * v.PixelBytes();
    MultipleMod(r.Lines() * w, v.PixelBytes());
  }

  lemma MultipleMod(a: nat, b: nat)
    requires b == 2 || b == 4
    ensures (a * b) % b == 0
  {
    if b == 2 { assert (a * 2) % 2 == 0; } else { assert (a * 4) % 4 == 0; }
  }

  /** The three regions of the test program. The first is set from the command line. */
  const ROI1 := Rect(250, 250, 360, 360)
  const ROI2 := Rect(400, 400, 450, 450)

  /** A later fill with the same value leaves a region as it was, whether or not it overlaps. */
  lemma RoiKept(before: seq<Byte>, after: seq<Byte>, v: Screen, r: Rect, b: Byte)
    requires |before| == |after| && r.Inside(v, |before|)
    requires Shows(before, v, r, r.Lines(), b)
    requires forall p: nat | p < |after| :: after[p] == before[p] || after[p] == b
    ensures Shows(after, v, r, r.Lines(), b)
    ensures ReadRoi(after, v, r) == ReadRoi(before, v, r)
  {
    RasterShows(before, v, r, b);
    RasterShows(after, v, r, b);
  }

  /** Configures the three regions one after the other. At the end every recorded signature matches
      the framebuffer, even where the regions overlap, and nothing else has changed. */
  method RoiConfig(fb: array<Byte>, v: Screen, first: Rect, showData: Byte, busWidth: nat)
    returns (roi0: RoiParams, roi1: RoiParams, roi2: RoiParams)
    requires first.Inside(v, fb.Length) && ROI1.Inside(v, fb.Length) && ROI2.Inside(v, fb.Length)
    modifies fb
    ensures fresh(roi0) && fresh(roi1) && fresh(roi2)
    ensures roi0.rect == first && roi1.rect == ROI1 && roi2.rect == ROI2
    ensures Matches(fb[..], v, first, roi0.refSig, busWidth)
    ensures Matches(fb[..], v, ROI1, roi1.refSig, busWidth)
    ensures Matches(fb[..], v, ROI2, roi2.refSig, busWidth)
    ensures Shows(fb[..], v, first, first.Lines(), showData)
    ensures Shows(fb[..], v, ROI1, ROI1.Lines(), showData)
    ensures Shows(fb[..], v, ROI2, ROI2.Lines(), showData)
    ensures forall p: nat | p < fb.Length && !Covers(first, v, first.Lines(), p)
              && !Covers(ROI1, v, ROI1.Lines(), p) && !Covers(ROI2, v, ROI2.Lines(), p) :: fb[p] == old(fb[p])
  {
    roi0 := new RoiParams(first);
    RoiFbInit(fb, v, roi0, showData, busWidth);
    ghost var s0 := fb[..];

    roi1 := new RoiParams(ROI1);
    RoiFbInit(fb, v, roi1, showData, busWidth);
    ghost var s1 := fb[..];
    RoiKept(s0, s1, v, first, showData);

    roi2 := new RoiParams(ROI2);
    RoiFbInit(fb, v, roi2, showData, busWidth);
    RoiKept(s1, fb[..], v, first, showData);
    RoiKept(s1, fb[..], v, ROI1, showData);
  }
}
