/** The conversion loop of the sample-rate converter test, against an arbitrary device, and the sizes
    that it patches into the WAV header. */
module AsrcPlay {
  import opened MachineInts
  import opened NatArithmetic

  /** One ASRC_CONVERT call: an error, or some output of any length. */
  datatype Conversion = Failed | Converted(output: seq<uint8>)

  /** The input handed to one call: a piece of the file, or the block of zeros. */
  datatype Offer = Chunk(offset: nat) | Zeros

  /** How the loop ended, or that the device script ran out while it was still going. */
  datatype Outcome = Finished | DeviceError | Running

  /** What the first n conversions deliver. */
  function Produced(script: seq<Conversion>, n: nat): seq<uint8>
    requires n <= |script| && forall i | 0 <= i < n :: script[i].Converted?
  {
    if n == 0 then [] else Produced(script, n - 1) + script[n - 1].output
  }

  lemma {:induction false} ProducedGrows(script: seq<Conversion>, n: nat)
    requires n <= |script| && forall i | 0 <= i < n :: script[i].Converted?
    ensures forall i | 0 <= i <= n :: |Produced(script, i)| <= |Produced(script, n)|
  {
    if n == 0 {
    } else {
      ProducedGrows(script, n - 1);
    }
  }

  /** Input is offered in consecutive blocks of the buffer's size, and zeros once it has run out. */
  function OfferAt(length: nat, dma: nat, i: nat): Offer {
    if Offset(i, dma) < length then Chunk(Offset(i, dma)) else Zeros
  }

  /** Block i is offered from i * dma, only chunks come before a chunk, and a chunk never reaches past
      the allocation, which is one block longer than the input. */
  lemma {:induction false} OffersInOrder(length: nat, dma: nat, i: nat)
    ensures Offset(i, dma) == i * dma
    ensures OfferAt(length, dma, i).Chunk? ==>
              i * dma + dma < length + dma && forall j | 0 <= j < i :: OfferAt(length, dma, j).Chunk?
  {
    if i == 0 {
    } else {
      OffersInOrder(length, dma, i - 1);
      assert i * dma == (i - 1) * dma + dma;
    }
  }

  class AudioInfo {
    var inputDataLen: nat
    var outputDataLen: nat
    var outputUsed: nat

    constructor (input: nat, predicted: nat)
      ensures inputDataLen == input && outputDataLen == predicted
    {
      inputDataLen, outputDataLen, outputUsed := input, predicted, 0;
    }
  }

  /** The input side of one turn: a block of what is left, or zeros. */
  method NextOffer(info: AudioInfo, dma: nat, inputP: nat) returns (offer: Offer, next: nat)
    modifies info`inputDataLen
    ensures offer == if old(info.inputDataLen) > 0 then Chunk(inputP) else Zeros
    ensures next == inputP + Min(dma, old(info.inputDataLen))
    ensures info.inputDataLen == old(info.inputDataLen) - Min(dma, old(info.inputDataLen))
  {
    var bufferLength := if info.inputDataLen > dma then dma else info.inputDataLen;
    next := inputP;
    if info.inputDataLen > 0 {
      offer := Chunk(inputP);
      next := inputP + bufferLength;
      info.inputDataLen := info.inputDataLen - bufferLength;
    } else {
      offer := Zeros;
    }
  }

  /** The output side: what is written of one conversion, no more than is still wanted. */
  method KeepOutput(info: AudioInfo, output: seq<uint8>) returns (kept: seq<uint8>)
    modifies info`outputDataLen, info`outputUsed
    ensures kept == output[..Min(|output|, old(info.outputDataLen))]
    ensures info.outputDataLen == old(info.outputDataLen) - |kept| && info.outputUsed == old(info.outputUsed) + |kept|
  {
    if info.outputDataLen > |output| {
      info.outputDataLen := info.outputDataLen - |output|;
      info.outputUsed := info.outputUsed + |output|;
      kept := output;
    } else {
      info.outputUsed := info.outputUsed + info.outputDataLen;
      kept := output[..info.outputDataLen];
      info.outputDataLen := 0;
    }
  }

  lemma KeptPrefix(before: seq<uint8>, output: seq<uint8>, kept: seq<uint8>)
    requires kept <= output
    ensures before + kept == (before + output)[..|before| + |kept|]
    ensures kept == output ==> before + kept == before + output
  {}

  /** play_file, from the start of the loop to its end. `calls` counts the successful conversions. */
  method PlayFile(info: AudioInfo, dma: nat, script: seq<Conversion>)
    returns (outcome: Outcome, calls: nat, written: seq<uint8>, offers: seq<Offer>)
    modifies info
    ensures info.outputUsed + info.outputDataLen == old(info.outputDataLen)
    ensures calls <= |script| && forall i | 0 <= i < calls :: script[i].Converted?
    ensures info.outputUsed == Min(|Produced(script, calls)|, old(info.outputDataLen))
    ensures written == Produced(script, calls)[..info.outputUsed]
    ensures outcome.Finished? ==> calls > 0 && info.outputUsed == old(info.outputDataLen) == |written|
    ensures forall i | 0 < i <= calls && !(outcome.Finished? && i == calls) ::
              |Produced(script, i)| < old(info.outputDataLen)
    ensures outcome.DeviceError? ==> calls < |script| && script[calls].Failed?
    ensures outcome.Running? ==> calls == |script|
    ensures |offers| == if outcome.DeviceError? then calls + 1 else calls
    ensures forall i | 0 <= i < |offers| :: offers[i] == OfferAt(old(info.inputDataLen), dma, i)
  {
    ghost var length, predicted := info.inputDataLen, info.outputDataLen;
    var inputP := 0;
    calls, written, offers := 0, [], [];
    info.outputUsed := 0;
    while calls < |script|
      invariant calls <= |script| && |offers| == calls
      invariant forall i | 0 <= i < calls :: script[i].Converted?
      invariant forall i | 0 <= i < calls :: offers[i] == OfferAt(length, dma, i)
      invariant calls > 0 ==> |written| < predicted
      invariant info.outputUsed + info.outputDataLen == predicted
      invariant written == Produced(script, calls) && info.outputUsed == |written|
      invariant info.inputDataLen == if Offset(calls, dma) < length then length - Offset(calls, dma) else 0
      invariant info.inputDataLen > 0 ==> inputP == Offset(calls, dma)
    {
      var offer;
      offer, inputP := NextOffer(info, dma, inputP);
      offers := offers + [offer];
      if script[calls].Failed? {
        ProducedGrows(script, calls);
        outcome := DeviceError;
        return;
      }
      var output := script[calls].output;
      assert Produced(script, calls + 1) == Produced(script, calls) + output;
      var kept := KeepOutput(info, output);
      KeptPrefix(Produced(script, calls), output, kept);
      written := written + kept;
      calls := calls + 1;
      if info.outputDataLen == 0 {
        ProducedGrows(script, calls - 1);
        outcome := Finished;
        return;
      }
    }
    ProducedGrows(script, calls);
    outcome := Running;
  }

  // ---------- the header ----------

  /** The four bytes of a length at an index. */
  function PutInt(h: seq<uint8>, at: nat, v: nat): (r: seq<uint8>)
    requires at + 4 <= |h| && v < 0x1_0000_0000
    ensures |r| == |h| && GetInt(r, at) == v
    ensures forall i | 0 <= i < |h| && !(at <= i < at + 4) :: r[i] == h[i]
  {
    Bytes(v);
    h[at := v % 256][at + 1 := v / 256 % 256][at + 2 := v / 65536 % 256][at + 3 := v / 16777216]
  }

  function GetInt(h: seq<uint8>, at: nat): nat
    requires at + 4 <= |h|
  {
    var a: int, b: int, c: int, d: int := h[at], h[at + 1], h[at + 2], h[at + 3];
    a + 256 * b + 65536 * c + 16777216 * d
  }

  lemma Bytes(v: nat)
    requires v < 0x1_0000_0000
    ensures v % 256 + 256 * (v / 256 % 256) + 65536 * (v / 65536 % 256) + 16777216 * (v / 16777216) == v
    ensures v / 16777216 < 256
  {
    assert v / 65536 == v / 256 / 256;
    assert v / 16777216 == v / 65536 / 256;
  }

  const WAVE_HEAD_SIZE := 74

  /** The format chunk's size, which places the data chunk behind it. */
  function FormatSize(h: seq<uint8>): nat
    requires |h| == WAVE_HEAD_SIZE
  {
    GetInt(h, 16)
  }

  /** The two places that hold the length of the data: the data chunk's size, and the file's. */
  function WithDataLength(h: seq<uint8>, length: nat): (r: seq<uint8>)
    requires |h| == WAVE_HEAD_SIZE && FormatSize(h) <= 46 && length < 0x8000_0000
    ensures |r| == |h| && FormatSize(r) == FormatSize(h)
    ensures GetInt(r, 24 + FormatSize(h)) == length && GetInt(r, 4) == length + 20 + FormatSize(h)
    ensures forall i | 0 <= i < |h| && !(4 <= i < 8) && !(24 + FormatSize(h) <= i < 28 + FormatSize(h)) :: r[i] == h[i]
  {
    PutInt(PutInt(h, 24 + FormatSize(h), length), 4, length + 20 + FormatSize(h))
  }

  method PutIntAt(header: array<uint8>, at: nat, v: nat)
    requires at + 4 <= header.Length && v < 0x1_0000_0000
    modifies header
    ensures header[..] == PutInt(old(header[..]), at, v)
  {
    Bytes(v);
    header[at] := v % 256;
    header[at + 1] := v / 256 % 256;
    header[at + 2] := v / 65536 % 256;
    header[at + 3] := v / 16777216;
  }

  /** update_datachunk_length: the length predicted before conversion. */
  method UpdateDatachunkLength(header: array<uint8>, info: AudioInfo, formatSize: nat)
    requires header.Length == WAVE_HEAD_SIZE && formatSize == FormatSize(header[..]) <= 46
    requires info.outputDataLen < 0x8000_0000
    modifies header
    ensures header[..] == WithDataLength(old(header[..]), info.outputDataLen)
  {
    PutIntAt(header, 24 + formatSize, info.outputDataLen);
    PutIntAt(header, 4, info.outputDataLen + 20 + formatSize);
  }

  // ---------- the output format ----------

  /** The output format, as the sound library describes it. */
  datatype OutFormat = OutFormat(frameBits: nat, blockAlign: nat, float: bool, rate: nat, channels: nat,
                                 signedLinear: bool)
  {
    /** Both are held in sixteen bits. */
    predicate Valid() {
      frameBits < 0x1_0000 && blockAlign < 0x1_0000
    }

    function AudioFormat(): nat {
      if float then 3 else 1
    }

    /** In 32 bits. */
    function ByteRate(): nat {
      rate * (frameBits / 8) * channels % 0x1_0000_0000
    }
  }

  function PutShort(h: seq<uint8>, at: nat, v: nat): (r: seq<uint8>)
    requires at + 2 <= |h| && v < 0x1_0000
    ensures |r| == |h| && GetShort(r, at) == v
    ensures forall i | 0 <= i < |h| && !(at <= i < at + 2) :: r[i] == h[i]
  {
    h[at := v % 256][at + 1 := v / 256]
  }

  function GetShort(h: seq<uint8>, at: nat): nat
    requires at + 2 <= |h|
  {
    var a: int, b: int := h[at], h[at + 1];
    a + 256 * b
  }

  /** The fields of the format chunk that the output changes. */
  function WithFormat(h: seq<uint8>, f: OutFormat): (r: seq<uint8>)
    requires |h| == WAVE_HEAD_SIZE && f.Valid()
    ensures |r| == |h|
  {
    PutInt(PutShort(PutShort(PutShort(h, 32, f.blockAlign), 20, f.AudioFormat()), 34, f.frameBits), 28, f.ByteRate())
  }

  method PutShortAt(header: array<uint8>, at: nat, v: nat)
    requires at + 2 <= header.Length && v < 0x1_0000
    modifies header
    ensures header[..] == PutShort(old(header[..]), at, v)
  {
    header[at] := v % 256;
    header[at + 1] := v / 256;
  }

  /** update_blockalign and update_sample_bitdepth. */
  method UpdateFormat(header: array<uint8>, f: OutFormat)
    requires header.Length == WAVE_HEAD_SIZE && f.Valid()
    modifies header
    ensures header[..] == WithFormat(old(header[..]), f)
  {
    PutShortAt(header, 32, f.blockAlign);
    PutShortAt(header, 20, f.AudioFormat());
    PutShortAt(header, 34, f.frameBits);
    PutIntAt(header, 28, f.ByteRate());
  }

  /** What the header says of the output format. */
  predicate Describes(h: seq<uint8>, f: OutFormat)
    requires |h| == WAVE_HEAD_SIZE
  {
    && GetShort(h, 20) == f.AudioFormat() && GetInt(h, 28) == f.ByteRate()
    && GetShort(h, 32) == f.blockAlign && GetShort(h, 34) == f.frameBits
  }

  lemma FormatDescribes(h: seq<uint8>, f: OutFormat)
    requires |h| == WAVE_HEAD_SIZE && f.Valid()
    ensures Describes(WithFormat(h, f), f) && FormatSize(WithFormat(h, f)) == FormatSize(h)
    ensures forall i | 0 <= i < |h| && !(20 <= i < 22) && !(28 <= i < 36) :: WithFormat(h, f)[i] == h[i]
  {
    var a := PutShort(h, 32, f.blockAlign);
    var b := PutShort(a, 20, f.AudioFormat());
    var c := PutShort(b, 34, f.frameBits);
    SameShort(PutInt(c, 28, f.ByteRate()), a, 32);
    SameShort(PutInt(c, 28, f.ByteRate()), b, 20);
    SameShort(PutInt(c, 28, f.ByteRate()), c, 34);
    SameInt(PutInt(c, 28, f.ByteRate()), h, 16);
  }

  lemma SameShort(a: seq<uint8>, b: seq<uint8>, at: nat)
    requires at + 2 <= |a| && at + 2 <= |b| && forall i | at <= i < at + 2 :: a[i] == b[i]
    ensures GetShort(a, at) == GetShort(b, at)
  {}

  /** The header of a run that is completed: lengths before conversion, format, lengths after it. */
  function Completed(h: seq<uint8>, f: OutFormat, length: nat): (r: seq<uint8>)
    requires |h| == WAVE_HEAD_SIZE && FormatSize(h) <= 46 && f.Valid() && length < 0x8000_0000
    ensures |r| == |h|
  {
    var early := WithFormat(WithDataLength(h, length), f);
    FormatDescribes(WithDataLength(h, length), f);
    WithDataLength(early, length)
  }

  /** It holds the lengths whatever the size of the format chunk, and describes the output format if that chunk has
      room for it, which means at least 16 bytes; then the second length update changes nothing. */
  lemma CompletedMeans(h: seq<uint8>, f: OutFormat, length: nat)
    requires |h| == WAVE_HEAD_SIZE && FormatSize(h) <= 46 && f.Valid() && length < 0x8000_0000
    ensures var r := Completed(h, f, length);
            && FormatSize(r) == FormatSize(h)
            && GetInt(r, 24 + FormatSize(h)) == length && GetInt(r, 4) == length + 20 + FormatSize(h)
            && (FormatSize(h) >= 16 ==> Describes(r, f) && r == WithFormat(WithDataLength(h, length), f))
  {
    var first := WithDataLength(h, length);
    var early := WithFormat(first, f);
    FormatDescribes(first, f);
    if FormatSize(h) >= 16 {
      SameInt(early, first, 24 + FormatSize(h));
      SameInt(early, first, 4);
      PatchedTwice(early, length);
    }
  }

  // ---------- the file ----------

  /** Overwrites part of the file: fseek and fwrite. */
  function Overwrite(file: seq<uint8>, at: nat, part: seq<uint8>): (r: seq<uint8>)
    requires at + |part| <= |file|
    ensures |r| == |file|
    ensures forall i | 0 <= i < |file| :: r[i] == if at <= i < at + |part| then part[i - at] else file[i]
  {
    file[..at] + part + file[at + |part|..]
  }

  /** header_update: the length actually used, in the header and in the file that begins with it. */
  method HeaderUpdate(header: array<uint8>, info: AudioInfo, file: seq<uint8>) returns (dst: seq<uint8>)
    requires header.Length == WAVE_HEAD_SIZE && FormatSize(header[..]) <= 46 && info.outputUsed < 0x8000_0000
    requires FormatSize(header[..]) + 28 <= |file| && header[..FormatSize(header[..]) + 28] <= file
    modifies header
    ensures header[..] == WithDataLength(old(header[..]), info.outputUsed)
    ensures var n := FormatSize(old(header[..])) + 28; dst == header[..n] + file[n..]
  {
    var formatSize := FormatSize(header[..]);
    ghost var h := header[..];
    PutIntAt(header, 24 + formatSize, info.outputUsed);
    PutIntAt(header, 4, info.outputUsed + 20 + formatSize);
    assert header[..] == WithDataLength(h, info.outputUsed);
    dst := Overwrite(file, 4, header[4..8]);
    dst := Overwrite(dst, 24 + formatSize, header[24 + formatSize..28 + formatSize]);
    TwoPatches(file, h, header[..], formatSize + 28);
  }

  /** Two fields rewritten on disk, when nothing else in the header has changed. */
  lemma TwoPatches(file: seq<uint8>, before: seq<uint8>, after: seq<uint8>, n: nat)
    requires 12 <= n <= |file| && n <= |before| == |after| && before[..n] <= file
    requires forall i | 0 <= i < n && !(4 <= i < 8) && !(n - 4 <= i < n) :: after[i] == before[i]
    ensures Overwrite(Overwrite(file, 4, after[4..8]), n - 4, after[n - 4..n]) == after[..n] + file[n..]
  {
    var dst := Overwrite(Overwrite(file, 4, after[4..8]), n - 4, after[n - 4..n]);
    forall i | 0 <= i < n ensures dst[i] == after[i] {
      assert file[i] == before[..n][i];
    }
  }

  /** The file of a run that ends normally. For a signed linear output format it begins with a header whose sizes are
      those of what the file holds, and are the ones predicted before anything was converted; for other formats it is
      the converted data alone. */
  method ConvertFile(header: array<uint8>, f: OutFormat, input: nat, predicted: nat, dma: nat, script: seq<Conversion>)
    returns (outcome: Outcome, calls: nat, file: seq<uint8>)
    requires header.Length == WAVE_HEAD_SIZE && FormatSize(header[..]) <= 46 && predicted < 0x8000_0000 && f.Valid()
    modifies header
    ensures calls <= |script| && forall i | 0 <= i < calls :: script[i].Converted?
    ensures outcome.Finished? ==> |Produced(script, calls)| >= predicted
    ensures outcome.Finished? && !f.signedLinear ==> file == Produced(script, calls)[..predicted]
    ensures outcome.Finished? && f.signedLinear ==>
              var n := FormatSize(old(header[..])) + 28;
              && header[..] == Completed(old(header[..]), f, predicted)
              && |file| == n + predicted && file[..n] == header[..n]
              && file[n..] == Produced(script, calls)[..predicted]
              && GetInt(file, n - 4) == predicted && GetInt(file, 4) == |file| - 8
  {
    var info := new AudioInfo(input, predicted);
    ghost var h := header[..];
    var n := FormatSize(header[..]) + 28;
    UpdateDatachunkLength(header, info, n - 28);
    FormatDescribes(header[..], f);
    UpdateFormat(header, f);
    file := if f.signedLinear then header[..n] else [];
    var written, offers;
    outcome, calls, written, offers := PlayFile(info, dma, script);
    ghost var before := file;
    file := file + written;
    if outcome == Finished && f.signedLinear {
      assert file[n..] == written;
      file := HeaderUpdate(header, info, file);
      assert file[..n] == header[..n] && file[n..] == written;
      CompletedMeans(h, f, predicted);
      SameInt(file, header[..], n - 4);
      SameInt(file, header[..], 4);
    }
  }

  lemma PatchedTwice(h: seq<uint8>, length: nat)
    requires |h| == WAVE_HEAD_SIZE && FormatSize(h) <= 46 && length < 0x8000_0000
    requires GetInt(h, 24 + FormatSize(h)) == length && GetInt(h, 4) == length + 20 + FormatSize(h)
    ensures WithDataLength(h, length) == h
  {
    var once := PutInt(h, 24 + FormatSize(h), length);
    SamePut(h, 24 + FormatSize(h));
    SamePut(h, 4);
  }

  /** Writing back the number that is there. */
  lemma SamePut(h: seq<uint8>, at: nat)
    requires at + 4 <= |h| && GetInt(h, at) < 0x1_0000_0000
    ensures PutInt(h, at, GetInt(h, at)) == h
  {
    var v := GetInt(h, at);
    var a: int, b: int, c: int, d: int := h[at], h[at + 1], h[at + 2], h[at + 3];
    UniqueDivision(256, b + 256 * c + 65536 * d, a, v);
    UniqueDivision(256, c + 256 * d, b, v / 256);
    UniqueDivision(65536, c + 256 * d, a + 256 * b, v);
    UniqueDivision(256, d, c, v / 65536);
    UniqueDivision(16777216, d, a + 256 * b + 65536 * c, v);
  }

  lemma SameInt(a: seq<uint8>, b: seq<uint8>, at: nat)
    requires at + 4 <= |a| && at + 4 <= |b| && forall i | at <= i < at + 4 :: a[i] == b[i]
    ensures GetInt(a, at) == GetInt(b, at)
  {}
}
