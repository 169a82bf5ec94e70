/** The two block layouts of DSD files and the one that the sound device takes: frames in which every
    channel has `bytes` consecutive bytes. */
module DsdInterleave {
  import opened MachineInts
  import opened NatArithmetic

  // ---------- layouts ----------

  /** Streams of at least `length` bytes, one for each channel. */
  predicate AtLeast(streams: seq<seq<uint8>>, length: nat) {
    forall c | 0 <= c < |streams| :: length <= |streams[c]|
  }

  /** The part of a frame that holds the first c channels; the frame takes bytes at..at + bytes of
      each stream. */
  function FrameTo(streams: seq<seq<uint8>>, at: nat, bytes: nat, c: nat): (r: seq<uint8>)
    requires AtLeast(streams, at + bytes) && c <= |streams|
    ensures |r| == Offset(c, bytes)
  {
    if c == 0 then [] else FrameTo(streams, at, bytes, c - 1) + streams[c - 1][at..at + bytes]
  }

  /** The first n frames of the device's layout. */
  function Interleaved(streams: seq<seq<uint8>>, bytes: nat, n: nat): (r: seq<uint8>)
    requires AtLeast(streams, Offset(n, bytes))
    ensures |r| == Offset(n, Offset(|streams|, bytes))
  {
    if n == 0 then []
    else Interleaved(streams, bytes, n - 1) + FrameTo(streams, Offset(n - 1, bytes), bytes, |streams|)
  }

  /** The streams of a planar block: one after the other. */
  function PlanarStream(block: seq<uint8>, length: nat, c: nat): (r: seq<uint8>)
    requires Offset(c, length) + length <= |block|
    ensures |r| == length
  {
    block[Offset(c, length)..Offset(c, length) + length]
  }

  function PlanarStreams(block: seq<uint8>, channels: nat, length: nat): (r: seq<seq<uint8>>)
    requires |block| == Offset(channels, length)
    ensures |r| == channels && forall c | 0 <= c < channels :: |r[c]| == length
    ensures AtLeast(r, length)
  {
    seq(channels, c requires 0 <= c < channels =>
        OffsetMonotone(c, channels, length); PlanarStream(block, length, c))
  }

  /** The streams of a byte-interleaved block: byte t of channel c is byte t * channels + c. */
  function ByteStream(block: seq<uint8>, channels: nat, length: nat, c: nat): (r: seq<uint8>)
    requires |block| == Offset(length, channels) && c < channels
    ensures |r| == length
  {
    seq(length, t requires 0 <= t < length =>
        OffsetMonotone(t, length, channels); block[Offset(t, channels) + c])
  }

  function ByteStreams(block: seq<uint8>, channels: nat, length: nat): (r: seq<seq<uint8>>)
    requires |block| == Offset(length, channels)
    ensures |r| == channels && forall c | 0 <= c < channels :: |r[c]| == length
    ensures AtLeast(r, length)
  {
    seq(channels, c requires 0 <= c < channels => ByteStream(block, channels, length, c))
  }

  /** DSF_BLOCK_SIZE / bytes: the frames in a block. */
  function FrameCount(length: nat, bytes: nat): (n: nat)
    requires bytes > 0 && length % bytes == 0
    ensures Offset(n, bytes) == length
  {
    OffsetIsProduct(length / bytes, bytes);
    length / bytes
  }

  // ---------- the interleavers ----------

  /** memcpy. */
  method CopyBytes(dest: array<uint8>, at: nat, src: array<uint8>, from: nat, n: nat)
    requires dest != src && at + n <= dest.Length && from + n <= src.Length
    modifies dest
    ensures src[..] == old(src[..])
    ensures dest[..at + n] == old(dest[..at]) + src[from..from + n]
  {
    var j := 0;
    while j < n
      invariant 0 <= j <= n
      invariant dest[..at + j] == old(dest[..at]) + src[from..from + j]
    {
      dest[at + j] := src[from + j];
      j := j + 1;
    }
  }

  /** dst_off: where channel c of frame i goes. */
  method FrameOffset(channels: nat, bytes: nat, i: nat, c: nat) returns (at: nat)
    ensures at == Offset(i, Offset(channels, bytes)) + Offset(c, bytes)
  {
    OffsetIsProduct(channels, bytes);
    OffsetIsProduct(i, Offset(channels, bytes));
    OffsetIsProduct(c, bytes);
    assert channels * bytes * i == i * (channels * bytes);
    at := channels * bytes * i + c * bytes;
  }

  /** src_off in a planar block. */
  method PlaneOffset(length: nat, bytes: nat, i: nat, c: nat) returns (at: nat)
    ensures at == Offset(c, length) + Offset(i, bytes)
  {
    OffsetIsProduct(c, length);
    OffsetIsProduct(i, bytes);
    at := c * length + i * bytes;
  }

  /** The size of a block, counted by channels, by frames or by bytes of a stream. */
  lemma Regroup(channels: nat, bytes: nat, n: nat)
    ensures Offset(n, Offset(channels, bytes)) == Offset(channels, Offset(n, bytes)) == Offset(Offset(n, bytes), channels)
  {
    OffsetIsProduct(channels, bytes);
    OffsetIsProduct(n, bytes);
    OffsetIsProduct(n, Offset(channels, bytes));
    OffsetIsProduct(channels, Offset(n, bytes));
    OffsetIsProduct(Offset(n, bytes), channels);
    Reassociate(n, channels, bytes);
  }

  lemma Associate(a: seq<uint8>, b: seq<uint8>, c: seq<uint8>)
    ensures (a + b) + c == a + (b + c)
  {}

  lemma JoinSlices(s: seq<uint8>, lo: nat, mid: nat, hi: nat)
    requires lo <= mid <= hi <= |s|
    ensures s[lo..mid] + s[mid..hi] == s[lo..hi]
  {}

  lemma SliceGrows(s: seq<uint8>, lo: nat, hi: nat)
    requires lo <= hi < |s|
    ensures s[lo..hi + 1] == s[lo..hi] + [s[hi]]
  {}

  /** The piece of one more channel, after what was there before the frame. */
  lemma NextChannel(streams: seq<seq<uint8>>, at: nat, bytes: nat, c: nat, done: seq<uint8>, before: seq<uint8>,
                    after: seq<uint8>)
    requires AtLeast(streams, at + bytes) && c < |streams|
    requires before == done + FrameTo(streams, at, bytes, c) && after == before + streams[c][at..at + bytes]
    ensures after == done + FrameTo(streams, at, bytes, c + 1)
  {
    Associate(done, FrameTo(streams, at, bytes, c), streams[c][at..at + bytes]);
  }

  lemma SliceOfSlice(s: seq<uint8>, lo: nat, hi: nat, a: nat, b: nat)
    requires a <= b && lo + b <= hi <= |s|
    ensures s[lo..hi][a..b] == s[lo + a..lo + b]
  {
    var whole, x, y := s[lo..hi], s[lo..hi][a..b], s[lo + a..lo + b];
    forall i | 0 <= i < b - a ensures x[i] == y[i] {
      assert x[i] == whole[a + i];
    }
  }

  lemma PlanarPiece(block: seq<uint8>, channels: nat, length: nat, c: nat, at: nat, bytes: nat)
    requires |block| == Offset(channels, length) && c < channels && at + bytes <= length
    requires Offset(c, length) + length <= |block|
    ensures PlanarStreams(block, channels, length)[c][at..at + bytes]
            == block[Offset(c, length) + at..Offset(c, length) + at + bytes]
  {
    assert PlanarStreams(block, channels, length)[c] == PlanarStream(block, length, c);
    SliceOfSlice(block, Offset(c, length), Offset(c, length) + length, at, at + bytes);
  }

  /** One memcpy of interleaveDsfBlock: frame i, channel c. `at` is where it goes, `t` the time. */
  method DsfPiece(dest: array<uint8>, src: array<uint8>, channels: nat, length: nat, bytes: nat, i: nat, c: nat,
                  ghost width: nat, ghost at: nat, ghost t: nat, ghost streams: seq<seq<uint8>>)
    requires dest != src && c < channels && src.Length == Offset(channels, length)
    requires t == Offset(i, bytes) && t + bytes <= length
    requires width == Offset(channels, bytes) && at == Offset(i, width) + Offset(c, bytes) && at + bytes <= dest.Length
    requires streams == PlanarStreams(src[..], channels, length)
    modifies dest
    ensures src[..] == old(src[..]) && dest[..at + bytes] == old(dest[..at]) + streams[c][t..t + bytes]
  {
    OffsetMonotone(c, channels, length);
    PlanarPiece(src[..], channels, length, c, t, bytes);
    var dstOff := FrameOffset(channels, bytes, i, c);
    var srcOff := PlaneOffset(length, bytes, i, c);
    CopyBytes(dest, dstOff, src, srcOff, bytes);
  }

  /** The inner loop of interleaveDsfBlock: frame i. */
  method DsfFrame(dest: array<uint8>, src: array<uint8>, channels: nat, length: nat, bytes: nat, i: nat,
                  ghost width: nat, ghost start: nat, ghost t: nat, ghost streams: seq<seq<uint8>>)
    requires dest != src && src.Length == Offset(channels, length)
    requires t == Offset(i, bytes) && t + bytes <= length
    requires width == Offset(channels, bytes) && start == Offset(i, width) && start + width <= dest.Length
    requires streams == PlanarStreams(src[..], channels, length)
    modifies dest
    ensures src[..] == old(src[..])
    ensures dest[..start + width] == old(dest[..start]) + FrameTo(streams, t, bytes, channels)
  {
    ghost var done, block := dest[..start], src[..];
    ghost var at := start;
    var c := 0;
    while c < channels
      invariant 0 <= c <= channels && at == start + Offset(c, bytes) <= dest.Length && src[..] == block
      invariant dest[..at] == done + FrameTo(streams, t, bytes, c)
    {
      OffsetMonotone(c, channels, bytes);
      ghost var before := dest[..at];
      DsfPiece(dest, src, channels, length, bytes, i, c, width, at, t, streams);
      NextChannel(streams, t, bytes, c, done, before, dest[..at + bytes]);
      at := at + bytes;
      c := c + 1;
    }
  }

  lemma NextFrame(streams: seq<seq<uint8>>, bytes: nat, i: nat, t: nat)
    requires t == Offset(i, bytes) && AtLeast(streams, t + bytes) && AtLeast(streams, t)
    ensures Offset(i + 1, bytes) == t + bytes
    ensures Interleaved(streams, bytes, i + 1) == Interleaved(streams, bytes, i) + FrameTo(streams, t, bytes, |streams|)
  {}

  /** interleaveDsfBlock, on planar blocks of `length` bytes for each channel. */
  method InterleaveDsfBlock(dest: array<uint8>, src: array<uint8>, channels: nat, length: nat, bytes: nat)
    requires dest != src && bytes > 0 && length % bytes == 0
    requires dest.Length == src.Length == Offset(channels, length)
    modifies dest
    ensures dest[..] == Interleaved(PlanarStreams(src[..], channels, length), bytes, FrameCount(length, bytes))
  {
    ghost var block := src[..];
    ghost var streams := PlanarStreams(block, channels, length);
    var n := FrameCount(length, bytes);
    ghost var width, start, t := Offset(channels, bytes), 0, 0;
    var i := 0;
    Regroup(channels, bytes, n);
    while i < n
      invariant 0 <= i <= n && src[..] == block
      invariant t == Offset(i, bytes) <= length && start == Offset(i, width) <= dest.Length
      invariant dest[..start] == Interleaved(streams, bytes, i)
    {
      OffsetMonotone(i, n, bytes);
      OffsetMonotone(i, n, width);
      DsfFrame(dest, src, channels, length, bytes, i, width, start, t, streams);
      NextFrame(streams, bytes, i, t);
      start, t := start + width, t + bytes;
      i := i + 1;
    }
  }

  /** Where byte j of channel c in frame i of the device's layout comes from in a byte-interleaved block. */
  method ByteOffset(channels: nat, bytes: nat, i: nat, c: nat, j: nat) returns (at: nat)
    ensures at == Offset(Offset(i, bytes) + j, channels) + c
  {
    OffsetIsProduct(i, bytes);
    OffsetIsProduct(Offset(i, bytes) + j, channels);
    SpreadProduct(channels, bytes, i, j);
    at := channels * bytes * i + c + j * channels;
  }

  lemma SpreadProduct(channels: nat, bytes: nat, i: nat, j: nat)
    ensures (i * bytes + j) * channels == channels * bytes * i + j * channels
  {
    assert (i * bytes + j) * channels == i * bytes * channels + j * channels;
    Reassociate(i, channels, bytes);
  }

  /** The innermost loop of interleaveDffBlock: the bytes of channel c in frame i. */
  method DffPiece(dest: array<uint8>, src: array<uint8>, channels: nat, length: nat, bytes: nat, i: nat, c: nat,
                  ghost width: nat, ghost at: nat, ghost t: nat, ghost streams: seq<seq<uint8>>)
    requires dest != src && c < channels && src.Length == Offset(length, channels)
    requires t == Offset(i, bytes) && t + bytes <= length
    requires width == Offset(channels, bytes) && at == Offset(i, width) + Offset(c, bytes) && at + bytes <= dest.Length
    requires streams == ByteStreams(src[..], channels, length)
    modifies dest
    ensures src[..] == old(src[..]) && dest[..at + bytes] == old(dest[..at]) + streams[c][t..t + bytes]
  {
    ghost var done, stream := dest[..at], streams[c];
    var j := 0;
    while j < bytes
      invariant 0 <= j <= bytes && src[..] == old(src[..])
      invariant dest[..at + j] == done + stream[t..t + j]
    {
      ByteAt(src[..], channels, length, c, t + j);
      DffByte(dest, src, channels, bytes, i, c, j, width, at + j, Offset(t + j, channels) + c, done, stream[t..t + j],
              stream[t + j]);
      SliceGrows(stream, t, t + j);
      j := j + 1;
    }
  }

  lemma ByteAt(block: seq<uint8>, channels: nat, length: nat, c: nat, t: nat)
    requires |block| == Offset(length, channels) && c < channels && t < length
    ensures Offset(t, channels) + c < |block|
    ensures ByteStreams(block, channels, length)[c][t] == block[Offset(t, channels) + c]
  {
    OffsetMonotone(t, length, channels);
    assert ByteStreams(block, channels, length)[c] == ByteStream(block, channels, length, c);
  }

  /** The assignment inside interleaveDffBlock: dest[at] = src[from], after `done` and `part`. */
  method DffByte(dest: array<uint8>, src: array<uint8>, channels: nat, bytes: nat, i: nat, c: nat, j: nat,
                 ghost width: nat, ghost at: nat, ghost from: nat, ghost done: seq<uint8>, ghost part: seq<uint8>,
                 ghost value: uint8)
    requires width == Offset(channels, bytes) && at == Offset(i, width) + Offset(c, bytes) + j
    requires from == Offset(Offset(i, bytes) + j, channels) + c
    requires dest != src && at < dest.Length && from < src.Length && dest[..at] == done + part
    requires value == src[from]
    modifies dest
    ensures src[..] == old(src[..]) && dest[..at + 1] == done + (part + [value])
  {
    var dstOff := FrameOffset(channels, bytes, i, c);
    var srcOff := ByteOffset(channels, bytes, i, c, j);
    dest[dstOff + j] := src[srcOff];
  }

  method DffFrame(dest: array<uint8>, src: array<uint8>, channels: nat, length: nat, bytes: nat, i: nat,
                  ghost width: nat, ghost start: nat, ghost t: nat, ghost streams: seq<seq<uint8>>)
    requires dest != src && src.Length == Offset(length, channels)
    requires t == Offset(i, bytes) && t + bytes <= length
    requires width == Offset(channels, bytes) && start == Offset(i, width) && start + width <= dest.Length
    requires streams == ByteStreams(src[..], channels, length)
    modifies dest
    ensures src[..] == old(src[..])
    ensures dest[..start + width] == old(dest[..start]) + FrameTo(streams, t, bytes, channels)
  {
    ghost var done, block := dest[..start], src[..];
    ghost var at := start;
    var c := 0;
    while c < channels
      invariant 0 <= c <= channels && at == start + Offset(c, bytes) <= dest.Length && src[..] == block
      invariant dest[..at] == done + FrameTo(streams, t, bytes, c)
    {
      OffsetMonotone(c, channels, bytes);
      ghost var before := dest[..at];
      DffPiece(dest, src, channels, length, bytes, i, c, width, at, t, streams);
      NextChannel(streams, t, bytes, c, done, before, dest[..at + bytes]);
      at := at + bytes;
      c := c + 1;
    }
  }

  /** interleaveDffBlock, on byte-interleaved blocks of `length` bytes for each channel. */
  method InterleaveDffBlock(dest: array<uint8>, src: array<uint8>, channels: nat, length: nat, bytes: nat)
    requires dest != src && bytes > 0 && length % bytes == 0
    requires dest.Length == src.Length == Offset(length, channels)
    modifies dest
    ensures dest[..] == Interleaved(ByteStreams(src[..], channels, length), bytes, FrameCount(length, bytes))
  {
    ghost var block := src[..];
    ghost var streams := ByteStreams(block, channels, length);
    var n := FrameCount(length, bytes);
    ghost var width, start, t := Offset(channels, bytes), 0, 0;
    var i := 0;
    Regroup(channels, bytes, n);
    while i < n
      invariant 0 <= i <= n && src[..] == block
      invariant t == Offset(i, bytes) <= length && start == Offset(i, width) <= dest.Length
      invariant dest[..start] == Interleaved(streams, bytes, i)
    {
      OffsetMonotone(i, n, bytes);
      OffsetMonotone(i, n, width);
      DffFrame(dest, src, channels, length, bytes, i, width, start, t, streams);
      NextFrame(streams, bytes, i, t);
      start, t := start + width, t + bytes;
      i := i + 1;
    }
  }

  // ---------- the layouts hold the same streams ----------

  /** A planar block of the first c streams. */
  function PlanarTo(streams: seq<seq<uint8>>, length: nat, c: nat): (block: seq<uint8>)
    requires c <= |streams| && forall k | 0 <= k < |streams| :: |streams[k]| == length
    ensures |block| == Offset(c, length)
  {
    if c == 0 then [] else PlanarTo(streams, length, c - 1) + streams[c - 1]
  }

  lemma {:induction false} PlanarToAt(streams: seq<seq<uint8>>, length: nat, n: nat, c: nat)
    requires c < n <= |streams| && forall k | 0 <= k < |streams| :: |streams[k]| == length
    ensures Offset(c, length) + length <= Offset(n, length)
    ensures PlanarTo(streams, length, n)[Offset(c, length)..Offset(c, length) + length] == streams[c]
    decreases n
  {
    OffsetMonotone(c, n, length);
    if c == n - 1 {
    } else {
      PlanarToAt(streams, length, n - 1, c);
      PrefixSlice(PlanarTo(streams, length, n - 1), streams[n - 1], Offset(c, length), Offset(c, length) + length);
    }
  }

  lemma PrefixSlice(a: seq<uint8>, b: seq<uint8>, lo: nat, hi: nat)
    requires lo <= hi <= |a|
    ensures (a + b)[lo..hi] == a[lo..hi]
  {}

  /** Writing streams as a planar block and reading them back. */
  lemma PlanarRoundTrip(streams: seq<seq<uint8>>, length: nat)
    requires forall k | 0 <= k < |streams| :: |streams[k]| == length
    ensures PlanarStreams(PlanarTo(streams, length, |streams|), |streams|, length) == streams
  {
    forall c | 0 <= c < |streams|
      ensures PlanarStreams(PlanarTo(streams, length, |streams|), |streams|, length)[c] == streams[c]
    {
      PlanarToAt(streams, length, |streams|, c);
    }
  }

  /** Byte j of channel c within a frame. */
  lemma {:induction false} FrameToAt(streams: seq<seq<uint8>>, at: nat, bytes: nat, n: nat, c: nat, j: nat)
    requires AtLeast(streams, at + bytes) && c < n <= |streams| && j < bytes
    ensures Offset(c, bytes) + j < Offset(n, bytes)
    ensures FrameTo(streams, at, bytes, n)[Offset(c, bytes) + j] == streams[c][at + j]
    decreases n
  {
    OffsetMonotone(c, n, bytes);
    if c == n - 1 {
    } else {
      FrameToAt(streams, at, bytes, n - 1, c, j);
    }
  }

  /** The frames before the last one, and the last one. */
  lemma FrameSplit(streams: seq<seq<uint8>>, bytes: nat, n: nat, width: nat)
      returns (before: seq<uint8>, frame: seq<uint8>)
    requires n > 0 && AtLeast(streams, Offset(n, bytes)) && width == Offset(|streams|, bytes)
    ensures AtLeast(streams, Offset(n - 1, bytes)) && AtLeast(streams, Offset(n - 1, bytes) + bytes)
    ensures before == Interleaved(streams, bytes, n - 1) && |before| == Offset(n - 1, width)
    ensures frame == FrameTo(streams, Offset(n - 1, bytes), bytes, |streams|) && |frame| == width
    ensures Interleaved(streams, bytes, n) == before + frame
  {
    before, frame := Interleaved(streams, bytes, n - 1), FrameTo(streams, Offset(n - 1, bytes), bytes, |streams|);
  }

  lemma ByteBefore(whole: seq<uint8>, before: seq<uint8>, frame: seq<uint8>, k: nat, v: uint8)
    requires whole == before + frame && k < |before| && before[k] == v
    ensures k < |whole| && whole[k] == v
  {}

  lemma ByteAfter(whole: seq<uint8>, before: seq<uint8>, frame: seq<uint8>, start: nat, k: nat, v: uint8)
    requires whole == before + frame && start == |before| && k < |frame| && frame[k] == v
    ensures start + k < |whole| && whole[start + k] == v
  {}

  lemma LastFrameAt(streams: seq<seq<uint8>>, bytes: nat, n: nat, c: nat, j: nat, width: nat, place: nat)
    requires n > 0 && AtLeast(streams, Offset(n, bytes)) && c < |streams| && j < bytes
    requires width == Offset(|streams|, bytes) && place == Offset(c, bytes) + j < width
    ensures Offset(n - 1, width) + place < |Interleaved(streams, bytes, n)|
    ensures Offset(n - 1, bytes) + j < Offset(n, bytes)
    ensures Interleaved(streams, bytes, n)[Offset(n - 1, width) + place] == streams[c][Offset(n - 1, bytes) + j]
  {
    var before, frame := FrameSplit(streams, bytes, n, width);
    FrameToAt(streams, Offset(n - 1, bytes), bytes, |streams|, c, j);
    ByteAfter(before + frame, before, frame, Offset(n - 1, width), place, streams[c][Offset(n - 1, bytes) + j]);
  }

  lemma EarlierFrameAt(streams: seq<seq<uint8>>, bytes: nat, n: nat, width: nat, k: nat, v: uint8)
    requires n > 0 && AtLeast(streams, Offset(n, bytes)) && AtLeast(streams, Offset(n - 1, bytes))
    requires width == Offset(|streams|, bytes) && k < Offset(n - 1, width)
    requires Interleaved(streams, bytes, n - 1)[k] == v
    ensures k < |Interleaved(streams, bytes, n)| && Interleaved(streams, bytes, n)[k] == v
  {
    var before, frame := FrameSplit(streams, bytes, n, width);
    ByteBefore(before + frame, before, frame, k, v);
  }

  lemma EarlierPlace(streams: seq<seq<uint8>>, bytes: nat, n: nat, i: nat, width: nat)
    requires i + 1 < n && AtLeast(streams, Offset(n, bytes))
    ensures AtLeast(streams, Offset(n - 1, bytes)) && Offset(i, bytes) + bytes <= Offset(n - 1, bytes)
    ensures Offset(i, width) + width <= Offset(n - 1, width)
  {
    OffsetMonotone(n - 1, n, bytes);
    OffsetMonotone(i, n - 1, bytes);
    OffsetMonotone(i, n - 1, width);
  }

  /** Every channel keeps its bytes in order: byte j of channel c in frame i is the stream's. Frames have `width` bytes,
      frame i begins at `start` and at time `t`, and the byte is at `place` in it. */
  lemma {:induction false} InterleavedAt(streams: seq<seq<uint8>>, bytes: nat, n: nat, i: nat, c: nat, j: nat,
                                         width: nat, start: nat, t: nat, place: nat)
    requires AtLeast(streams, Offset(n, bytes)) && i < n && c < |streams| && j < bytes
    requires width == Offset(|streams|, bytes) && start == Offset(i, width) && t == Offset(i, bytes)
    requires place == Offset(c, bytes) + j < width && t + bytes <= Offset(n, bytes)
    ensures start + place < |Interleaved(streams, bytes, n)|
    ensures Interleaved(streams, bytes, n)[start + place] == streams[c][t + j]
    decreases n
  {
    if i == n - 1 {
      LastFrameAt(streams, bytes, n, c, j, width, place);
    } else {
      EarlierPlace(streams, bytes, n, i, width);
      InterleavedAt(streams, bytes, n - 1, i, c, j, width, start, t, place);
      EarlierFrameAt(streams, bytes, n, width, start + place, streams[c][t + j]);
    }
  }
}
