/** What the interleavers preserve: the streams, the bytes, and bit reversal. */
module DsdLayouts {
  import opened MachineInts
  import opened NatArithmetic
  import opened DsdInterleave
  import opened DsdBits
  import opened Sequences

  predicate Equal(streams: seq<seq<uint8>>, length: nat) {
    forall c | 0 <= c < |streams| :: |streams[c]| == length
  }

  lemma {:induction false} OffsetOne(n: nat)
    ensures Offset(n, 1) == n
  {
    if n == 0 {
    } else {
      OffsetOne(n - 1);
    }
  }

  /** A byte-interleaved block is the device's layout with frames of one byte per channel. */
  function ByteBlock(streams: seq<seq<uint8>>, length: nat): (block: seq<uint8>)
    requires Equal(streams, length)
    ensures |block| == Offset(length, |streams|)
  {
    OffsetOne(length);
    OffsetOne(|streams|);
    Interleaved(streams, 1, length)
  }

  lemma ByteBlockAt(streams: seq<seq<uint8>>, length: nat, t: nat, c: nat)
    requires Equal(streams, length) && t < length && c < |streams|
    ensures Offset(t, |streams|) + c < Offset(length, |streams|)
    ensures ByteBlock(streams, length)[Offset(t, |streams|) + c] == streams[c][t]
  {
    OffsetOne(length);
    OffsetOne(t);
    OffsetOne(c);
    OffsetOne(|streams|);
    OffsetMonotone(t, length, 1);
    OffsetMonotone(t, length, |streams|);
    InterleavedAt(streams, 1, length, t, c, 0, |streams|, Offset(t, |streams|), t, c);
  }

  /** Writing streams as a byte-interleaved block and reading them back. */
  lemma ByteRoundTrip(streams: seq<seq<uint8>>, length: nat)
    requires Equal(streams, length)
    ensures ByteStreams(ByteBlock(streams, length), |streams|, length) == streams
  {
    var n := |streams|;
    var back := ByteStreams(ByteBlock(streams, length), n, length);
    forall c | 0 <= c < n ensures back[c] == streams[c] {
      forall t | 0 <= t < length ensures back[c][t] == streams[c][t] {
        ByteBlockAt(streams, length, t, c);
        ByteAt(ByteBlock(streams, length), n, length, c, t);
      }
    }
  }

  /** A planar (DSF) and a byte-interleaved (DFF) block with the same streams become the same buffer,
      for any number of channels and any sample width. */
  lemma LayoutsMeet(streams: seq<seq<uint8>>, length: nat, bytes: nat, frames: nat)
    requires Equal(streams, length) && Offset(frames, bytes) == length
    ensures var n := |streams|;
            Interleaved(PlanarStreams(PlanarTo(streams, length, n), n, length), bytes, frames)
            == Interleaved(ByteStreams(ByteBlock(streams, length), n, length), bytes, frames)
  {
    PlanarRoundTrip(streams, length);
    ByteRoundTrip(streams, length);
  }

  // ---------- nothing is lost or invented ----------

  /** How often v occurs. */
  function Count(s: seq<uint8>, v: uint8): nat {
    if s == [] then 0 else Count(s[..|s| - 1], v) + if s[|s| - 1] == v then 1 else 0
  }

  lemma {:induction false} Appended(a: seq<uint8>, b: seq<uint8>, v: uint8)
    ensures Count(a + b, v) == Count(a, v) + Count(b, v)
    decreases |b|
  {
    if b == [] {
      assert a + b == a;
    } else {
      Appended(a, b[..|b| - 1], v);
      assert (a + b)[..|a + b| - 1] == a + b[..|b| - 1];
    }
  }

  lemma {:induction false} CountIsMultiplicity(s: seq<uint8>, v: uint8)
    ensures Count(s, v) == multiset(s)[v]
  {
    if s == [] {
    } else {
      CountIsMultiplicity(s[..|s| - 1], v);
      assert s == s[..|s| - 1] + [s[|s| - 1]];
    }
  }

  /** How often v occurs in the first `length` bytes of the first c streams. */
  function Total(streams: seq<seq<uint8>>, length: nat, c: nat, v: uint8): nat
    requires AtLeast(streams, length) && c <= |streams|
  {
    if c == 0 then 0 else Total(streams, length, c - 1, v) + Count(streams[c - 1][..length], v)
  }

  lemma CountSlice(s: seq<uint8>, mid: nat, hi: nat, v: uint8)
    requires mid <= hi <= |s|
    ensures Count(s[..hi], v) == Count(s[..mid], v) + Count(s[mid..hi], v)
  {
    JoinSlices(s, 0, mid, hi);
    Appended(s[..mid], s[mid..hi], v);
  }

  lemma {:induction false} TotalGrows(streams: seq<seq<uint8>>, at: nat, bytes: nat, c: nat, v: uint8)
    requires AtLeast(streams, at + bytes) && c <= |streams|
    ensures Total(streams, at + bytes, c, v) == Total(streams, at, c, v) + Count(FrameTo(streams, at, bytes, c), v)
  {
    if c == 0 {
    } else {
      TotalGrows(streams, at, bytes, c - 1, v);
      CountSlice(streams[c - 1], at, at + bytes, v);
      Appended(FrameTo(streams, at, bytes, c - 1), streams[c - 1][at..at + bytes], v);
    }
  }

  lemma {:induction false} InterleavedTotal(streams: seq<seq<uint8>>, bytes: nat, n: nat, v: uint8)
    requires AtLeast(streams, Offset(n, bytes))
    ensures Count(Interleaved(streams, bytes, n), v) == Total(streams, Offset(n, bytes), |streams|, v)
  {
    if n == 0 {
      NoTotal(streams, |streams|, v);
    } else {
      InterleavedTotal(streams, bytes, n - 1, v);
      TotalGrows(streams, Offset(n - 1, bytes), bytes, |streams|, v);
      Appended(Interleaved(streams, bytes, n - 1), FrameTo(streams, Offset(n - 1, bytes), bytes, |streams|), v);
    }
  }

  lemma {:induction false} NoTotal(streams: seq<seq<uint8>>, c: nat, v: uint8)
    requires c <= |streams|
    ensures Total(streams, 0, c, v) == 0
  {
    if c == 0 {
    } else {
      NoTotal(streams, c - 1, v);
    }
  }

  lemma {:induction false} PlanarTotal(streams: seq<seq<uint8>>, length: nat, c: nat, v: uint8)
    requires Equal(streams, length) && c <= |streams|
    ensures Count(PlanarTo(streams, length, c), v) == Total(streams, length, c, v)
  {
    if c == 0 {
    } else {
      PlanarTotal(streams, length, c - 1, v);
      assert streams[c - 1][..length] == streams[c - 1];
      Appended(PlanarTo(streams, length, c - 1), streams[c - 1], v);
    }
  }

  lemma SameCounts(a: seq<uint8>, b: seq<uint8>)
    requires forall v: uint8 :: Count(a, v) == Count(b, v)
    ensures multiset(a) == multiset(b)
  {
    forall v: uint8 ensures multiset(a)[v] == multiset(b)[v] {
      CountIsMultiplicity(a, v);
      CountIsMultiplicity(b, v);
    }
  }

  /** Reading a planar block's streams and writing them back. */
  lemma {:induction false} PlanarInverse(block: seq<uint8>, n: nat, length: nat, c: nat)
    requires |block| == Offset(n, length) && c <= n
    ensures Offset(c, length) <= |block|
    ensures PlanarTo(PlanarStreams(block, n, length), length, c) == block[..Offset(c, length)]
  {
    OffsetMonotone(c, n, length);
    if c == 0 {
    } else {
      PlanarInverse(block, n, length, c - 1);
      LastPlane(block, n, length, c - 1);
    }
  }

  lemma LastPlane(block: seq<uint8>, n: nat, length: nat, c: nat)
    requires |block| == Offset(n, length) && c < n
    ensures Offset(c + 1, length) <= |block|
    ensures block[..Offset(c, length)] + PlanarStreams(block, n, length)[c] == block[..Offset(c + 1, length)]
  {
    var lo := Offset(c, length);
    OffsetMonotone(c, n, length);
    assert PlanarStreams(block, n, length)[c] == PlanarStream(block, length, c);
    JoinSlices(block, 0, lo, lo + length);
  }

  /** interleaveDsfBlock permutes the bytes of its block. */
  lemma PlanarPermuted(block: seq<uint8>, n: nat, length: nat, bytes: nat, frames: nat)
    requires |block| == Offset(n, length) && Offset(frames, bytes) == length
    ensures multiset(Interleaved(PlanarStreams(block, n, length), bytes, frames)) == multiset(block)
  {
    var streams := PlanarStreams(block, n, length);
    var dest := Interleaved(streams, bytes, frames);
    PlanarInverse(block, n, length, n);
    assert block[..Offset(n, length)] == block;
    forall v: uint8 ensures Count(dest, v) == Count(block, v) {
      InterleavedTotal(streams, bytes, frames, v);
      PlanarTotal(streams, length, n, v);
    }
    SameCounts(dest, block);
  }

  /** Reading a byte-interleaved block's streams and writing them back. */
  lemma {:induction false} ByteInverse(block: seq<uint8>, n: nat, length: nat, t: nat)
    requires |block| == Offset(length, n) && t <= length
    ensures Offset(t, n) <= |block| && Offset(t, Offset(n, 1)) == Offset(t, n) && Offset(t, 1) == t
    ensures Interleaved(ByteStreams(block, n, length), 1, t) == block[..Offset(t, n)]
  {
    OffsetMonotone(t, length, n);
    OffsetOne(t);
    OffsetOne(n);
    if t == 0 {
    } else {
      var streams, lo := ByteStreams(block, n, length), Offset(t - 1, n);
      ByteInverse(block, n, length, t - 1);
      OffsetMonotone(t - 1, length, n);
      OneFrame(block, n, length, t - 1, n);
      JoinSlices(block, 0, lo, lo + n);
    }
  }

  lemma {:induction false} OneFrame(block: seq<uint8>, n: nat, length: nat, t: nat, c: nat)
    requires |block| == Offset(length, n) && t < length && c <= n
    ensures Offset(c, 1) == c && Offset(t, n) + n <= |block|
    ensures FrameTo(ByteStreams(block, n, length), t, 1, c) == block[Offset(t, n)..Offset(t, n) + c]
  {
    OffsetOne(c);
    OffsetMonotone(t, length, n);
    if c == 0 {
    } else {
      OneFrame(block, n, length, t, c - 1);
      ByteAt(block, n, length, c - 1, t);
      var lo := Offset(t, n);
      assert ByteStreams(block, n, length)[c - 1][t..t + 1] == [block[lo + c - 1]];
      JoinSlices(block, lo, lo + c - 1, lo + c);
      assert block[lo + c - 1..lo + c] == [block[lo + c - 1]];
    }
  }

  /** interleaveDffBlock permutes the bytes of its block. */
  lemma BytesPermuted(block: seq<uint8>, n: nat, length: nat, bytes: nat, frames: nat)
    requires |block| == Offset(length, n) && Offset(frames, bytes) == length
    ensures multiset(Interleaved(ByteStreams(block, n, length), bytes, frames)) == multiset(block)
  {
    var streams := ByteStreams(block, n, length);
    var dest := Interleaved(streams, bytes, frames);
    ByteInverse(block, n, length, length);
    assert block[..Offset(length, n)] == block;
    OffsetOne(length);
    forall v: uint8 ensures Count(dest, v) == Count(block, v) {
      InterleavedTotal(streams, bytes, frames, v);
      InterleavedTotal(streams, 1, length, v);
    }
    SameCounts(dest, block);
  }

  // ---------- bit reversal may come first or last ----------

  function MappedAll(f: uint8 -> uint8, streams: seq<seq<uint8>>): (r: seq<seq<uint8>>)
    ensures |r| == |streams| && forall c | 0 <= c < |r| :: |r[c]| == |streams[c]|
  {
    seq(|streams|, c requires 0 <= c < |streams| => Map(f, streams[c]))
  }

  lemma {:induction false} FrameMapped(f: uint8 -> uint8, streams: seq<seq<uint8>>, at: nat, bytes: nat, c: nat)
    requires AtLeast(streams, at + bytes) && c <= |streams|
    ensures FrameTo(MappedAll(f, streams), at, bytes, c) == Map(f, FrameTo(streams, at, bytes, c))
  {
    if c == 0 {
    } else {
      FrameMapped(f, streams, at, bytes, c - 1);
      assert MappedAll(f, streams)[c - 1][at..at + bytes] == Map(f, streams[c - 1][at..at + bytes]);
    }
  }

  lemma {:induction false} InterleavedMapped(f: uint8 -> uint8, streams: seq<seq<uint8>>, bytes: nat, n: nat)
    requires AtLeast(streams, Offset(n, bytes))
    ensures Interleaved(MappedAll(f, streams), bytes, n) == Map(f, Interleaved(streams, bytes, n))
  {
    if n == 0 {
    } else {
      InterleavedMapped(f, streams, bytes, n - 1);
      FrameMapped(f, streams, Offset(n - 1, bytes), bytes, |streams|);
    }
  }

  lemma PlanarMapped(f: uint8 -> uint8, block: seq<uint8>, n: nat, length: nat)
    requires |block| == Offset(n, length)
    ensures PlanarStreams(Map(f, block), n, length) == MappedAll(f, PlanarStreams(block, n, length))
  {
    forall c | 0 <= c < n
      ensures PlanarStreams(Map(f, block), n, length)[c] == Map(f, PlanarStreams(block, n, length)[c])
    {
      OffsetMonotone(c, n, length);
    }
  }

  lemma ByteMapped(f: uint8 -> uint8, block: seq<uint8>, n: nat, length: nat)
    requires |block| == Offset(length, n)
    ensures ByteStreams(Map(f, block), n, length) == MappedAll(f, ByteStreams(block, n, length))
  {
    var left, right := ByteStreams(Map(f, block), n, length), MappedAll(f, ByteStreams(block, n, length));
    forall c | 0 <= c < n ensures left[c] == right[c] {
      forall t | 0 <= t < length ensures left[c][t] == right[c][t] {
        ByteAt(Map(f, block), n, length, c, t);
        ByteAt(block, n, length, c, t);
      }
    }
  }

  /** Reversing the bits of a block and then interleaving it gives the interleaved block with its bits
      reversed, in either layout. */
  lemma ReversalCommutes(block: seq<uint8>, n: nat, length: nat, bytes: nat, frames: nat)
    requires |block| == Offset(n, length) == Offset(length, n) && Offset(frames, bytes) == length
    ensures |Reversed(block)| == |block|
    ensures Interleaved(PlanarStreams(Reversed(block), n, length), bytes, frames)
            == Reversed(Interleaved(PlanarStreams(block, n, length), bytes, frames))
    ensures Interleaved(ByteStreams(Reversed(block), n, length), bytes, frames)
            == Reversed(Interleaved(ByteStreams(block, n, length), bytes, frames))
  {
    var f: uint8 -> uint8 := BitReverse;
    PlanarMapped(f, block, n, length);
    InterleavedMapped(f, PlanarStreams(block, n, length), bytes, frames);
    ByteMapped(f, block, n, length);
    InterleavedMapped(f, ByteStreams(block, n, length), bytes, frames);
  }
}
