/** Playing a DSD file: block by block, through a sink that may accept anything from none to all of what
    it is offered, and padded with silence to a whole number of periods. */
module DsdPlayer {
  import opened MachineInts
  import opened NatArithmetic
  import opened DsdBits
  import opened DsdInterleave

  /** One call of snd_pcm_writei: some frames, EAGAIN, EPIPE, ESTRPIPE or another error. After EPIPE and
      ESTRPIPE the handler either recovers the stream or ends the program. */
  datatype Reply = Took(frames: nat) | Again | Xrun(recovers: bool) | Suspended(recovers: bool) | Failure

  /** A write returns, ends the program, or is still trying when the sink's script runs out. */
  datatype Outcome = Returned | Exited | Waiting

  class Sink {
    var script: seq<Reply>
    var accepted: seq<uint8>

    constructor (replies: seq<Reply>)
      ensures script == replies && accepted == []
    {
      script, accepted := replies, [];
    }
  }

  /** How a write of `count` frames ends. */
  function Fate(script: seq<Reply>, count: nat): Outcome {
    if count == 0 then Returned
    else if script == [] then Waiting
    else match script[0]
      case Took(n) => Fate(script[1..], count - Min(n, count))
      case Again => Fate(script[1..], count)
      case Xrun(recovers) => if recovers then Fate(script[1..], count) else Exited
      case Suspended(recovers) => if recovers then Fate(script[1..], count) else Exited
      case Failure => Exited
  }

  /** pcm_write. What the sink has accepted is always a prefix of the buffer, and all of it once the write
      returns. */
  method PcmWrite(sink: Sink, data: array<uint8>, frames: nat, bytesPerFrame: nat)
    returns (outcome: Outcome, result: nat)
    requires Offset(frames, bytesPerFrame) <= data.Length
    modifies sink
    ensures outcome == Fate(old(sink.script), frames)
    ensures result <= frames && (outcome == Returned ==> result == frames)
    ensures Offset(result, bytesPerFrame) <= data.Length
    ensures sink.accepted == old(sink.accepted) + data[..Offset(result, bytesPerFrame)]
  {
    var count, at := frames, 0;
    result := 0;
    while count > 0
      invariant result + count == frames && at == Offset(result, bytesPerFrame) <= data.Length
      invariant Fate(sink.script, count) == Fate(old(sink.script), frames)
      invariant sink.accepted == old(sink.accepted) + data[..at]
      decreases |sink.script|
    {
      if sink.script == [] {
        outcome := Waiting;
        return;
      }
      var reply := sink.script[0];
      sink.script := sink.script[1..];
      match reply
      case Took(n) =>
        var r := Min(n, count);
        OffsetMonotone(result + r, frames, bytesPerFrame);
        OffsetAdds(result, r, bytesPerFrame);
        OffsetIsProduct(r, bytesPerFrame);
        var next := at + r * bytesPerFrame;
        sink.accepted := sink.accepted + data[at..next];
        JoinSlices(data[..], 0, at, next);
        result := result + r;
        count := count - r;
        at := next;
      case Again =>
      case Xrun(recovers) =>
        if !recovers {
          outcome := Exited;
          return;
        }
      case Suspended(recovers) =>
        if !recovers {
          outcome := Exited;
          return;
        }
      case Failure =>
        outcome := Exited;
        return;
    }
    outcome := Returned;
  }

  // ---------- the block loop ----------

  /** The file's parameters: channels, block size for each channel, sample width in bytes, whether blocks
      are planar (DSF) and whether their bits are reversed. */
  datatype Format = Format(channels: nat, length: nat, bytes: nat, planar: bool, reversed: bool) {
    predicate Valid() {
      channels > 0 && length > 0 && bytes > 0 && length % bytes == 0
    }

    function BlockSize(): (n: nat)
      ensures Valid() ==> n > 0
    {
      Offset(channels, length)
    }

    function BytesPerFrame(): nat {
      Offset(channels, bytes)
    }

    function Frames(): nat
      requires Valid()
    {
      FrameCount(length, bytes)
    }

    /** What is sent to the device for a block. */
    function Rendered(block: seq<uint8>): (r: seq<uint8>)
      requires Valid() && |block| == BlockSize()
      ensures |r| == Offset(Frames(), BytesPerFrame())
    {
      Regroup(channels, bytes, Frames());
      var bits := if reversed then Reversed(block) else block;
      Interleaved(if planar then PlanarStreams(bits, channels, length) else ByteStreams(bits, channels, length),
                  bytes, Frames())
    }
  }

  function Zeros(n: nat): (r: seq<uint8>)
    ensures |r| == n && forall i | 0 <= i < n :: r[i] == 0
  {
    seq(n, _ => 0)
  }

  function Padded(part: seq<uint8>, size: nat): (r: seq<uint8>)
    requires |part| <= size
    ensures |r| == size
  {
    part + Zeros(size - |part|)
  }

  /** The blocks of the sound data: at most `left` bytes of the file, the last block filled up with zeros. */
  function Blocks(file: seq<uint8>, left: nat, size: nat): (r: seq<seq<uint8>>)
    requires size > 0
    ensures forall i | 0 <= i < |r| :: |r[i]| == size
    decreases |file|
  {
    var n := Min(Min(left, size), |file|);
    if n == 0 then [] else [Padded(file[..n], size)] + Blocks(file[n..], left - n, size)
  }

  function Sent(f: Format, blocks: seq<seq<uint8>>): (r: seq<uint8>)
    requires f.Valid() && forall i | 0 <= i < |blocks| :: |blocks[i]| == f.BlockSize()
  {
    if blocks == [] then [] else f.Rendered(blocks[0]) + Sent(f, blocks[1..])
  }

  /** The frames of silence that complete a period. */
  function Padding(written: nat, chunk: nat): nat
    requires chunk > 0
  {
    if written % chunk == 0 then 0 else chunk - written % chunk
  }

  /** Everything a complete run sends. */
  function Everything(f: Format, file: seq<uint8>, left: nat, chunk: nat): seq<uint8>
    requires f.Valid() && chunk > 0
  {
    var blocks := Blocks(file, left, f.BlockSize());
    Sent(f, blocks) + Zeros(Offset(Padding(Offset(|blocks|, f.Frames()), chunk), f.BytesPerFrame()))
  }

  lemma PaddingCompletes(written: nat, chunk: nat)
    requires chunk > 0
    ensures (written + Padding(written, chunk)) % chunk == 0 && Padding(written, chunk) < chunk
  {
    var q, m := written / chunk, written % chunk;
    if m != 0 {
      assert written + Padding(written, chunk) == chunk * q + chunk == chunk * (q + 1);
      UniqueDivision(chunk, q + 1, 0, written + Padding(written, chunk));
    }
  }

  /** A complete run sends a whole number of periods. */
  lemma {:induction false} SentLength(f: Format, blocks: seq<seq<uint8>>)
    requires f.Valid() && forall i | 0 <= i < |blocks| :: |blocks[i]| == f.BlockSize()
    ensures |Sent(f, blocks)| == Offset(Offset(|blocks|, f.Frames()), f.BytesPerFrame())
    decreases |blocks|
  {
    if blocks == [] {
    } else {
      var n, frames := |blocks[1..]|, f.Frames();
      SentLength(f, blocks[1..]);
      assert Offset(n + 1, frames) == Offset(n, frames) + frames;
      OffsetAdds(Offset(n, frames), frames, f.BytesPerFrame());
    }
  }

  lemma WholePeriods(f: Format, file: seq<uint8>, left: nat, chunk: nat)
    requires f.Valid() && chunk > 0
    ensures exists frames: nat {:trigger Offset(frames, f.BytesPerFrame())} ::
              frames % chunk == 0 && |Everything(f, file, left, chunk)| == Offset(frames, f.BytesPerFrame())
  {
    var blocks := Blocks(file, left, f.BlockSize());
    var written := Offset(|blocks|, f.Frames());
    SentLength(f, blocks);
    PaddingCompletes(written, chunk);
    OffsetAdds(written, Padding(written, chunk), f.BytesPerFrame());
  }

  /** read_full, of what is left in the file, and the padding of a short block. */
  method ReadBlock(file: seq<uint8>, readsize: nat, buffer: array<uint8>) returns (r: nat)
    requires readsize <= buffer.Length
    modifies buffer
    ensures r == Min(readsize, |file|) && buffer[..] == Padded(file[..r], buffer.Length)
  {
    r := Min(readsize, |file|);
    var i := 0;
    while i < buffer.Length
      invariant 0 <= i <= buffer.Length
      invariant forall k | 0 <= k < i :: buffer[k] == if k < r then file[k] else 0
    {
      buffer[i] := if i < r then file[i] else 0;
      i := i + 1;
    }
  }

  /** What happens to a block between reading and writing. */
  method RenderBlock(f: Format, buffer: array<uint8>, dest: array<uint8>)
    requires f.Valid() && buffer != dest && buffer.Length == dest.Length == f.BlockSize()
    modifies buffer, dest
    ensures dest[..] == f.Rendered(old(buffer[..]))
  {
    Regroup(f.channels, f.bytes, f.Frames());
    if f.reversed { BitReverseBuffer(buffer); }
    if f.planar {
      InterleaveDsfBlock(dest, buffer, f.channels, f.length, f.bytes);
    } else {
      InterleaveDffBlock(dest, buffer, f.channels, f.length, f.bytes);
    }
  }

  lemma BlocksNext(file: seq<uint8>, left: nat, size: nat, r: nat)
    requires size > 0 && r == Min(Min(left, size), |file|)
    ensures Blocks(file, left, size) == if r == 0 then [] else [Padded(file[..r], size)] + Blocks(file[r..], left - r, size)
  {}

  lemma SentNext(f: Format, first: seq<uint8>, rest: seq<seq<uint8>>)
    requires f.Valid() && |first| == f.BlockSize() && forall i | 0 <= i < |rest| :: |rest[i]| == f.BlockSize()
    ensures Sent(f, [first] + rest) == f.Rendered(first) + Sent(f, rest)
  {
    assert ([first] + rest)[1..] == rest;
  }

  /** The next part, as far as it was accepted, continues a prefix of everything. */
  lemma Continues(done: seq<uint8>, next: seq<uint8>, n: nat, later: seq<uint8>, full: seq<uint8>)
    requires n <= |next| && done + (next + later) == full
    ensures done + next[..n] <= full
    ensures n == |next| ==> (done + next[..n]) + later == full
  {}

  /** Renders and writes one block, before whatever comes later. */
  method SendBlock(f: Format, buffer: array<uint8>, sink: Sink, ghost later: seq<uint8>, ghost full: seq<uint8>)
    returns (outcome: Outcome)
    requires f.Valid() && buffer.Length == f.BlockSize()
    requires sink.accepted + (f.Rendered(buffer[..]) + later) == full
    modifies sink, buffer
    ensures sink.accepted <= full && (outcome == Returned ==> sink.accepted + later == full)
  {
    ghost var done, block := sink.accepted, buffer[..];
    var dest := new uint8[f.BlockSize()];
    RenderBlock(f, buffer, dest);
    var result;
    outcome, result := PcmWrite(sink, dest, f.Frames(), f.BytesPerFrame());
    Continues(done, f.Rendered(block), Offset(result, f.BytesPerFrame()), later, full);
  }

  /** All that is still to be sent: the blocks left, and the silence after them. */
  function Remaining(f: Format, file: seq<uint8>, left: nat, tail: seq<uint8>): seq<uint8>
    requires f.Valid()
  {
    Sent(f, Blocks(file, left, f.BlockSize())) + tail
  }

  /** The next block of r bytes comes first. */
  lemma RemainingNext(f: Format, file: seq<uint8>, left: nat, tail: seq<uint8>, r: nat)
    requires f.Valid() && r == Min(Min(left, f.BlockSize()), |file|)
    ensures Remaining(f, file, left, tail)
            == if r == 0 then tail
               else f.Rendered(Padded(file[..r], f.BlockSize())) + Remaining(f, file[r..], left - r, tail)
  {
    var size := f.BlockSize();
    BlocksNext(file, left, size, r);
    if r > 0 { SentNext(f, Padded(file[..r], size), Blocks(file[r..], left - r, size)); }
  }

  /** Reads a block and sends it. */
  method PlayBlock(f: Format, file: seq<uint8>, leftsize: nat, sink: Sink, ghost tail: seq<uint8>, ghost full: seq<uint8>)
    returns (r: nat, outcome: Outcome)
    requires f.Valid()
    requires sink.accepted + Remaining(f, file, leftsize, tail) == full
    modifies sink
    ensures r == Min(Min(leftsize, f.BlockSize()), |file|) && (r == 0 ==> outcome == Returned)
    ensures sink.accepted <= full
    ensures outcome == Returned ==> sink.accepted + Remaining(f, file[r..], leftsize - r, tail) == full
    ensures |Blocks(file, leftsize, f.BlockSize())|
            == |Blocks(file[r..], leftsize - r, f.BlockSize())| + if r == 0 then 0 else 1
  {
    var size := f.BlockSize();
    var readsize := if leftsize >= size then size else leftsize;
    var buffer := new uint8[size];
    r := ReadBlock(file, readsize, buffer);
    RemainingNext(f, file, leftsize, tail, r);
    BlocksNext(file, leftsize, size, r);
    outcome := Returned;
    if r > 0 {
      outcome := SendBlock(f, buffer, sink, Remaining(f, file[r..], leftsize - r, tail), full);
    } else {
      assert file[r..] == file;
    }
  }

  /** The silence that completes the last period. */
  method PlayPadding(f: Format, writesize: nat, chunk: nat, sink: Sink, ghost full: seq<uint8>) returns (outcome: Outcome)
    requires f.Valid() && chunk > 0
    requires sink.accepted + Zeros(Offset(Padding(writesize, chunk), f.BytesPerFrame())) == full
    modifies sink
    ensures sink.accepted <= full && (outcome == Returned ==> sink.accepted == full)
  {
    outcome := Returned;
    if writesize % chunk != 0 {
      var frames := chunk - writesize % chunk;
      var zeroBuf := new uint8[Offset(frames, f.BytesPerFrame())](_ => 0);
      ghost var done := sink.accepted;
      assert zeroBuf[..] == Zeros(Offset(frames, f.BytesPerFrame()));
      var result;
      outcome, result := PcmWrite(sink, zeroBuf, frames, f.BytesPerFrame());
      Continues(done, zeroBuf[..], Offset(result, f.BytesPerFrame()), [], full);
    } else {
      assert sink.accepted == full;
    }
  }

  /** The main loop. */
  method PlayBlocks(f: Format, file: seq<uint8>, dataSize: nat, sink: Sink, ghost tail: seq<uint8>, ghost full: seq<uint8>)
    returns (outcome: Outcome, writesize: nat)
    requires f.Valid()
    requires sink.accepted + Remaining(f, file, dataSize, tail) == full
    modifies sink
    ensures sink.accepted <= full
    ensures outcome == Returned ==> sink.accepted + tail == full
    ensures outcome == Returned ==> writesize == Offset(|Blocks(file, dataSize, f.BlockSize())|, f.Frames())
  {
    ghost var total, count := |Blocks(file, dataSize, f.BlockSize())|, 0;
    var unread, leftsize, frames := file, dataSize, f.Frames();
    outcome, writesize := Returned, 0;
    while leftsize > 0
      invariant leftsize >= 0 && outcome == Returned
      invariant sink.accepted + Remaining(f, unread, leftsize, tail) == full
      invariant count + |Blocks(unread, leftsize, f.BlockSize())| == total
      invariant writesize == Offset(count, frames)
      decreases leftsize
    {
      var r;
      r, outcome := PlayBlock(f, unread, leftsize, sink, tail, full);
      if outcome != Returned { return; }
      if r == 0 { break; }
      leftsize := leftsize - r;
      unread := unread[r..];
      assert Offset(count + 1, frames) == Offset(count, frames) + frames;
      writesize := writesize + frames;
      count := count + 1;
    }
    NothingRemains(f, unread, leftsize, tail);
  }

  lemma NothingRemains(f: Format, file: seq<uint8>, left: nat, tail: seq<uint8>)
    requires f.Valid() && (left == 0 || file == [])
    ensures Remaining(f, file, left, tail) == tail && Blocks(file, left, f.BlockSize()) == []
  {}

  /** Playing a file: whatever the sink does, it has accepted a prefix of everything there is to send, and
      all of it if the run completes. */
  method Play(f: Format, file: seq<uint8>, dataSize: nat, chunk: nat, sink: Sink) returns (outcome: Outcome)
    requires f.Valid() && chunk > 0
    modifies sink
    ensures outcome == Returned ==> sink.accepted == old(sink.accepted) + Everything(f, file, dataSize, chunk)
    ensures sink.accepted <= old(sink.accepted) + Everything(f, file, dataSize, chunk)
  {
    ghost var full := sink.accepted + Everything(f, file, dataSize, chunk);
    ghost var total := Offset(|Blocks(file, dataSize, f.BlockSize())|, f.Frames());
    ghost var tail := Zeros(Offset(Padding(total, chunk), f.BytesPerFrame()));
    var writesize;
    outcome, writesize := PlayBlocks(f, file, dataSize, sink, tail, full);
    if outcome == Returned {
      outcome := PlayPadding(f, writesize, chunk, sink, full);
    }
  }
}
