/** Delta-compressed timestamps: an encoder that sends the shortest prefix of groups that changes, and
    the proof that the decoder recovers every value. */
module EtmTimestamp {
  import opened BitWords
  import opened EtmModel
  import opened EtmPackets
  import opened EtmTables

  /** How many low bits of a timestamp k bytes carry; the ninth byte carries eight. */
  function Carried(k: nat): nat
    requires k <= 9
  {
    if k == 9 then 64 else 7 * k
  }

  predicate Suffices(k: nat, from: Stamp, to: Stamp)
    requires 1 <= k <= 9
  {
    forall j | Carried(k) <= j < 64 :: to[j] == from[j]
  }

  /** The least number of bytes, no less than k, that takes one timestamp to another. */
  function Length(k: nat, from: Stamp, to: Stamp): (n: nat)
    requires 1 <= k <= 9
    ensures k <= n <= 9 && Suffices(n, from, to)
    ensures forall j | k <= j < n :: !Suffices(j, from, to)
    decreases 9 - k
  {
    if Suffices(k, from, to) then k else assert k != 9; Length(k + 1, from, to)
  }

  /** Byte i of k. */
  function StampByte(i: nat, k: nat, to: Stamp): Byte
    requires i < k <= 9
  {
    if i == 8 then to[56..64] else to[7 * i..7 * i + 7] + [i + 1 < k]
  }

  /** Bytes i..k. */
  function StampBytes(i: nat, k: nat, to: Stamp): (b: seq<Byte>)
    requires i <= k <= 9
    ensures |b| == k - i
    decreases k - i
  {
    if i == k then [] else [StampByte(i, k, to)] + StampBytes(i + 1, k, to)
  }

  /** A timestamp in the fewest groups. */
  function Delta(from: Stamp, to: Stamp): seq<Byte> {
    StampBytes(0, Length(1, from, to), to)
  }

  /** The first i groups are the target's, the others still the old ones. */
  predicate Agrees(stamp: Stamp, from: Stamp, to: Stamp, i: nat)
    requires i <= 9
  {
    forall j | 0 <= j < 64 :: stamp[j] == if j < Carried(i) then to[j] else from[j]
  }

  lemma ByteAgrees(stamp: Stamp, from: Stamp, to: Stamp, i: nat, k: nat)
    requires i < k <= 9 && Agrees(stamp, from, to, i)
    ensures Agrees(Put(stamp, 7 * i, StampByte(i, k, to)[..if i == 8 then 8 else 7]), from, to, i + 1)
  {
    var b := StampByte(i, k, to);
    if i == 8 {
      assert b[..8] == to[56..64];
    } else {
      assert b[..7] == to[7 * i..7 * i + 7];
    }
  }

  lemma AllAgree(stamp: Stamp, from: Stamp, to: Stamp, k: nat)
    requires 1 <= k <= 9 && Agrees(stamp, from, to, k) && Suffices(k, from, to)
    ensures stamp == to
  {}

  lemma Continues(i: nat, k: nat, to: Stamp)
    requires i < k <= 9 && i < 8
    ensures StampByte(i, k, to)[7] == (i + 1 < k)
  {}

  lemma FirstByte(i: nat, k: nat, to: Stamp, rest: seq<Byte>)
    requires i < k <= 9
    ensures StampBytes(i, k, to) + rest == [StampByte(i, k, to)] + (StampBytes(i + 1, k, to) + rest)
  {}

  /** One turn of the decoder's loop. */
  lemma StampStep(s: State, stamp: Stamp, i: nat, b: Byte, more: seq<Byte>)
    requires !s.exited && i < 9 && s.input == [b] + more
    ensures var t, next := s.(input := more, data := b), Put(stamp, 7 * i, b[..if i == 8 then 8 else 7]);
            StampGroups(s, stamp, i) == if !b[7] || i == 8 then Counting(t, next) else StampGroups(t, next, i + 1)
  {
    NextByte(s, b, more);
  }

  /** Which byte ends the loop, and what the stamp is then. */
  lemma ByteMeans(stamp: Stamp, i: nat, k: nat, from: Stamp, to: Stamp)
    requires i < k <= 9 && Suffices(k, from, to) && Agrees(stamp, from, to, i)
    ensures var b := StampByte(i, k, to);
            var next := Put(stamp, 7 * i, b[..if i == 8 then 8 else 7]);
            && (!b[7] || i == 8) == (i + 1 == k)
            && if i + 1 == k then next == to else Agrees(next, from, to, i + 1)
  {
    var b := StampByte(i, k, to);
    ByteAgrees(stamp, from, to, i, k);
    if i < 8 { Continues(i, k, to); }
    if i + 1 == k { AllAgree(Put(stamp, 7 * i, b[..if i == 8 then 8 else 7]), from, to, k); }
  }

  /** One turn, over byte i of k: the decoder's next state and partial timestamp. */
  lemma StampTaken(s: State, stamp: Stamp, i: nat, k: nat, from: Stamp, to: Stamp, rest: seq<Byte>)
      returns (t: State, next: Stamp)
    requires !s.exited && i < k <= 9 && Suffices(k, from, to) && Agrees(stamp, from, to, i)
    requires s.input == StampBytes(i, k, to) + rest
    ensures Reaches(t, s.track, StampBytes(i + 1, k, to) + rest)
    ensures if i + 1 == k then StampGroups(s, stamp, i) == Counting(t, to)
            else StampGroups(s, stamp, i) == StampGroups(t, next, i + 1) && Agrees(next, from, to, i + 1)
  {
    var b, more := StampByte(i, k, to), StampBytes(i + 1, k, to) + rest;
    FirstByte(i, k, to, rest);
    StampStep(s, stamp, i, b, more);
    ByteMeans(stamp, i, k, from, to);
    t, next := s.(input := more, data := b), Put(stamp, 7 * i, b[..if i == 8 then 8 else 7]);
  }

  /** The decoder's loop over bytes i..k. */
  lemma {:induction false} GroupsDecode(s: State, stamp: Stamp, i: nat, k: nat, from: Stamp, to: Stamp, rest: seq<Byte>)
    requires !s.exited && i < k <= 9 && Suffices(k, from, to) && Agrees(stamp, from, to, i)
    requires s.input == StampBytes(i, k, to) + rest
    ensures var g := StampGroups(s, stamp, i); g.value == to && Reaches(g.state, s.track, rest)
    decreases k - i
  {
    var t, next := StampTaken(s, stamp, i, k, from, to, rest);
    if i + 1 == k {
      assert StampBytes(k, k, to) + rest == rest;
    } else {
      GroupsDecode(t, next, i + 1, k, from, to, rest);
    }
  }

  /** Header byte 0x42, with the rate-change flag in bit 2. */
  function HeaderByte(r: bool): Byte {
    [false, true, r, false, false, false, true, false]
  }

  function Stamped(t: Track, to: Stamp, r: bool): Track {
    Emit(t.(timestamp := to), TimestampLine(to, r))
  }

  /** A timestamp sent as any prefix of groups that suffices becomes the decoder's, and is printed. */
  lemma TimestampRoundTrip(s: State, k: nat, to: Stamp, r: bool, rest: seq<Byte>)
    requires !s.exited && 1 <= k <= 9 && Suffices(k, s.track.timestamp, to)
    requires s.data == HeaderByte(r) && s.input == StampBytes(0, k, to) + rest
    ensures Reaches(Timestamp(s), Stamped(s.track, to, r), rest)
  {
    GroupsDecode(s, s.track.timestamp, 0, k, s.track.timestamp, to, rest);
  }
}
