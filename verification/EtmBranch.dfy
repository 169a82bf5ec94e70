/** Delta-compressed branch addresses: an encoder, and the proof that get_branch_addr undoes it. */
module EtmBranch {
  import opened BitWords
  import opened EtmModel
  import opened EtmPackets
  import opened EtmTables

  datatype Target = Target(addr: Word, mode: Mode) {
    /** Instruction addresses are multiples of the instruction size. */
    predicate Aligned() {
      forall i | 0 <= i < mode :: !addr[i]
    }

    /** The address without the bits that are always zero. */
    function Units(): Word {
      Right(addr, mode)
    }
  }

  /** How many low bits of Units() a packet of k bytes carries. */
  function Covered(k: nat, alt: bool): nat
    requires 1 <= k <= 5
  {
    if k == 1 then 6 else if k == 5 then 32 else if alt then 7 * k - 2 else 7 * k - 1
  }

  /** A packet of k bytes takes the decoder from one target to another: the bits it does not carry
      are unchanged, so is the mode unless all five bytes are sent, and there is room for the
      exception bit. */
  predicate Suffices(k: nat, from: Target, to: Target, exception: bool, alt: bool)
    requires 1 <= k <= 5
  {
    && (forall i | Covered(k, alt) <= i < 32 :: to.Units()[i] == from.Units()[i])
    && (k < 5 ==> to.mode == from.mode)
    && (exception ==> k == 5 || (alt && k > 1))
  }

  /** The shortest packet that does. */
  function Length(from: Target, to: Target, exception: bool, alt: bool): (k: nat)
    ensures 1 <= k <= 5 && Suffices(k, from, to, exception, alt)
    ensures forall j | 1 <= j < k :: !Suffices(j, from, to, exception, alt)
  {
    if Suffices(1, from, to, exception, alt) then 1
    else if Suffices(2, from, to, exception, alt) then 2
    else if Suffices(3, from, to, exception, alt) then 3
    else if Suffices(4, from, to, exception, alt) then 4
    else 5
  }

  /** The fifth byte: the top address bits, a marker for the mode, and the exception bit. */
  function FifthByte(to: Target, exception: bool): Byte {
    var u := to.Units();
    match to.mode
    case 2 => [u[27], u[28], u[29], true, false, false, exception, false]
    case 1 => [u[27], u[28], u[29], u[30], true, false, exception, false]
    case _ => [u[27], u[28], u[29], u[30], u[31], true, exception, false]
  }

  /** Byte i of a packet of k bytes. */
  function BranchByte(i: nat, k: nat, to: Target, exception: bool, alt: bool): Byte
    requires i < k <= 5
  {
    var u := to.Units();
    if i == 0 then [true] + u[0..6] + [k > 1]
    else if i == 4 then FifthByte(to, exception)
    else if i + 1 < k then u[7 * i - 1..7 * i + 6] + [true]
    else if alt then u[7 * i - 1..7 * i + 5] + [exception, false]
    else u[7 * i - 1..7 * i + 6] + [false]
  }

  /** Bytes i..k of the packet. */
  function BranchBytes(i: nat, k: nat, to: Target, exception: bool, alt: bool): (b: seq<Byte>)
    requires i <= k <= 5
    ensures |b| == k - i
    decreases k - i
  {
    if i == k then [] else [BranchByte(i, k, to, exception, alt)] + BranchBytes(i + 1, k, to, exception, alt)
  }

  /** The decoder's partial address after bytes 0..i agrees with the target on what they carry. */
  predicate Agrees(addr: Word, from: Target, to: Target, i: nat)
    requires 1 <= i <= 5
  {
    forall j | 0 <= j < 32 :: addr[j] == if j < 7 * i - 1 then to.Units()[j] else from.Units()[j]
  }

  function Partial(from: Target, to: Target, i: nat): (addr: Word)
    requires 1 <= i <= 5
    ensures Agrees(addr, from, to, i)
  {
    seq(32, j requires 0 <= j < 32 => if j < 7 * i - 1 then to.Units()[j] else from.Units()[j])
  }

  lemma GroupAgrees(addr: Word, from: Target, to: Target, i: nat, k: nat, exception: bool, alt: bool)
    requires 1 <= i < 4 && i + 1 < k <= 5 && Agrees(addr, from, to, i)
    ensures var b := BranchByte(i, k, to, exception, alt);
            b[7] && Agrees(Put(addr, 7 * i - 1, b[..7]), from, to, i + 1)
  {
    var b, u := BranchByte(i, k, to, exception, alt), to.Units();
    assert b == u[7 * i - 1..7 * i + 6] + [true];
    assert b[..7] == u[7 * i - 1..7 * i + 6];
  }

  /** The last byte of a packet of two to four bytes. */
  lemma LastAgrees(addr: Word, from: Target, to: Target, i: nat, exception: bool, alt: bool)
    requires 1 <= i < 4 && Agrees(addr, from, to, i) && Suffices(i + 1, from, to, exception, alt)
    ensures var b := BranchByte(i, i + 1, to, exception, alt);
            !b[7] && Put(addr, 7 * i - 1, b[..if alt then 6 else 7]) == to.Units()
            && (alt ==> b[6] == exception)
  {
    var b, u := BranchByte(i, i + 1, to, exception, alt), to.Units();
    if alt {
      assert b == u[7 * i - 1..7 * i + 5] + [exception, false];
      assert b[..6] == u[7 * i - 1..7 * i + 5];
    } else {
      assert b == u[7 * i - 1..7 * i + 6] + [false];
      assert b[..7] == u[7 * i - 1..7 * i + 6];
    }
  }

  /** The fifth byte. */
  lemma FifthAgrees(addr: Word, from: Target, to: Target, exception: bool, width: nat)
    requires Agrees(addr, from, to, 4) && 6 <= width <= 7
    ensures var b := FifthByte(to, exception);
            && !b[7] && b[6] == exception && FifthByteMode(b) == to.mode
            && Left(Put(addr, 27, b[..width]), to.mode) == Left(to.Units(), to.mode)
  {
    FifthBits(addr, from, to, exception, width);
    SameLeft(Put(addr, 27, FifthByte(to, exception)[..width]), to.Units(), to.mode);
  }

  /** The bits that it carries, as many as the mode leaves. */
  lemma FifthBits(addr: Word, from: Target, to: Target, exception: bool, width: nat)
    requires Agrees(addr, from, to, 4) && 6 <= width <= 7
    ensures var p := Put(addr, 27, FifthByte(to, exception)[..width]);
            forall j | 0 <= j < 32 - to.mode :: p[j] == to.Units()[j]
  {
    var b := FifthByte(to, exception);
    var p := Put(addr, 27, b[..width]);
    forall j | 0 <= j < 32 - to.mode ensures p[j] == to.Units()[j] {
      if j >= 27 { assert p[j] == b[j - 27]; }
    }
  }

  lemma SameLeft(x: Word, y: Word, k: nat)
    requires forall j | 0 <= j < 32 - k :: x[j] == y[j]
    ensures Left(x, k) == Left(y, k)
  {}

  lemma UnitsRestore(to: Target)
    requires to.Aligned()
    ensures Left(to.Units(), to.mode) == to.addr
  {}

  /** What the partial address must be after bytes 0..i of a packet of k bytes. */
  predicate Progress(addr: Word, i: nat, k: nat, from: Target, to: Target)
    requires 1 <= i <= k <= 5
  {
    if i < k then Agrees(addr, from, to, i)
    else if k < 5 then addr == to.Units()
    else Left(addr, to.mode) == Left(to.Units(), to.mode)
  }

  lemma NextProgress(cfg: Config, addr: Word, i: nat, k: nat, from: Target, to: Target, exception: bool)
    requires 1 <= i < k <= 5 && Suffices(k, from, to, exception, cfg.altBranch) && Agrees(addr, from, to, i)
    ensures var b := BranchByte(i, k, to, exception, cfg.altBranch);
            Progress(Put(addr, 7 * i - 1, b[..GroupWidth(cfg, b)]), i + 1, k, from, to)
  {
    if i + 1 < k {
      GroupAgrees(addr, from, to, i, k, exception, cfg.altBranch);
    } else if i < 4 {
      LastAgrees(addr, from, to, i, exception, cfg.altBranch);
    } else {
      FifthAgrees(addr, from, to, exception, GroupWidth(cfg, BranchByte(i, k, to, exception, cfg.altBranch)));
    }
  }

  /** One turn of the group loop. */
  lemma GroupStep(cfg: Config, s: State, addr: Word, i: nat, b: Byte, more: seq<Byte>)
    requires !s.exited && 1 <= i < 5 && s.data[7] && s.input == [b] + more
    ensures BranchGroups(cfg, s, addr, i)
            == BranchGroups(cfg, s.(input := more, data := b), Put(addr, 7 * i - 1, b[..GroupWidth(cfg, b)]), i + 1)
  {
    NextByte(s, b, more);
  }

  lemma FirstByte(i: nat, k: nat, to: Target, exception: bool, alt: bool, rest: seq<Byte>)
    requires i < k <= 5
    ensures BranchBytes(i, k, to, exception, alt) + rest
            == [BranchByte(i, k, to, exception, alt)] + (BranchBytes(i + 1, k, to, exception, alt) + rest)
  {}

  lemma EarlierByteContinues(i: nat, k: nat, to: Target, exception: bool, alt: bool)
    requires 1 <= i < k <= 5
    ensures BranchByte(i - 1, k, to, exception, alt)[7]
  {}

  /** One turn, over byte i of a packet: the decoder's next state and partial address. */
  lemma PacketStep(cfg: Config, s: State, addr: Word, i: nat, k: nat, from: Target, to: Target, exception: bool,
                   rest: seq<Byte>) returns (t: State, next: Word)
    requires !s.exited && 1 <= i < k <= 5 && Suffices(k, from, to, exception, cfg.altBranch)
    requires s.input == BranchBytes(i, k, to, exception, cfg.altBranch) + rest
    requires s.data == BranchByte(i - 1, k, to, exception, cfg.altBranch) && Agrees(addr, from, to, i)
    ensures t == s.(input := BranchBytes(i + 1, k, to, exception, cfg.altBranch) + rest,
                    data := BranchByte(i, k, to, exception, cfg.altBranch))
    ensures BranchGroups(cfg, s, addr, i) == BranchGroups(cfg, t, next, i + 1)
    ensures Progress(next, i + 1, k, from, to)
  {
    var b, more := BranchByte(i, k, to, exception, cfg.altBranch),
                   BranchBytes(i + 1, k, to, exception, cfg.altBranch) + rest;
    EarlierByteContinues(i, k, to, exception, cfg.altBranch);
    FirstByte(i, k, to, exception, cfg.altBranch, rest);
    GroupStep(cfg, s, addr, i, b, more);
    NextProgress(cfg, addr, i, k, from, to, exception);
    t := s.(input := more, data := b);
    next := Put(addr, 7 * i - 1, b[..GroupWidth(cfg, b)]);
  }

  /** Running the group loop over bytes i..k of a packet. */
  lemma {:induction false} GroupsDecode(cfg: Config, s: State, addr: Word, i: nat, k: nat, from: Target, to: Target,
                                        exception: bool, rest: seq<Byte>)
    requires !s.exited && 1 <= i <= k <= 5 && Suffices(k, from, to, exception, cfg.altBranch)
    requires s.input == BranchBytes(i, k, to, exception, cfg.altBranch) + rest
    requires s.data == BranchByte(i - 1, k, to, exception, cfg.altBranch)
    requires Progress(addr, i, k, from, to)
    ensures var g := BranchGroups(cfg, s, addr, i);
            && g.count == k && Left(g.addr, to.mode) == Left(to.Units(), to.mode)
            && Reaches(g.state, s.track, rest) && g.state.data == BranchByte(k - 1, k, to, exception, cfg.altBranch)
    decreases k - i
  {
    if i == k {
      GroupsEnd(cfg, s, addr, k, to, exception, rest);
    } else {
      var t, next := PacketStep(cfg, s, addr, i, k, from, to, exception, rest);
      GroupsDecode(cfg, t, next, i + 1, k, from, to, exception, rest);
    }
  }

  lemma GroupsEnd(cfg: Config, s: State, addr: Word, k: nat, to: Target, exception: bool, rest: seq<Byte>)
    requires !s.exited && 1 <= k <= 5
    requires s.input == BranchBytes(k, k, to, exception, cfg.altBranch) + rest
    requires s.data == BranchByte(k - 1, k, to, exception, cfg.altBranch)
    ensures BranchGroups(cfg, s, addr, k) == Addressing(s, addr, k) && s.input == rest
  {
    assert s.input == rest;
    if k < 5 { LastByteStops(k, to, exception, cfg.altBranch); }
  }

  lemma LastByteStops(k: nat, to: Target, exception: bool, alt: bool)
    requires 1 <= k < 5
    ensures !BranchByte(k - 1, k, to, exception, alt)[7]
  {}

  /** get_branch_addr undoes the encoder: it recovers the target, the mode and the exception bit, and
      consumes exactly the packet's bytes. The header byte has already been fetched. */
  lemma BranchAddrRoundTrip(cfg: Config, s: State, k: nat, to: Target, exception: bool, rest: seq<Byte>)
    requires !s.exited && to.Aligned() && 1 <= k <= 5
    requires Suffices(k, Current(s.track), to, exception, cfg.altBranch)
    requires s.data == BranchByte(0, k, to, exception, cfg.altBranch)
    requires s.input == BranchBytes(1, k, to, exception, cfg.altBranch) + rest
    ensures var b := GetBranchAddr(cfg, s);
            b.exception == exception && Reaches(b.state, TakeBranch(cfg, s.track, to.addr, to.mode, exception), rest)
  {
    var addr := Put(Right(s.track.iaddr, s.track.mode), 0, s.data[1..7]);
    FirstGroup(cfg, s, k, to, exception);
    GroupsDecode(cfg, s, addr, 1, k, Current(s.track), to, exception, rest);
    UnitsRestore(to);
    LastByteFlags(cfg, k, Current(s.track), to, exception);
  }

  /** Where the decoder stands. */
  function Current(t: Track): Target {
    Target(t.iaddr, t.mode)
  }

  /** The address bits of the header byte. */
  lemma FirstGroup(cfg: Config, s: State, k: nat, to: Target, exception: bool)
    requires 1 <= k <= 5
    requires Suffices(k, Current(s.track), to, exception, cfg.altBranch)
    requires s.data == BranchByte(0, k, to, exception, cfg.altBranch)
    ensures var addr := Put(Right(s.track.iaddr, s.track.mode), 0, s.data[1..7]);
            if k == 1 then addr == to.Units() else Agrees(addr, Current(s.track), to, 1)
  {
    assert s.data[1..7] == to.Units()[0..6];
  }

  /** The exception test on the last byte. */
  lemma LastByteFlags(cfg: Config, k: nat, from: Target, to: Target, exception: bool)
    requires 1 <= k <= 5 && Suffices(k, from, to, exception, cfg.altBranch)
    ensures var b := BranchByte(k - 1, k, to, exception, cfg.altBranch);
            && (((k == 5 || (cfg.altBranch && k > 1)) && b[6]) == exception)
            && (k == 5 ==> FifthByteMode(b) == to.mode)
  {
    if 1 < k < 5 { LastAgrees(Partial(from, to, k - 1), from, to, k - 1, exception, cfg.altBranch); }
  }

  // ---------- exception bytes ----------

  /** The bytes after a branch that is an exception: one, or two if the first has its top bit set. */
  predicate ExceptionInfo(info: seq<Byte>) {
    info != [] ==> |info| == if info[0][7] then 2 else 1
  }

  /** Two bytes are printed combined. */
  function InfoShown(info: seq<Byte>): seq<Byte> {
    if |info| == 2 then [OrByte(info[0], info[1])] else info
  }

  /** A branch, by the shortest packet that takes the decoder from where it stands to the target. */
  function BranchPacket(from: Target, to: Target, info: seq<Byte>, alt: bool): (b: seq<Byte>) {
    BranchBytes(0, Length(from, to, info != [], alt), to, info != [], alt) + info
  }

  lemma HeaderFirst(from: Target, to: Target, info: seq<Byte>, alt: bool, rest: seq<Byte>) returns (k: nat)
    ensures k == Length(from, to, info != [], alt) && BranchByte(0, k, to, info != [], alt)[0]
    ensures BranchPacket(from, to, info, alt) + rest
            == [BranchByte(0, k, to, info != [], alt)] + (BranchBytes(1, k, to, info != [], alt) + (info + rest))
  {
    k := Length(from, to, info != [], alt);
    var first, tail := BranchByte(0, k, to, info != [], alt), BranchBytes(1, k, to, info != [], alt);
    assert BranchBytes(0, k, to, info != [], alt) == [first] + tail;
    Associate([first], tail, info, rest);
  }

  lemma Associate(a: seq<Byte>, b: seq<Byte>, c: seq<Byte>, d: seq<Byte>)
    ensures ((a + b) + c) + d == a + (b + (c + d))
  {}

  /** A branch and its exception bytes, from the second byte on. */
  lemma BranchRoundTrip(cfg: Config, s: State, k: nat, to: Target, info: seq<Byte>, rest: seq<Byte>)
    requires !s.exited && to.Aligned() && ExceptionInfo(info) && 1 <= k <= 5
    requires Suffices(k, Current(s.track), to, info != [], cfg.altBranch)
    requires s.data == BranchByte(0, k, to, info != [], cfg.altBranch)
    requires s.input == BranchBytes(1, k, to, info != [], cfg.altBranch) + (info + rest)
    ensures Reaches(Branch(cfg, s), Emit(TakeBranch(cfg, s.track, to.addr, to.mode, info != []),
                                         BranchLine(to.addr, InfoShown(info))), rest)
  {
    BranchAddrRoundTrip(cfg, s, k, to, info != [], info + rest);
    if info == [] {
      assert info + rest == rest;
    } else {
      ExceptionDecodes(GetBranchAddr(cfg, s).state, info, rest);
    }
  }

  lemma ExceptionDecodes(s: State, info: seq<Byte>, rest: seq<Byte>)
    requires !s.exited && info != [] && ExceptionInfo(info) && s.input == info + rest
    ensures Reaches(ExceptionBytes(s), Emit(s.track, BranchLine(s.track.iaddr, InfoShown(info))), rest)
  {
    assert s.input == [info[0]] + (info[1..] + rest);
    NextByte(s, info[0], info[1..] + rest);
    if |info| == 2 {
      assert info[1..] + rest == [info[1]] + rest;
      NextByte(GetByte(s), info[1], rest);
    } else {
      assert info[1..] + rest == rest;
      assert InfoShown(info) == [info[0]];
    }
  }

  /** A waypoint of the program-flow protocol: a branch address of its own, and at most one byte of information. */
  lemma WaypointRoundTrip(cfg: Config, s: State, to: Target, info: seq<Byte>, rest: seq<Byte>)
    requires !s.exited && to.Aligned() && |info| <= 1
    requires s.input == BranchPacket(Current(s.track), to, info, cfg.altBranch) + rest
    ensures Reaches(Waypoint(cfg, s), Emit(TakeBranch(cfg, s.track, to.addr, to.mode, info != []),
                                           WaypointLine(to.addr, info)), rest)
  {
    var k := HeaderFirst(Current(s.track), to, info, cfg.altBranch, rest);
    var first := BranchByte(0, k, to, info != [], cfg.altBranch);
    var more := BranchBytes(1, k, to, info != [], cfg.altBranch) + (info + rest);
    NextByte(s, first, more);
    var g := s.(input := more, data := first);
    BranchAddrRoundTrip(cfg, g, k, to, info != [], info + rest);
    InfoByte(GetBranchAddr(cfg, g).state, info, rest);
  }

  /** At most one byte of information. */
  lemma InfoByte(s: State, info: seq<Byte>, rest: seq<Byte>)
    requires !s.exited && |info| <= 1 && s.input == info + rest
    ensures if info == [] then s.input == rest else info == [info[0]] && GetByte(s) == s.(input := rest, data := info[0])
  {
    if info == [] {
      assert info + rest == rest;
    } else {
      assert info == [info[0]];
      NextByte(s, info[0], rest);
    }
  }
}
