/** What every step of the decoder keeps: its program counter and its wait counter agree with what has been
    printed. */
module EtmSound {
  import opened BitWords
  import opened EtmModel
  import opened EtmPackets

  // ---------- what the log says about waiting and addresses ----------

  /** Wait cycles reported so far. */
  function Reported(log: Log): nat {
    match log
    case Start => 0
    case Then(p, Insn(_, _, _, waited)) => Reported(p) + waited
    case Then(p, EndWaited(n)) => Reported(p) + n
    case Then(p, _) => Reported(p)
  }

  function Waits(cycles: seq<Cycle>): nat {
    if cycles == [] then 0 else (if cycles[0].W? then 1 else 0) + Waits(cycles[1..])
  }

  /** Wait cycles in the P-headers decoded so far. */
  function Received(cfg: Config, log: Log): nat {
    match log
    case Start => 0
    case Then(p, Header(h)) => Received(cfg, p) + Waits(HeaderCycles(cfg, h))
    case Then(p, _) => Received(cfg, p)
  }

  /** The address and mode of the last address packet. */
  function LastAddr(log: Log): Word {
    if log.Start? then NoAddr()
    else if log.event.Retarget? then log.event.addr
    else LastAddr(log.before)
  }

  function LastMode(log: Log): Mode {
    if log.Start? then 0
    else if log.event.Retarget? then log.event.mode
    else LastMode(log.before)
  }

  /** Instructions printed since then. */
  function Since(log: Log): nat {
    match log
    case Start => 0
    case Then(_, Retarget(_, _)) => 0
    case Then(p, Insn(_, _, _, _)) => Since(p) + 1
    case Then(p, _) => Since(p)
  }

  /** The address n instructions past a, as a 32-bit program counter computes it. */
  function AddrAhead(a: Word, n: nat, mode: Mode): nat {
    if n == 0 then ToNat(a) else PcAfter(AddrAhead(a, n - 1, mode), mode)
  }

  /** Where the next instruction is, as far as the log tells: in ETM mode past the instructions
      already printed, in program-flow mode still at the last address. */
  function NextAddr(cfg: Config, log: Log): nat {
    if cfg.programFlowOnly then ToNat(LastAddr(log))
    else AddrAhead(LastAddr(log), Since(log), LastMode(log))
  }

  /** Every instruction line shows the address, and the branch-point count, that the lines before
      it call for. */
  predicate Addressed(cfg: Config, log: Log) {
    match log
    case Start => true
    case Then(p, Insn(_, pc, count, _)) =>
      Addressed(cfg, p) && pc == NextAddr(cfg, p) && count == if cfg.programFlowOnly then Since(p) + 1 else 0
    case Then(p, _) => Addressed(cfg, p)
  }

  /** The program counter agrees with the log, and so do the waits, `pending` of which are still to be
      reported. */
  predicate Agrees(cfg: Config, t: Track, pending: nat) {
    && t.iaddr == LastAddr(t.log) && t.mode == LastMode(t.log)
    && t.pc == NextAddr(cfg, t.log)
    && t.branchCount == (if cfg.programFlowOnly then Since(t.log) else 0)
    && Addressed(cfg, t.log)
    && Reported(t.log) + pending == Received(cfg, t.log)
  }

  /** The waits counted are those pending, until the end of the input reports them. */
  predicate Sound(cfg: Config, s: State) {
    Agrees(cfg, s.track, if s.exited then 0 else s.track.waitCount)
  }

  // ---------- primitive steps ----------

  /** Lines that say nothing about addresses or waiting. */
  predicate Neutral(e: Event) {
    !e.Insn? && !e.Retarget? && !e.Header? && !e.EndWaited?
  }

  lemma EmitAgrees(cfg: Config, t: Track, e: Event, pending: nat)
    requires Agrees(cfg, t, pending) && Neutral(e)
    ensures Agrees(cfg, Emit(t, e), pending)
  {}

  lemma LineSound(cfg: Config, s: State, e: Event)
    requires Sound(cfg, s) && Neutral(e)
    ensures Sound(cfg, Line(s, e))
  {
    EmitAgrees(cfg, s.track, e, if s.exited then 0 else s.track.waitCount);
  }

  lemma AtEndAgrees(cfg: Config, t: Track)
    requires Agrees(cfg, t, t.waitCount)
    ensures Agrees(cfg, AtEnd(t), 0)
  {
    if t.waitCount > 0 {
      var log := AtEnd(t).log;
      assert Reported(log) == Reported(t.log) + t.waitCount;
      assert Since(log) == Since(t.log) && Received(cfg, log) == Received(cfg, t.log);
    }
  }

  lemma GetByteSound(cfg: Config, s: State)
    requires Sound(cfg, s) && !s.exited
    ensures Sound(cfg, GetByte(s))
  {
    if s.input == [] {
      AtEndAgrees(cfg, s.track);
    } else {
      assert GetByte(s).track == s.track;
    }
  }

  /** An instruction line reports all waits counted so far, and `owed` more remain. */
  lemma PrintAgrees(cfg: Config, t: Track, execute: bool, owed: nat)
    requires Agrees(cfg, t, t.waitCount + owed)
    ensures Agrees(cfg, Print(cfg, t, execute), owed)
  {}

  lemma SetAddrAgrees(cfg: Config, t: Track, addr: Word, mode: Mode, pending: nat)
    requires Agrees(cfg, t, pending)
    ensures Agrees(cfg, SetAddr(t, addr, mode), pending)
  {}

  lemma UpdateAddrAgrees(cfg: Config, t: Track, info: Byte, addr: Word, pending: nat)
    requires Agrees(cfg, t, pending)
    ensures Agrees(cfg, UpdateAddr(t, info, addr), pending)
  {
    if info[4] {
      SetAddrAgrees(cfg, t, addr, 0, pending);
    } else if addr[0] {
      SetAddrAgrees(cfg, t, Put(addr, 0, [false]), 1, pending);
    } else {
      SetAddrAgrees(cfg, t, addr, 2, pending);
    }
  }

  /** Printing or not, a branch ends with all waits where they were or reported. */
  lemma TakeBranchAgrees(cfg: Config, t: Track, addr: Word, mode: Mode, exception: bool)
    requires Agrees(cfg, t, t.waitCount)
    ensures var r := TakeBranch(cfg, t, addr, mode, exception); Agrees(cfg, r, r.waitCount)
  {
    if !exception && cfg.programFlowOnly {
      PrintAgrees(cfg, t, true, 0);
      SetAddrAgrees(cfg, Print(cfg, t, true), addr, mode, 0);
    } else {
      SetAddrAgrees(cfg, t, addr, mode, t.waitCount);
    }
  }

  /** One cycle, `owed` waits before the end of the header. */
  lemma RunCycleAgrees(cfg: Config, t: Track, c: Cycle, owed: nat)
    requires Agrees(cfg, t, t.waitCount + ((if c.W? then 1 else 0) + owed))
    ensures var r := RunCycle(cfg, t, c); Agrees(cfg, r, r.waitCount + owed)
  {
    if !c.W? { PrintAgrees(cfg, t, c.E?, owed); }
  }

  lemma {:induction false} RunCyclesAgrees(cfg: Config, t: Track, cycles: seq<Cycle>)
    requires Agrees(cfg, t, t.waitCount + Waits(cycles))
    ensures var r := RunCycles(cfg, t, cycles); Agrees(cfg, r, r.waitCount)
    decreases |cycles|
  {
    if cycles == [] {
    } else {
      RunCycleAgrees(cfg, t, cycles[0], Waits(cycles[1..]));
      RunCyclesAgrees(cfg, RunCycle(cfg, t, cycles[0]), cycles[1..]);
    }
  }

  // ---------- loops over bytes ----------

  lemma {:induction false} BranchGroupsSound(cfg: Config, s: State, addr: Word, count: nat)
    requires Sound(cfg, s) && !s.exited && 1 <= count <= 5
    ensures Sound(cfg, BranchGroups(cfg, s, addr, count).state)
    decreases 5 - count
  {
    if s.data[7] && count < 5 {
      var t := GetByte(s);
      GetByteSound(cfg, s);
      if !t.exited {
        BranchGroupsSound(cfg, t, Put(addr, 7 * count - 1, t.data[..GroupWidth(cfg, t.data)]), count + 1);
      }
    }
  }

  lemma {:induction false} StampGroupsSound(cfg: Config, s: State, stamp: Stamp, i: nat)
    requires Sound(cfg, s) && !s.exited && i < 9
    ensures Sound(cfg, StampGroups(s, stamp, i).state)
    decreases 9 - i
  {
    var t := GetByte(s);
    GetByteSound(cfg, s);
    if !t.exited && t.data[7] && i < 8 {
      StampGroupsSound(cfg, t, Put(stamp, 7 * i, t.data[..7]), i + 1);
    }
  }

  lemma {:induction false} CountGroupsSound(cfg: Config, s: State, count: Word, at: nat, n: nat)
    requires Sound(cfg, s) && !s.exited
    ensures Sound(cfg, CountGroups(s, count, at, n).state)
    decreases n
  {
    if n == 0 {
    } else {
      var t := GetByte(s);
      GetByteSound(cfg, s);
      if !t.exited && t.data[7] { CountGroupsSound(cfg, t, Put(count, at, t.data[..7]), at + 7, n - 1); }
    }
  }

  lemma {:induction false} ReadWordSound(cfg: Config, s: State, acc: Word, i: nat, n: nat)
    requires Sound(cfg, s) && !s.exited
    ensures Sound(cfg, ReadWord(s, acc, i, n).state)
    decreases n
  {
    if n == 0 {
    } else {
      var t := GetByte(s);
      GetByteSound(cfg, s);
      if t.exited {
        assert ReadWord(s, acc, i, n).state == t;
      } else {
        ReadWordSound(cfg, t, Put(acc, 8 * i, t.data), i + 1, n - 1);
      }
    }
  }

  // ---------- packets ----------

  lemma GetBranchAddrSound(cfg: Config, s: State)
    requires Sound(cfg, s) && !s.exited
    ensures Sound(cfg, GetBranchAddr(cfg, s).state)
  {
    var addr := Put(Right(s.track.iaddr, s.track.mode), 0, s.data[1..7]);
    var g := BranchGroups(cfg, s, addr, 1);
    BranchGroupsSound(cfg, s, addr, 1);
    var t := g.state;
    if !t.exited {
      var exception := (g.count == 5 || (cfg.altBranch && g.count > 1)) && t.data[6];
      var mode := if g.count == 5 then FifthByteMode(t.data) else t.track.mode;
      TakeBranchAgrees(cfg, t.track, Left(g.addr, mode), mode, exception);
    }
  }

  lemma ExceptionBytesSound(cfg: Config, s: State)
    requires Sound(cfg, s) && !s.exited
    ensures Sound(cfg, ExceptionBytes(s))
  {
    var u := GetByte(s);
    GetByteSound(cfg, s);
    if !u.exited {
      if u.data[7] {
        var v := GetByte(u);
        GetByteSound(cfg, u);
        if !v.exited { LineSound(cfg, v, BranchLine(v.track.iaddr, [OrByte(u.data, v.data)])); }
      } else {
        LineSound(cfg, u, BranchLine(u.track.iaddr, [u.data]));
      }
    }
  }

  lemma BranchSound(cfg: Config, s: State)
    requires Sound(cfg, s) && !s.exited
    ensures Sound(cfg, Branch(cfg, s))
  {
    var b := GetBranchAddr(cfg, s);
    GetBranchAddrSound(cfg, s);
    if !b.state.exited {
      if b.exception {
        ExceptionBytesSound(cfg, b.state);
      } else {
        LineSound(cfg, b.state, BranchLine(b.state.track.iaddr, []));
      }
    }
  }

  lemma WaypointSound(cfg: Config, s: State)
    requires Sound(cfg, s) && !s.exited
    ensures Sound(cfg, Waypoint(cfg, s))
  {
    var g := GetByte(s);
    GetByteSound(cfg, s);
    if !g.exited {
      var b := GetBranchAddr(cfg, g);
      GetBranchAddrSound(cfg, g);
      if !b.state.exited {
        if b.exception {
          var u := GetByte(b.state);
          GetByteSound(cfg, b.state);
          if !u.exited { LineSound(cfg, u, WaypointLine(u.track.iaddr, [u.data])); }
        } else {
          LineSound(cfg, b.state, WaypointLine(b.state.track.iaddr, []));
        }
      }
    }
  }

  lemma TimestampSound(cfg: Config, s: State)
    requires Sound(cfg, s) && !s.exited
    ensures Sound(cfg, Timestamp(s))
  {
    var g := StampGroups(s, s.track.timestamp, 0);
    StampGroupsSound(cfg, s, s.track.timestamp, 0);
    if !g.state.exited {
      var t := g.state.track.(timestamp := g.value);
      EmitAgrees(cfg, t, TimestampLine(g.value, s.data[2]), t.waitCount);
    }
  }

  lemma CCountSound(cfg: Config, s: State)
    requires Sound(cfg, s) && !s.exited
    ensures Sound(cfg, CCount(s))
  {
    var g := CountGroups(s, NoAddr(), 0, 5);
    CountGroupsSound(cfg, s, NoAddr(), 0, 5);
    if !g.state.exited { LineSound(cfg, g.state, CycleLine(g.value)); }
  }

  lemma CycleCountPftSound(cfg: Config, s: State)
    requires Sound(cfg, s) && !s.exited
    ensures Sound(cfg, CycleCountPft(s))
  {
    var start := Put(NoAddr(), 0, s.data[2..6]);
    CountGroupsSound(cfg, s, start, 4, 4);
    var g := if s.data[6] then CountGroups(s, start, 4, 4) else Counting(s, start);
    if !g.state.exited { LineSound(cfg, g.state, CycleLine(g.value)); }
  }

  lemma CountFollowsSound(cfg: Config, s: State)
    requires Sound(cfg, s) && !s.exited
    ensures Sound(cfg, CountFollows(s))
  {
    GetByteSound(cfg, s);
    if !GetByte(s).exited { CycleCountPftSound(cfg, GetByte(s)); }
  }

  lemma ThenCountSound(cfg: Config, s: State)
    requires Sound(cfg, s)
    ensures Sound(cfg, ThenCount(cfg, s))
  {
    if !s.exited && cfg.cycleAccurate { CountFollowsSound(cfg, s); }
  }

  lemma IsyncSound(cfg: Config, s: State)
    requires Sound(cfg, s) && !s.exited
    ensures Sound(cfg, Isync(cfg, s))
  {
    var c := ReadWord(s, NoAddr(), 0, cfg.contextidBytes);
    ReadWordSound(cfg, s, NoAddr(), 0, cfg.contextidBytes);
    if !c.state.exited {
      var i := GetByte(c.state);
      GetByteSound(cfg, c.state);
      if !i.exited {
        var a := ReadWord(i, NoAddr(), 0, 4);
        ReadWordSound(cfg, i, NoAddr(), 0, 4);
        if !a.state.exited {
          var u := UpdateAddr(a.state.track, i.data, a.value);
          UpdateAddrAgrees(cfg, a.state.track, i.data, a.value, a.state.track.waitCount);
          EmitAgrees(cfg, u, IsyncLine(c.value, i.data, u.iaddr), u.waitCount);
        }
      }
    }
  }

  lemma IsyncCCSound(cfg: Config, s: State)
    requires Sound(cfg, s) && !s.exited
    ensures Sound(cfg, IsyncCC(cfg, s))
  {
    CCountSound(cfg, s);
    if !CCount(s).exited { IsyncSound(cfg, CCount(s)); }
  }

  lemma IsyncPftTailSound(cfg: Config, s: State, info: Byte)
    requires Sound(cfg, s) && !s.exited
    ensures Sound(cfg, IsyncPftTail(cfg, s, info))
  {
    CountFollowsSound(cfg, s);
    var counted := if cfg.cycleAccurate && (info[6] || info[5]) then CountFollows(s) else s;
    if !counted.exited {
      var c := ReadWord(counted, NoAddr(), 0, cfg.contextidBytes);
      ReadWordSound(cfg, counted, NoAddr(), 0, cfg.contextidBytes);
      if !c.state.exited { LineSound(cfg, c.state, IsyncLine(c.value, info, c.state.track.iaddr)); }
    }
  }

  lemma IsyncPftSound(cfg: Config, s: State)
    requires Sound(cfg, s) && !s.exited
    ensures Sound(cfg, IsyncPft(cfg, s))
  {
    var a := ReadWord(s, NoAddr(), 0, 4);
    ReadWordSound(cfg, s, NoAddr(), 0, 4);
    if !a.state.exited {
      var i := GetByte(a.state);
      GetByteSound(cfg, a.state);
      if !i.exited {
        UpdateAddrAgrees(cfg, i.track, i.data, a.value, i.track.waitCount);
        IsyncPftTailSound(cfg, i.(track := UpdateAddr(i.track, i.data, a.value)), i.data);
      }
    }
  }

  lemma ContextIdSound(cfg: Config, s: State)
    requires Sound(cfg, s) && !s.exited
    ensures Sound(cfg, ContextId(cfg, s))
  {
    var c := ReadWord(s, NoAddr(), 0, cfg.contextidBytes);
    ReadWordSound(cfg, s, NoAddr(), 0, cfg.contextidBytes);
    if !c.state.exited { LineSound(cfg, c.state, ContextLine(c.value)); }
  }

  lemma VmidSound(cfg: Config, s: State)
    requires Sound(cfg, s) && !s.exited
    ensures Sound(cfg, Vmid(s))
  {
    var t := GetByte(s);
    GetByteSound(cfg, s);
    if !t.exited { LineSound(cfg, t, VmidLine(t.data)); }
  }

  lemma DataBytesSound(cfg: Config, s: State, header: Byte)
    requires Sound(cfg, s) && !s.exited
    ensures Sound(cfg, DataBytes(s, header))
  {
    var size := ToNat(header[2..4]);
    var w := ReadWord(s, NoAddr(), 0, size);
    ReadWordSound(cfg, s, NoAddr(), 0, size);
    if !w.state.exited {
      LineSound(cfg, w.state,
                DataLine(if size > 0 then [w.value] else [], if header[5] then [s.track.dataAddr] else []));
    }
  }

  lemma NDataSound(cfg: Config, s: State)
    requires Sound(cfg, s) && !s.exited
    ensures Sound(cfg, NData(s))
  {
    CountGroupsSound(cfg, s, s.track.dataAddr, 0, 5);
    var g := if s.data[5] then CountGroups(s, s.track.dataAddr, 0, 5) else Counting(s, s.track.dataAddr);
    if !g.state.exited {
      DataBytesSound(cfg, g.state.(track := g.state.track.(dataAddr := g.value)), s.data);
    }
  }

  lemma PHeaderSound(cfg: Config, s: State)
    requires Sound(cfg, s) && !s.exited
    ensures Sound(cfg, PHeader(cfg, s))
  {
    if KnownHeader(cfg, s.data) {
      RunCyclesAgrees(cfg, Emit(s.track, Header(s.data)), HeaderCycles(cfg, s.data));
    } else {
      LineSound(cfg, s, PlainLine);
    }
  }

  lemma {:induction false} NoWaitsBelow(h: Byte, k: nat)
    requires k < 8
    ensures Waits(AtomsBelow(h, k)) == 0
  {
    if k == 0 {
    } else {
      NoWaitsBelow(h, k - 1);
      assert AtomsBelow(h, k)[1..] == AtomsBelow(h, k - 1);
    }
  }

  lemma {:induction false} NoWaitsInAtoms(h: Byte, top: nat)
    requires top <= 6
    ensures Waits(AtomCycles(h, top)) == 0
  {
    if top < 2 {
    } else if h[top] {
      NoWaitsBelow(h, top - 1);
    } else {
      NoWaitsInAtoms(h, top - 1);
    }
  }

  lemma AtomPacketSound(cfg: Config, s: State)
    requires Sound(cfg, s) && !s.exited
    ensures Sound(cfg, AtomPacket(cfg, s))
  {
    if cfg.cycleAccurate {
      var t := CycleCountPft(s);
      CycleCountPftSound(cfg, s);
      if !t.exited { PrintAgrees(cfg, t.track, !s.data[1], 0); }
    } else {
      NoWaitsInAtoms(s.data, 6);
      RunCyclesAgrees(cfg, s.track, AtomCycles(s.data, 6));
    }
  }

  lemma DecodeSound(cfg: Config, kind: Kind, s: State)
    requires Sound(cfg, s) && !s.exited
    ensures Sound(cfg, Decode(cfg, kind, s))
  {
    match kind
    case KBranch => BranchSound(cfg, s);
    case KCCount => CCountSound(cfg, s);
    case KIsync => IsyncSound(cfg, s);
    case KIsyncCC => IsyncCCSound(cfg, s);
    case KVmid => VmidSound(cfg, s);
    case KNData => NDataSound(cfg, s);
    case KTimestamp => TimestampSound(cfg, s);
    case KContextId => ContextIdSound(cfg, s);
    case KPHeader => PHeaderSound(cfg, s);
    case KIsyncPft => IsyncPftSound(cfg, s);
    case KAtom => AtomPacketSound(cfg, s);
    case KBranchPft =>
      BranchSound(cfg, s);
      ThenCountSound(cfg, Branch(cfg, s));
    case KWaypoint => WaypointSound(cfg, s);
    case KTimestampPft =>
      TimestampSound(cfg, s);
      ThenCountSound(cfg, Timestamp(s));
    case KNotice => LineSound(cfg, s, PlainLine);
    case KSilent =>
    case KNone => LineSound(cfg, s, PlainLine);
  }

  /** Every packet keeps the counters and the log in agreement. */
  lemma DecodeOneSound(cfg: Config, s: State)
    requires Sound(cfg, s) && !s.exited
    ensures Sound(cfg, DecodeOne(cfg, s))
  {
    var t := GetByte(s);
    GetByteSound(cfg, s);
    if !t.exited { DecodeSound(cfg, FirstMatch(PacketTypes(cfg.table), t.data, 0), t); }
  }

  /** What holds at first and is kept by every step holds after any number of steps. */
  lemma {:induction false} IterateKeeps(step: State -> State, s: State, n: nat, inv: State -> bool)
    requires inv(s) && forall t: State | inv(t) :: inv(step(t))
    ensures inv(Iterate(step, s, n))
    decreases n
  {
    if n == 0 {
    } else {
      IterateKeeps(step, step(s), n - 1, inv);
    }
  }

  lemma DecodedSound(cfg: Config, s: State, n: nat)
    requires Sound(cfg, s)
    ensures Sound(cfg, Decoded(cfg, s, n))
  {
    var step, inv := (t: State) => Step(cfg, t), (t: State) => Sound(cfg, t);
    forall t: State | inv(t) ensures inv(step(t)) {
      if !t.exited { DecodeOneSound(cfg, t); }
    }
    IterateKeeps(step, s, n, inv);
  }

  lemma {:induction false} DecodeAllSound(cfg: Config, s: State)
    requires Sound(cfg, s)
    ensures Sound(cfg, DecodeAll(cfg, s))
    decreases |s.input|, if s.exited then 0 else 1
  {
    if s.exited {
    } else {
      DecodeOneSound(cfg, s);
      DecodeAllSound(cfg, DecodeOne(cfg, s));
    }
  }
}
