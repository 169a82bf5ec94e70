/** The decoder as the program runs it: one record of state that every packet decoder updates in place
    while pulling bytes. Each method is proved to do what the state machine of EtmPackets does. */
module EtmDecoder {
  import opened BitWords
  import F = EtmFormatter
  import M = EtmModel
  import S = EtmPackets
  import opened EtmPort
  import opened EtmRuns
  import opened EtmSound
  import opened EtmTables

  class Decoder {
    const cfg: M.Config
    const port: Port
    var exited: bool
    var data: Byte
    var iaddr: Word
    var mode: M.Mode
    var pc: nat
    var branchCount: nat
    var waitCount: nat
    var timestamp: M.Stamp
    var dataAddr: Word
    var log: M.Log

    ghost predicate Valid()
      reads this, port
    {
      port.Valid()
    }

    /** What the decoder keeps track of. */
    ghost function Now(): M.Track
      reads this
    {
      M.Track(iaddr, mode, pc, branchCount, waitCount, timestamp, dataAddr, log)
    }

    /** The abstract state: what is still to be read, and the fields. */
    ghost function View(): M.State
      requires Valid()
      reads this, port, port.packet
    {
      M.State(port.Pending(), exited, data, Now())
    }

    constructor (config: M.Config, source: Port)
      requires source.Valid()
      ensures Valid() && cfg == config && port == source
      ensures View() == M.Initial(source.Pending())
    {
      cfg, port, exited, data, iaddr, mode := config, source, false, M.ZERO_BYTE, M.NoAddr(), 0;
      pc, branchCount, waitCount, timestamp, log := 0, 0, 0, seq(64, _ => false), M.Start;
      dataAddr := M.NoAddr();
    }

    method Show(e: M.Event)
      modifies this`log
      ensures Now() == M.Emit(old(Now()), e)
    {
      log := M.Then(log, e);
    }

    /** get_byte: at the end of the input the program reports the pending wait cycles and exits. */
    method GetByte()
      requires Valid() && !exited
      modifies this`exited, this`data, this`log, port, port.packet
      ensures Valid() && View() == M.GetByte(old(View()))
    {
      var ok, ch := port.GetByte();
      if !ok {
        if waitCount > 0 { Show(M.EndWaited(waitCount)); }
        exited := true;
      } else {
        data := ch;
      }
    }

    /** next_pc. */
    method NextPc() returns (was: nat)
      modifies this`pc, this`branchCount
      ensures was == old(pc)
      ensures if cfg.programFlowOnly then pc == old(pc) && branchCount == old(branchCount) + 1
              else branchCount == old(branchCount) && pc == M.PcAfter(old(pc), mode)
    {
      was := pc;
      if cfg.programFlowOnly {
        branchCount := branchCount + 1;
      } else {
        pc := M.PcAfter(pc, mode);
      }
    }

    method PrintInstruction(execute: bool)
      modifies this`pc, this`branchCount, this`waitCount, this`log
      ensures Now() == M.Print(cfg, old(Now()), execute)
    {
      var waited := waitCount;
      var was := NextPc();
      if waited > 0 { waitCount := 0; }
      Show(M.Insn(execute, was, branchCount, waited));
    }

    /** The assignments that every address packet ends with. */
    method SetAddr(addr: Word, m: M.Mode)
      modifies this`iaddr, this`mode, this`pc, this`branchCount, this`log
      ensures Now() == M.SetAddr(old(Now()), addr, m)
    {
      mode := m;
      iaddr := addr;
      pc := ToNat(addr);
      branchCount := 0;
      Show(M.Retarget(addr, m));
    }

    method GetBranchAddr() returns (exception: bool)
      requires Valid() && !exited
      modifies this, port, port.packet
      ensures Valid() && S.Branched(View(), exception) == S.GetBranchAddr(cfg, old(View()))
    {
      ghost var start := View();
      var addr: Word := M.Put(Right(iaddr, mode), 0, data[1..7]);
      var count := 1;
      ghost var g := S.BranchGroups(cfg, start, addr, 1);
      while data[7] && count < 5
        invariant Valid() && !exited && 1 <= count <= 5
        invariant S.BranchGroups(cfg, View(), addr, count) == g
        decreases 5 - count
      {
        BranchTurn(cfg, View(), addr, count);
        GetByte();
        if exited {
          exception := false;
          return;
        }
        var width := if cfg.altBranch && !data[7] then 6 else 7;
        addr := M.Put(addr, 7 * count - 1, data[..width]);
        count := count + 1;
      }
      ghost var t := View();
      BranchEnd(cfg, start, t, addr, count);
      exception := (count == 5 || (cfg.altBranch && count > 1)) && data[6];
      if !exception && cfg.programFlowOnly {
        PrintInstruction(true);
      }
      var m := mode;
      if count == 5 {
        if !data[7] && !data[5] && !data[4] {
          m := 2;
        } else if !data[7] && !data[5] {
          m := 1;
        } else {
          m := 0;
        }
      }
      SetAddr(Left(addr, m), m);
    }

    method Branch()
      requires Valid() && !exited
      modifies this, port, port.packet
      ensures Valid() && View() == S.Branch(cfg, old(View()))
    {
      var exception := GetBranchAddr();
      if exited { return; }
      if exception { ExceptionBytes(); } else { Show(M.BranchLine(iaddr, [])); }
    }

    /** One exception byte, or two if the first has its top bit set. */
    method ExceptionBytes()
      requires Valid() && !exited
      modifies this, port, port.packet
      ensures Valid() && View() == S.ExceptionBytes(old(View()))
    {
      GetByte();
      if exited { return; }
      var info := data;
      if data[7] {
        GetByte();
        if exited { return; }
        info := S.OrByte(info, data);
      }
      Show(M.BranchLine(iaddr, [info]));
    }

    method Waypoint()
      requires Valid() && !exited
      modifies this, port, port.packet
      ensures Valid() && View() == S.Waypoint(cfg, old(View()))
    {
      GetByte();
      if exited { return; }
      var exception := GetBranchAddr();
      if exited { return; }
      var info: seq<Byte> := [];
      if exception {
        GetByte();
        if exited { return; }
        info := [data];
      }
      Show(M.WaypointLine(iaddr, info));
    }

    method Timestamp()
      requires Valid() && !exited
      modifies this, port, port.packet
      ensures Valid() && View() == S.Timestamp(old(View()))
    {
      var r := data[2];
      var stamp := StampGroups();
      if exited { return; }
      Show(M.TimestampLine(stamp, r));
      timestamp := stamp;
    }

    /** The loop over the bytes of a timestamp. */
    method StampGroups() returns (stamp: M.Stamp)
      requires Valid() && !exited
      modifies this, port, port.packet
      ensures Valid() && S.Counting(View(), stamp) == S.StampGroups(old(View()), old(timestamp), 0)
    {
      stamp := timestamp;
      ghost var g := S.StampGroups(View(), stamp, 0);
      var i := 0;
      while i < 9
        invariant Valid() && !exited && 0 <= i <= 9
        invariant if i < 9 then S.StampGroups(View(), stamp, i) == g else S.Counting(View(), stamp) == g
      {
        StampTurn(View(), stamp, i);
        GetByte();
        if exited { return; }
        stamp := M.Put(stamp, 7 * i, data[..if i == 8 then 8 else 7]);
        if !data[7] { return; }
        i := i + 1;
      }
    }

    method CCount()
      requires Valid() && !exited
      modifies this, port, port.packet
      ensures Valid() && View() == S.CCount(old(View()))
    {
      var count := CountGroups(M.NoAddr(), 0, 5);
      if exited { return; }
      Show(M.CycleLine(count));
    }

    /** The loops over seven-bit groups: at most n more, the first one landing at bit `at`. */
    method CountGroups(first: Word, at: nat, n: nat) returns (count: Word)
      requires Valid() && !exited
      modifies this, port, port.packet
      ensures Valid() && S.Counting(View(), count) == S.CountGroups(old(View()), first, at, n)
    {
      count := first;
      ghost var g := S.CountGroups(View(), first, at, n);
      var i, shift := 0, at;
      while i < n
        invariant Valid() && !exited && 0 <= i <= n
        invariant S.CountGroups(View(), count, shift, n - i) == g
      {
        CountTurn(View(), count, shift, n - i);
        GetByte();
        if exited { return; }
        count := M.Put(count, shift, data[..7]);
        if !data[7] { return; }
        shift := shift + 7;
        i := i + 1;
      }
    }

    method CycleCountPft()
      requires Valid() && !exited
      modifies this, port, port.packet
      ensures Valid() && View() == S.CycleCountPft(old(View()))
    {
      var count: Word := M.Put(M.NoAddr(), 0, data[2..6]);
      if data[6] {
        count := CountGroups(count, 4, 4);
        if exited { return; }
      }
      Show(M.CycleLine(count));
    }

    /** get_contextid and get_addr: n bytes, least significant first. */
    method ReadWord(n: nat) returns (word: Word)
      requires Valid() && !exited
      modifies this, port, port.packet
      ensures Valid() && S.Counting(View(), word) == S.ReadWord(old(View()), M.NoAddr(), 0, n)
    {
      word := M.NoAddr();
      ghost var g := S.ReadWord(View(), word, 0, n);
      var i := 0;
      while i < n
        invariant Valid() && !exited && 0 <= i <= n
        invariant S.ReadWord(View(), word, i, n - i) == g
      {
        WordTurn(View(), word, i, n - i);
        GetByte();
        if exited { return; }
        word := M.Put(word, 8 * i, data);
        i := i + 1;
      }
    }

    method UpdateAddr(info: Byte, addr: Word)
      modifies this`iaddr, this`mode, this`pc, this`branchCount, this`log
      ensures Now() == S.UpdateAddr(old(Now()), info, addr)
    {
      if info[4] {
        SetAddr(addr, 0);
      } else if addr[0] {
        SetAddr(M.Put(addr, 0, [false]), 1);
      } else {
        SetAddr(addr, 2);
      }
    }

    method Isync()
      requires Valid() && !exited
      modifies this, port, port.packet
      ensures Valid() && View() == S.Isync(cfg, old(View()))
    {
      var context := ReadWord(cfg.contextidBytes);
      if exited { return; }
      GetByte();
      if exited { return; }
      var info := data;
      var addr := ReadWord(4);
      if exited { return; }
      UpdateAddr(info, addr);
      Show(M.IsyncLine(context, info, iaddr));
    }

    method IsyncCC()
      requires Valid() && !exited
      modifies this, port, port.packet
      ensures Valid() && View() == S.IsyncCC(cfg, old(View()))
    {
      CCount();
      if !exited { Isync(); }
    }

    method IsyncPft()
      requires Valid() && !exited
      modifies this, port, port.packet
      ensures Valid() && View() == S.IsyncPft(cfg, old(View()))
    {
      var addr := ReadWord(4);
      if exited { return; }
      GetByte();
      if exited { return; }
      var info := data;
      UpdateAddr(info, addr);
      IsyncPftTail(info);
    }

    /** A cycle count if the information byte announces one, and the context. */
    method IsyncPftTail(info: Byte)
      requires Valid() && !exited
      modifies this, port, port.packet
      ensures Valid() && View() == S.IsyncPftTail(cfg, old(View()), info)
    {
      if cfg.cycleAccurate && (info[6] || info[5]) {
        CountFollows();
        if exited { return; }
      }
      var context := ReadWord(cfg.contextidBytes);
      if exited { return; }
      Show(M.IsyncLine(context, info, iaddr));
    }

    /** A cycle count in the bytes that follow. */
    method CountFollows()
      requires Valid() && !exited
      modifies this, port, port.packet
      ensures Valid() && View() == S.CountFollows(old(View()))
    {
      GetByte();
      if !exited { CycleCountPft(); }
    }

    /** The same, in a cycle-accurate trace. */
    method ThenCount()
      requires Valid()
      modifies this, port, port.packet
      ensures Valid() && View() == S.ThenCount(cfg, old(View()))
    {
      if !exited && cfg.cycleAccurate { CountFollows(); }
    }

    method ContextId()
      requires Valid() && !exited
      modifies this, port, port.packet
      ensures Valid() && View() == S.ContextId(cfg, old(View()))
    {
      var context := ReadWord(cfg.contextidBytes);
      if exited { return; }
      Show(M.ContextLine(context));
    }

    method Vmid()
      requires Valid() && !exited
      modifies this, port, port.packet
      ensures Valid() && View() == S.Vmid(old(View()))
    {
      GetByte();
      if exited { return; }
      Show(M.VmidLine(data));
    }

    method NData()
      requires Valid() && !exited
      modifies this, port, port.packet
      ensures Valid() && View() == S.NData(old(View()))
    {
      var h := data;
      if h[5] {
        var place := CountGroups(dataAddr, 0, 5);
        if exited { return; }
        dataAddr := place;
      }
      DataBytes(h);
    }

    /** The data bytes, and the line with what there is of data and address. */
    method DataBytes(h: Byte)
      requires Valid() && !exited
      modifies this, port, port.packet
      ensures Valid() && View() == S.DataBytes(old(View()), h)
    {
      var size := ToNat(h[2..4]);
      var value := ReadWord(size);
      if exited { return; }
      Show(M.DataLine(if size > 0 then [value] else [], if h[5] then [dataAddr] else []));
    }

    // ---------- instructions ----------

    /** Prints `wait` then an instruction, n times: the WE and WN loops. */
    method WaitAndPrint(n: nat, execute: bool, ghost later: seq<M.Cycle>)
      modifies this`pc, this`branchCount, this`waitCount, this`log
      ensures S.RunCycles(cfg, Now(), later)
              == S.RunCycles(cfg, old(Now()), M.Repeat([M.W] + M.Atom(!execute), n) + later)
    {
      ghost var g := S.RunCycles(cfg, Now(), M.Repeat([M.W] + M.Atom(!execute), n) + later);
      var i := n;
      RepeatNone([M.W] + M.Atom(!execute), later);
      while i > 0
        invariant S.RunCycles(cfg, Now(), M.Repeat([M.W] + M.Atom(!execute), i) + later) == g
      {
        RunWaitAndPrint(cfg, Now(), i, execute, later);
        i := i - 1;
        waitCount := waitCount + 1;
        PrintInstruction(execute);
      }
    }

    /** The E and N loops. */
    method PrintRun(n: nat, execute: bool, ghost later: seq<M.Cycle>)
      modifies this`pc, this`branchCount, this`waitCount, this`log
      ensures S.RunCycles(cfg, Now(), later) == S.RunCycles(cfg, old(Now()), M.Repeat(M.Atom(!execute), n) + later)
    {
      ghost var g := S.RunCycles(cfg, Now(), M.Repeat(M.Atom(!execute), n) + later);
      var i := n;
      RepeatNone(M.Atom(!execute), later);
      while i > 0
        invariant S.RunCycles(cfg, Now(), M.Repeat(M.Atom(!execute), i) + later) == g
      {
        RunPrint(cfg, Now(), i, execute, later);
        i := i - 1;
        PrintInstruction(execute);
      }
    }

    /** A wait before every instruction: WE as often as the count says, then WN if the flag is set. */
    method WaitEach(n: nat, last: bool)
      modifies this`pc, this`branchCount, this`waitCount, this`log
      ensures Now() == S.RunCycles(cfg, old(Now()), M.Repeat([M.W, M.E], n) + M.Repeat([M.W, M.N], if last then 1 else 0))
    {
      var m := if last then 1 else 0;
      assert [M.W] + M.Atom(false) == [M.W, M.E] && [M.W] + M.Atom(true) == [M.W, M.N];
      WaitAndPrint(n, true, M.Repeat([M.W, M.N], m));
      AppendNone(M.Repeat([M.W, M.N], m));
      WaitAndPrint(m, false, []);
    }

    /** E as often as the count says, then N if the flag is set. */
    method PrintEach(n: nat, last: bool)
      modifies this`pc, this`branchCount, this`waitCount, this`log
      ensures Now() == S.RunCycles(cfg, old(Now()), M.Repeat([M.E], n) + M.Repeat([M.N], if last then 1 else 0))
    {
      var m := if last then 1 else 0;
      assert M.Atom(false) == [M.E] && M.Atom(true) == [M.N];
      PrintRun(n, true, M.Repeat([M.N], m));
      AppendNone(M.Repeat([M.N], m));
      PrintRun(m, false, []);
    }

    /** All the waits at once, then E if the flag is set. */
    method WaitThenPrint(n: nat, last: bool)
      modifies this`pc, this`branchCount, this`waitCount, this`log
      ensures Now() == S.RunCycles(cfg, old(Now()), M.Repeat([M.W], n) + M.Repeat([M.E], if last then 1 else 0))
    {
      var m := if last then 1 else 0;
      assert M.Atom(false) == [M.E];
      RunWaits(cfg, Now(), n, M.Repeat([M.E], m));
      waitCount := waitCount + n;
      AppendNone(M.Repeat([M.E], m));
      PrintRun(m, true, []);
    }

    /** Two instructions. */
    method PrintPair(first: bool, second: bool)
      modifies this`pc, this`branchCount, this`waitCount, this`log
      ensures Now() == S.RunCycles(cfg, old(Now()), M.Atom(!first) + M.Atom(!second))
    {
      RunFirst(cfg, Now(), first, M.Atom(!second));
      PrintInstruction(first);
      RunAtom(cfg, Now(), second);
      PrintInstruction(second);
    }

    method WaitThenPair(first: bool, second: bool)
      modifies this`pc, this`branchCount, this`waitCount, this`log
      ensures Now() == S.RunCycles(cfg, old(Now()), [M.W] + M.Atom(!first) + M.Atom(!second))
    {
      var pair := M.Atom(!first) + M.Atom(!second);
      assert [M.W] + pair == [M.W] + M.Atom(!first) + M.Atom(!second);
      RunWait(cfg, Now(), pair);
      waitCount := waitCount + 1;
      PrintPair(first, second);
    }

    /** pheader_cycle_accurate, for the formats it knows. */
    method KnownHeaderCycleAccurate()
      requires cfg.cycleAccurate && M.KnownHeader(cfg, data)
      modifies this`pc, this`branchCount, this`waitCount, this`log
      ensures Now() == S.RunCycles(cfg, old(Now()), M.HeaderCycles(cfg, data))
    {
      var h := data;
      if M.Has(h, 0xff, 0x80) {
        AppendNone([M.W]);
        RunWait(cfg, Now(), []);
        waitCount := waitCount + 1;
      } else if M.Has(h, 0xa3, 0x80) {
        WaitEach(ToNat(h[2..5]), h[6]);
      } else if M.Has(h, 0xf3, 0x82) {
        WaitThenPair(!h[3], !h[2]);
      } else if M.Has(h, 0xa3, 0xa0) {
        WaitThenPrint(ToNat(h[2..5]) + 1, h[6]);
      } else {
        RunAtom(cfg, Now(), !h[2]);
        PrintInstruction(!h[2]);
      }
    }

    /** pheader_non_cycle_accurate, for the formats it knows. */
    method KnownHeaderPlain()
      requires !cfg.cycleAccurate && M.KnownHeader(cfg, data)
      modifies this`pc, this`branchCount, this`waitCount, this`log
      ensures Now() == S.RunCycles(cfg, old(Now()), M.HeaderCycles(cfg, data))
    {
      var h := data;
      if M.Has(h, 0x83, 0x80) {
        PrintEach(ToNat(h[2..6]), h[6]);
      } else {
        PrintPair(!h[3], !h[2]);
      }
    }

    method PHeader()
      requires Valid() && !exited
      modifies this`pc, this`branchCount, this`waitCount, this`log
      ensures Valid() && View() == S.PHeader(cfg, old(View()))
    {
      if !M.KnownHeader(cfg, data) {
        Show(M.PlainLine);
      } else {
        Show(M.Header(data));
        if cfg.cycleAccurate { KnownHeaderCycleAccurate(); } else { KnownHeaderPlain(); }
      }
    }

    /** atom_non_cycle_accurate: the highest set bit of bits 6 to 2 marks the start of the atoms. */
    method AtomsPlain()
      modifies this`pc, this`branchCount, this`waitCount, this`log
      ensures Now() == S.RunCycles(cfg, old(Now()), S.AtomCycles(data, 6))
    {
      var h := data;
      ghost var cycles := S.AtomCycles(h, 6);
      ghost var g := S.RunCycles(cfg, Now(), cycles);
      var i := 5;
      while i > 0 && !h[i + 1]
        invariant 0 <= i <= 5 && S.AtomCycles(h, i + 1) == cycles
      {
        i := i - 1;
      }
      assert S.AtomsBelow(h, i) == cycles;
      while i > 0
        invariant 0 <= i <= 5
        invariant S.RunCycles(cfg, Now(), S.AtomsBelow(h, i)) == g
      {
        RunFirst(cfg, Now(), !h[i], S.AtomsBelow(h, i - 1));
        PrintInstruction(!h[i]);
        i := i - 1;
      }
    }

    method AtomPacket()
      requires Valid() && !exited
      modifies this, port, port.packet
      ensures Valid() && View() == S.AtomPacket(cfg, old(View()))
    {
      if cfg.cycleAccurate {
        var h := data;
        CycleCountPft();
        if exited { return; }
        PrintInstruction(!h[1]);
      } else {
        AtomsPlain();
      }
    }

    // ---------- the main loop ----------

    method Decode(kind: S.Kind)
      requires Valid() && !exited
      modifies this, port, port.packet
      ensures Valid() && View() == S.Decode(cfg, kind, old(View()))
    {
      Handlers(cfg, kind, View());
      match kind
      case KBranch => Branch();
      case KCCount => CCount();
      case KIsync => Isync();
      case KIsyncCC => IsyncCC();
      case KVmid => Vmid();
      case KNData => NData();
      case KTimestamp => Timestamp();
      case KContextId => ContextId();
      case KPHeader => PHeader();
      case KIsyncPft => IsyncPft();
      case KAtom => AtomPacket();
      case KBranchPft =>
        Branch();
        ThenCount();
      case KWaypoint => Waypoint();
      case KTimestampPft =>
        Timestamp();
        ThenCount();
      case KNotice => Show(M.PlainLine);
      case KSilent =>
      case KNone => Show(M.PlainLine);
    }

    /** The row search of the main loop. */
    method Lookup(rows: seq<S.PacketType>, ch: Byte) returns (kind: S.Kind)
      requires rows != [] && S.IsMatch(rows[|rows| - 1], ch)
      ensures kind == S.FirstMatch(rows, ch, 0)
    {
      var i := 0;
      while !S.IsMatch(rows[i], ch)
        invariant 0 <= i < |rows| && S.FirstMatch(rows, ch, i) == S.FirstMatch(rows, ch, 0)
        decreases |rows| - i
      {
        S.NextRow(rows, ch, i);
        i := i + 1;
      }
      kind := rows[i].kind;
    }

    /** One packet. */
    method DecodeOne()
      requires Valid() && !exited
      modifies this, port, port.packet
      ensures Valid() && View() == S.DecodeOne(cfg, old(View()))
    {
      GetByte();
      if exited { return; }
      S.LastRowMatches(cfg.table, data);
      var kind := Lookup(S.PacketTypes(cfg.table), data);
      Decode(kind);
    }

    /** The main loop, to the end of the input. */
    method Run()
      requires Valid()
      modifies this, port, port.packet
      ensures Valid() && View() == S.DecodeAll(cfg, old(View()))
    {
      ghost var g := S.DecodeAll(cfg, View());
      while !exited
        invariant Valid() && S.DecodeAll(cfg, View()) == g
        decreases |View().input|, if exited then 0 else 1
      {
        RunTurn(cfg, View());
        DecodeOne();
      }
    }
  }

  // ---------- turns of the loops ----------

  lemma BranchTurn(cfg: M.Config, s: M.State, addr: Word, count: nat)
    requires !s.exited && 1 <= count < 5 && s.data[7]
    ensures var t := M.GetByte(s);
            S.BranchGroups(cfg, s, addr, count)
            == if t.exited then S.Addressing(t, addr, count)
               else S.BranchGroups(cfg, t, M.Put(addr, 7 * count - 1, t.data[..S.GroupWidth(cfg, t.data)]), count + 1)
  {}

  /** What follows the group loop. */
  lemma BranchEnd(cfg: M.Config, s: M.State, t: M.State, addr: Word, count: nat)
    requires !s.exited && !t.exited && 1 <= count <= 5 && (count < 5 ==> !t.data[7])
    requires S.BranchGroups(cfg, t, addr, count)
             == S.BranchGroups(cfg, s, M.Put(Right(s.track.iaddr, s.track.mode), 0, s.data[1..7]), 1)
    ensures var exception := (count == 5 || (cfg.altBranch && count > 1)) && t.data[6];
            var mode := if count == 5 then S.FifthByteMode(t.data) else t.track.mode;
            S.GetBranchAddr(cfg, s)
            == S.Branched(t.(track := S.TakeBranch(cfg, t.track, Left(addr, mode), mode, exception)), exception)
  {}

  lemma StampTurn(s: M.State, stamp: M.Stamp, i: nat)
    requires !s.exited && i < 9
    ensures var t := M.GetByte(s);
            S.StampGroups(s, stamp, i)
            == if t.exited then S.Counting(t, stamp)
               else var next := M.Put(stamp, 7 * i, t.data[..if i == 8 then 8 else 7]);
                    if !t.data[7] || i == 8 then S.Counting(t, next) else S.StampGroups(t, next, i + 1)
  {}

  lemma CountTurn(s: M.State, count: Word, at: nat, n: nat)
    requires !s.exited && n > 0
    ensures var t := M.GetByte(s);
            S.CountGroups(s, count, at, n)
            == if t.exited then S.Counting(t, count)
               else var next := M.Put(count, at, t.data[..7]);
                    if t.data[7] then S.CountGroups(t, next, at + 7, n - 1) else S.Counting(t, next)
  {}

  lemma WordTurn(s: M.State, word: Word, i: nat, n: nat)
    requires !s.exited && n > 0
    ensures var t := M.GetByte(s);
            S.ReadWord(s, word, i, n)
            == if t.exited then S.Counting(t, word) else S.ReadWord(t, M.Put(word, 8 * i, t.data), i + 1, n - 1)
  {}

  lemma RunTurn(cfg: M.Config, s: M.State)
    requires !s.exited
    ensures var t := S.DecodeOne(cfg, s);
            S.DecodeAll(cfg, s) == S.DecodeAll(cfg, t) && (t.exited || |t.input| < |s.input|)
  {}

  // ---------- runs of cycles ----------

  lemma {:induction false} RunWaits(cfg: M.Config, t: M.Track, n: nat, later: seq<M.Cycle>)
    ensures S.RunCycles(cfg, t, M.Repeat([M.W], n) + later)
            == S.RunCycles(cfg, t.(waitCount := t.waitCount + n), later)
    decreases n
  {
    if n == 0 {
      RepeatNone([M.W], later);
    } else {
      var rest := M.Repeat([M.W], n - 1) + later;
      assert M.Repeat([M.W], n) + later == [M.W] + rest;
      RunWait(cfg, t, rest);
      RunWaits(cfg, t.(waitCount := t.waitCount + 1), n - 1, later);
    }
  }

  lemma AppendNone(c: seq<M.Cycle>)
    ensures c + [] == c
  {}

  lemma RunAtom(cfg: M.Config, t: M.Track, execute: bool)
    ensures S.RunCycles(cfg, t, M.Atom(!execute)) == M.Print(cfg, t, execute)
  {
    assert M.Atom(!execute)[1..] == [];
  }

  lemma RepeatNone(c: seq<M.Cycle>, later: seq<M.Cycle>)
    ensures M.Repeat(c, 0) + later == later
  {}

  lemma RunFirst(cfg: M.Config, t: M.Track, execute: bool, later: seq<M.Cycle>)
    ensures S.RunCycles(cfg, t, M.Atom(!execute) + later) == S.RunCycles(cfg, M.Print(cfg, t, execute), later)
  {
    assert (M.Atom(!execute) + later)[1..] == later;
  }

  lemma RunWait(cfg: M.Config, t: M.Track, later: seq<M.Cycle>)
    ensures S.RunCycles(cfg, t, [M.W] + later) == S.RunCycles(cfg, t.(waitCount := t.waitCount + 1), later)
  {
    assert ([M.W] + later)[1..] == later;
  }

  lemma RunPrint(cfg: M.Config, t: M.Track, n: nat, execute: bool, later: seq<M.Cycle>)
    requires n > 0
    ensures S.RunCycles(cfg, t, M.Repeat(M.Atom(!execute), n) + later)
            == S.RunCycles(cfg, M.Print(cfg, t, execute), M.Repeat(M.Atom(!execute), n - 1) + later)
  {
    var rest := M.Repeat(M.Atom(!execute), n - 1) + later;
    assert M.Repeat(M.Atom(!execute), n) + later == M.Atom(!execute) + rest;
    RunFirst(cfg, t, execute, rest);
  }

  lemma RunWaitAndPrint(cfg: M.Config, t: M.Track, n: nat, execute: bool, later: seq<M.Cycle>)
    requires n > 0
    ensures S.RunCycles(cfg, t, M.Repeat([M.W] + M.Atom(!execute), n) + later)
            == S.RunCycles(cfg, M.Print(cfg, t.(waitCount := t.waitCount + 1), execute),
                           M.Repeat([M.W] + M.Atom(!execute), n - 1) + later)
  {
    var rest := M.Repeat([M.W] + M.Atom(!execute), n - 1) + later;
    assert M.Repeat([M.W] + M.Atom(!execute), n) + later == [M.W] + (M.Atom(!execute) + rest);
    RunWait(cfg, t, M.Atom(!execute) + rest);
    RunFirst(cfg, t.(waitCount := t.waitCount + 1), execute, rest);
  }

  // ---------- whole programs ----------

  /** The whole program on a raw trace: it decodes the input's bytes, every wait cycle received is
      reported, and every line carries the right address. */
  method DecodeTrace(cfg: M.Config, input: seq<Byte>) returns (log: M.Log)
    ensures log == S.DecodeAll(cfg, M.Initial(input)).track.log
    ensures Reported(log) == Received(cfg, log) && Addressed(cfg, log)
  {
    var port := new Port(false, NO_SOURCE, input);
    var decoder := new Decoder(cfg, port);
    decoder.Run();
    AllWaitsReported(cfg, input);
    EveryLineAddressed(cfg, input);
    log := decoder.log;
  }

  const NO_SOURCE: Word := seq(32, _ => false)

  /** The whole program on a formatted trace: it decodes exactly the bytes of the wanted sources. */
  method DecodeFrames(cfg: M.Config, mask: Word, frames: seq<F.Frame>, input: seq<Byte>) returns (log: M.Log)
    requires forall f | f in frames :: f.Valid()
    requires input == F.EncodeAll(frames)
    ensures log == S.DecodeAll(cfg, M.Initial(F.Filter(mask, F.Items(frames, 0)))).track.log
    ensures Reported(log) == Received(cfg, log) && Addressed(cfg, log)
  {
    var port := new Port(true, mask, input);
    F.FormatterRoundTrip(frames, port.packet[..], 0, mask);
    var decoder := new Decoder(cfg, port);
    decoder.Run();
    AllWaitsReported(cfg, F.Filter(mask, F.Items(frames, 0)));
    EveryLineAddressed(cfg, F.Filter(mask, F.Items(frames, 0)));
    log := decoder.log;
  }
}
