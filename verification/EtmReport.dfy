/** What a trace says about the traced program, free of the decoder's own state, and the proof that the decoder's
    log says exactly what was sent. */
module EtmReport {
  import opened BitWords
  import opened EtmBranch
  import opened EtmCounts
  import EtmHeaders
  import opened EtmModel
  import opened EtmPackets
  import opened EtmSync
  import opened EtmTrace
  import T = EtmTimestamp

  datatype Fact =
    | WentTo(target: Target)
    | Ran(execute: bool)
    | TimeWas(stamp: Stamp, r: bool)
    | Elapsed(count: Word)
    | InContext(context: Word)
    | OnMachine(vmid: Byte)
    | Exception(info: seq<Byte>)
    | Accessed(value: seq<Word>, place: seq<Word>)

  /** What a printed line says, apart from what the decoder computed to print it. */
  function Said(e: Event): seq<Fact> {
    match e
    case Insn(execute, _, _, _) => [Ran(execute)]
    case Retarget(addr, mode) => [WentTo(Target(addr, mode))]
    case BranchLine(_, info) => Told(info)
    case WaypointLine(_, info) => Told(info)
    case IsyncLine(context, _, _) => [InContext(context)]
    case TimestampLine(stamp, r) => [TimeWas(stamp, r)]
    case CycleLine(count) => [Elapsed(count)]
    case ContextLine(context) => [InContext(context)]
    case VmidLine(vmid) => [OnMachine(vmid)]
    case DataLine(value, place) => [Accessed(value, place)]
    case _ => []
  }

  function Told(info: seq<Byte>): seq<Fact> {
    if info == [] then [] else [Exception(info)]
  }

  /** Everything printed, oldest first. */
  function Report(log: Log): seq<Fact> {
    if log.Start? then [] else Report(log.before) + Said(log.event)
  }

  function Outcomes(cycles: seq<Cycle>): seq<Fact> {
    if cycles == [] then []
    else (if cycles[0].W? then [] else [Ran(cycles[0].E?)]) + Outcomes(cycles[1..])
  }

  /** A branch of the program-flow protocol that is no exception implies an executed instruction. */
  function Arrival(cfg: Config, to: Target, info: seq<Byte>): seq<Fact> {
    (if cfg.programFlowOnly && info == [] then [Ran(true)] else []) + [WentTo(to)]
  }

  function Counting(cfg: Config, count: Word): seq<Fact> {
    if Counted(cfg) then [Elapsed(count)] else []
  }

  function Synchronised(cfg: Config, context: Word, status: Byte, addr: Word, between: seq<Fact>): seq<Fact> {
    [WentTo(Target(SyncAddr(status, addr), SyncMode(status, addr)))] + between
    + [InContext(LowBytes(context, cfg.contextidBytes))]
  }

  /** What a packet says: no part of it depends on what was sent before. */
  function Facts(cfg: Config, p: Packet): seq<Fact> {
    match p
    case BranchTo(to, info, count) => Arrival(cfg, to, info) + Told(InfoShown(info)) + Counting(cfg, count)
    case WaypointAt(to, info) => Arrival(cfg, to, info) + Told(info)
    case TimeIs(stamp, r, count) => [TimeWas(stamp, r)] + Counting(cfg, count)
    case Sync(context, status, addr, count) =>
      Synchronised(cfg, context, status, addr,
                   if cfg.table == Pft11 && CountAnnounced(cfg, status) then [Elapsed(count)] else [])
    case CountedSync(context, status, addr, count) =>
      [Elapsed(count)] + Synchronised(cfg, context, status, addr, [])
    case CycleCount(count) => [Elapsed(count)]
    case Cycles(h) => Outcomes(h.Cycles())
    case Instructions(h) => Outcomes(h.Cycles())
    case Atoms(nos) => seq(|nos|, i requires 0 <= i < |nos| => Ran(!nos[i]))
    case CountedAtom(no, count) => [Elapsed(count), Ran(!no)]
    case Data(d) => [Accessed(if d.size > 0 then [LowBytes(d.value, d.size)] else [], d.place)]
    case ContextIs(context) => [InContext(LowBytes(context, cfg.contextidBytes))]
    case MachineIs(vmid) => [OnMachine(vmid)]
    case Silent(_) => []
    case Named(_) => []
  }

  function AllFacts(cfg: Config, packets: seq<Packet>): seq<Fact> {
    if packets == [] then [] else Facts(cfg, packets[0]) + AllFacts(cfg, packets[1..])
  }

  // ---------- the log says what was sent ----------

  lemma ReportEmit(t: Track, e: Event)
    ensures Report(Emit(t, e).log) == Report(t.log) + Said(e)
  {}

  lemma Nothing(a: seq<Fact>)
    ensures a + [] == a
  {}

  lemma Regroup(a: seq<Fact>, b: seq<Fact>, c: seq<Fact>)
    ensures (a + b) + c == a + (b + c)
  {}

  lemma {:induction false} ReportCycles(cfg: Config, t: Track, cycles: seq<Cycle>)
    ensures Report(RunCycles(cfg, t, cycles).log) == Report(t.log) + Outcomes(cycles)
    decreases |cycles|
  {
    if cycles == [] {
      Nothing(Report(t.log));
    } else {
      var first := if cycles[0].W? then [] else [Ran(cycles[0].E?)];
      ReportCycle(cfg, t, cycles[0]);
      ReportCycles(cfg, RunCycle(cfg, t, cycles[0]), cycles[1..]);
      Regroup(Report(t.log), first, Outcomes(cycles[1..]));
    }
  }

  lemma ReportCycle(cfg: Config, t: Track, c: Cycle)
    ensures Report(RunCycle(cfg, t, c).log) == Report(t.log) + if c.W? then [] else [Ran(c.E?)]
  {
    if c.W? { Nothing(Report(t.log)); }
  }

  lemma {:induction false} AtomOutcomes(nos: seq<bool>)
    ensures Outcomes(EtmHeaders.AtomsOf(nos)) == seq(|nos|, i requires 0 <= i < |nos| => Ran(!nos[i]))
  {
    var facts := seq(|nos|, i requires 0 <= i < |nos| => Ran(!nos[i]));
    if nos == [] {
    } else {
      var later := seq(|nos| - 1, i requires 0 <= i < |nos| - 1 => Ran(!nos[1..][i]));
      AtomOutcomes(nos[1..]);
      assert EtmHeaders.AtomsOf(nos)[1..] == EtmHeaders.AtomsOf(nos[1..]);
      assert facts == [Ran(!nos[0])] + later;
    }
  }

  lemma ReportArrival(cfg: Config, t: Track, to: Target, info: seq<Byte>)
    ensures Report(TakeBranch(cfg, t, to.addr, to.mode, info != []).log) == Report(t.log) + Arrival(cfg, to, info)
  {
    if cfg.programFlowOnly && info == [] {
      Regroup(Report(t.log), [Ran(true)], [WentTo(to)]);
    } else {
      assert Arrival(cfg, to, info) == [WentTo(to)];
    }
  }

  lemma ReportCount(cfg: Config, t: Track, count: Word)
    ensures Report(CountShown(cfg, t, count).log) == Report(t.log) + Counting(cfg, count)
  {
    if !Counted(cfg) { Nothing(Report(t.log)); }
  }

  lemma ReportBranch(cfg: Config, t: Track, to: Target, info: seq<Byte>, count: Word)
    ensures Report(BranchTaken(cfg, t, to, info, count).log)
            == Report(t.log) + (Arrival(cfg, to, info) + Told(InfoShown(info)) + Counting(cfg, count))
  {
    var taken := TakeBranch(cfg, t, to.addr, to.mode, info != []);
    ReportArrival(cfg, t, to, info);
    ReportLineAndCount(cfg, Report(t.log), Arrival(cfg, to, info), taken, BranchLine(to.addr, InfoShown(info)), count);
  }

  lemma ReportLineAndCount(cfg: Config, before: seq<Fact>, arrival: seq<Fact>, t: Track, e: Event, count: Word)
    requires Report(t.log) == before + arrival
    ensures Report(CountShown(cfg, Emit(t, e), count).log) == before + (arrival + Said(e) + Counting(cfg, count))
  {
    ReportEmit(t, e);
    ReportCount(cfg, Emit(t, e), count);
    Regroup4(before, arrival, Said(e), Counting(cfg, count));
  }

  lemma Regroup4(a: seq<Fact>, b: seq<Fact>, c: seq<Fact>, d: seq<Fact>)
    ensures ((a + b) + c) + d == a + (b + c + d)
  {}

  lemma ReportWaypoint(cfg: Config, t: Track, to: Target, info: seq<Byte>)
    ensures Report(WaypointTaken(cfg, t, to, info).log) == Report(t.log) + Facts(cfg, WaypointAt(to, info))
  {
    var taken := TakeBranch(cfg, t, to.addr, to.mode, info != []);
    ReportArrival(cfg, t, to, info);
    ReportEmit(taken, WaypointLine(to.addr, info));
    Regroup(Report(t.log), Arrival(cfg, to, info), Told(info));
  }

  lemma ReportTime(cfg: Config, t: Track, stamp: Stamp, r: bool, count: Word)
    ensures Report(CountShown(cfg, T.Stamped(t, stamp, r), count).log)
            == Report(t.log) + Facts(cfg, TimeIs(stamp, r, count))
  {
    ReportCount(cfg, T.Stamped(t, stamp, r), count);
    Regroup(Report(t.log), [TimeWas(stamp, r)], Counting(cfg, count));
  }

  /** A synchronisation, with `between` printed after the address is taken over. */
  lemma ReportSync(cfg: Config, t: Track, u: Track, context: Word, status: Byte, addr: Word, between: seq<Fact>)
    requires Report(u.log) == Report(Placed(t, status, addr).log) + between
    ensures Report(SyncShown(cfg, u, context, status).log)
            == Report(t.log) + Synchronised(cfg, context, status, addr, between)
  {
    var to := Target(SyncAddr(status, addr), SyncMode(status, addr));
    ReportEmit(u, IsyncLine(LowBytes(context, cfg.contextidBytes), status, u.iaddr));
    Regroup4(Report(t.log), [WentTo(to)], between, [InContext(LowBytes(context, cfg.contextidBytes))]);
  }

  lemma ReportPlaced(cfg: Config, t: Track, p: Packet)
    requires p.Sync? && p.Valid(cfg)
    ensures Report(p.Meaning(cfg, t).log) == Report(t.log) + Facts(cfg, p)
  {
    var placed := Placed(t, p.status, p.addr);
    Nothing(Report(placed.log));
    if cfg.table == Pft11 && CountAnnounced(cfg, p.status) {
      ReportEmit(placed, CycleLine(p.count));
      ReportSync(cfg, t, Emit(placed, CycleLine(p.count)), p.context, p.status, p.addr, [Elapsed(p.count)]);
    } else {
      ReportSync(cfg, t, placed, p.context, p.status, p.addr, []);
    }
  }

  lemma ReportCountedSync(cfg: Config, t: Track, context: Word, status: Byte, addr: Word, count: Word)
    ensures Report(SyncShown(cfg, Placed(Emit(t, CycleLine(count)), status, addr), context, status).log)
            == Report(t.log) + Facts(cfg, CountedSync(context, status, addr, count))
  {
    var counted := Emit(t, CycleLine(count));
    Nothing(Report(Placed(counted, status, addr).log));
    ReportSync(cfg, counted, Placed(counted, status, addr), context, status, addr, []);
    Regroup(Report(t.log), [Elapsed(count)], Synchronised(cfg, context, status, addr, []));
  }

  lemma ReportHeader(cfg: Config, t: Track, h: Byte, cycles: seq<Cycle>)
    ensures Report(RunCycles(cfg, Emit(t, Header(h)), cycles).log) == Report(t.log) + Outcomes(cycles)
  {
    ReportEmit(t, Header(h));
    Nothing(Report(t.log));
    ReportCycles(cfg, Emit(t, Header(h)), cycles);
  }

  lemma ReportCountedAtom(cfg: Config, t: Track, no: bool, count: Word)
    ensures Report(Print(cfg, Emit(t, CycleLine(count)), !no).log)
            == Report(t.log) + Facts(cfg, CountedAtom(no, count))
  {
    Regroup(Report(t.log), [Elapsed(count)], [Ran(!no)]);
  }

  /** Whatever has been decoded before, a packet adds to the log exactly what it says. */
  lemma PacketReported(cfg: Config, t: Track, p: Packet)
    requires p.Valid(cfg)
    ensures Report(p.Meaning(cfg, t).log) == Report(t.log) + Facts(cfg, p)
  {
    match p
    case BranchTo(to, info, count) => ReportBranch(cfg, t, to, info, count);
    case WaypointAt(to, info) => ReportWaypoint(cfg, t, to, info);
    case TimeIs(stamp, r, count) => ReportTime(cfg, t, stamp, r, count);
    case Sync(_, _, _, _) => ReportPlaced(cfg, t, p);
    case CountedSync(context, status, addr, count) => ReportCountedSync(cfg, t, context, status, addr, count);
    case CycleCount(_) =>
    case Cycles(h) => ReportHeader(cfg, t, h.Encode(), h.Cycles());
    case Instructions(h) => ReportHeader(cfg, t, h.Encode(), h.Cycles());
    case Atoms(nos) =>
      AtomOutcomes(nos);
      ReportCycles(cfg, t, EtmHeaders.AtomsOf(nos));
    case CountedAtom(no, count) => ReportCountedAtom(cfg, t, no, count);
    case Data(_) =>
    case ContextIs(_) =>
    case MachineIs(_) =>
    case Silent(_) => Nothing(Report(t.log));
    case Named(_) => Nothing(Report(t.log));
  }

  lemma {:induction false} TraceReported(cfg: Config, t: Track, packets: seq<Packet>)
    requires AllValid(cfg, packets)
    ensures Report(TraceMeaning(cfg, t, packets).log) == Report(t.log) + AllFacts(cfg, packets)
    decreases |packets|
  {
    if packets == [] {
      Nothing(Report(t.log));
    } else {
      var p, later := packets[0], packets[1..];
      PacketReported(cfg, t, p);
      TraceReported(cfg, p.Meaning(cfg, t), later);
      Regroup(Report(t.log), Facts(cfg, p), AllFacts(cfg, later));
    }
  }

  /** Decoding undoes encoding: the decoder reports exactly the facts that the packets were made from, in order,
      whatever their kinds and whatever came before. */
  lemma FactsRecovered(cfg: Config, s: State, packets: seq<Packet>, rest: seq<Byte>)
    requires !s.exited && AllValid(cfg, packets) && s.input == TraceBytes(cfg, s.track, packets) + rest
    ensures var r := Decoded(cfg, s, |packets|);
            !r.exited && r.input == rest && Report(r.track.log) == Report(s.track.log) + AllFacts(cfg, packets)
  {
    TraceRoundTrip(cfg, s, packets, rest);
    TraceReported(cfg, s.track, packets);
  }

  /** The whole program on a whole trace reports exactly what the packets were made from. */
  lemma ProgramReports(cfg: Config, s: State, packets: seq<Packet>)
    requires !s.exited && AllValid(cfg, packets) && s.input == TraceBytes(cfg, s.track, packets)
    ensures Report(DecodeAll(cfg, s).track.log) == Report(s.track.log) + AllFacts(cfg, packets)
  {
    ProgramRoundTrip(cfg, s, packets);
    TraceReported(cfg, s.track, packets);
    EndReportsNothing(TraceMeaning(cfg, s.track, packets));
  }

  lemma EndReportsNothing(t: Track)
    ensures Report(AtEnd(t).log) == Report(t.log)
  {
    Nothing(Report(t.log));
  }

  lemma CancelFront(x: seq<Fact>, y: seq<Fact>, z: seq<Fact>)
    requires x + y == x + z
    ensures y == z
  {
    assert (x + y)[|x|..] == y && (x + z)[|x|..] == z;
  }

  /** The encoding loses nothing: traces of the same bytes say the same, however they are cut into packets. */
  lemma EncodingInjective(cfg: Config, t: Track, a: seq<Packet>, b: seq<Packet>)
    requires AllValid(cfg, a) && AllValid(cfg, b) && TraceBytes(cfg, t, a) == TraceBytes(cfg, t, b)
    ensures AllFacts(cfg, a) == AllFacts(cfg, b)
  {
    var s := State(TraceBytes(cfg, t, a), false, ZERO_BYTE, t);
    ProgramReports(cfg, s, a);
    ProgramReports(cfg, s, b);
    CancelFront(Report(t.log), AllFacts(cfg, a), AllFacts(cfg, b));
  }
}
