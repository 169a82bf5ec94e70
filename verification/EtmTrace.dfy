/** Whole traces: an encoder for lists of packets of every kind that the decoder handles, in either protocol, and the
    proof that the decoder undoes it. */
module EtmTrace {
  import opened BitWords
  import opened EtmBranch
  import opened EtmCounts
  import opened EtmHeaders
  import opened EtmModel
  import opened EtmPackets
  import opened EtmSound
  import opened EtmSync
  import opened EtmTables
  import T = EtmTimestamp

  // ---------- packets ----------

  datatype Packet =
    | BranchTo(to: Target, info: seq<Byte>, count: Word)
    | WaypointAt(to: Target, info: seq<Byte>)
    | TimeIs(stamp: Stamp, r: bool, count: Word)
    | Sync(context: Word, status: Byte, addr: Word, count: Word)
    | CountedSync(context: Word, status: Byte, addr: Word, count: Word)
    | CycleCount(count: Word)
    | Cycles(cycles: CycleHeader)
    | Instructions(plain: PlainHeader)
    | Atoms(nos: seq<bool>)
    | CountedAtom(no: bool, count: Word)
    | Data(datum: Datum)
    | ContextIs(context: Word)
    | MachineIs(vmid: Byte)
    | Silent(ch: Byte)
    | Named(ch: Byte)
  {
    /** Which protocol has the packet, and what it can carry. */
    predicate Valid(cfg: Config) {
      match this
      case BranchTo(to, info, _) => to.Aligned() && ExceptionInfo(info)
      case WaypointAt(to, info) => cfg.table == Pft11 && to.Aligned() && |info| <= 1
      case TimeIs(_, _, _) => true
      case Sync(_, _, _, _) => cfg.contextidBytes <= 4
      case CountedSync(_, _, _, _) => cfg.table == Etm33 && cfg.contextidBytes <= 4
      case CycleCount(_) => cfg.table == Etm33
      case Cycles(h) => cfg.table == Etm33 && cfg.cycleAccurate && h.Valid()
      case Instructions(h) => cfg.table == Etm33 && !cfg.cycleAccurate && h.Valid()
      case Atoms(nos) => cfg.table == Pft11 && !cfg.cycleAccurate && 1 <= |nos| <= 5
      case CountedAtom(_, _) => Counted(cfg)
      case Data(d) => cfg.table == Etm33 && d.Valid()
      case ContextIs(_) => cfg.contextidBytes <= 4
      case MachineIs(_) => true
      case Silent(ch) => KindOf(cfg.table, ch).KSilent?
      case Named(ch) => KindOf(cfg.table, ch).KNotice? || KindOf(cfg.table, ch).KNone?
    }

    /** The bytes sent, when the decoder has come to t: addresses and times only as far as they differ. */
    function Bytes(cfg: Config, t: Track): seq<Byte>
      requires Valid(cfg)
    {
      match this
      case BranchTo(to, info, count) => BranchPacket(Current(t), to, info, cfg.altBranch) + CountSent(cfg, count)
      case WaypointAt(to, info) => [WaypointHeader()] + BranchPacket(Current(t), to, info, cfg.altBranch)
      case TimeIs(stamp, r, count) =>
        [T.HeaderByte(r)] + (T.Delta(t.timestamp, stamp) + CountSent(cfg, count))
      case Sync(context, status, addr, count) =>
        [SyncHeader()] + if cfg.table == Etm33 then IsyncBytes(cfg, context, status, addr)
                         else IsyncPftBytes(cfg, context, status, addr, count)
      case CountedSync(context, status, addr, count) =>
        [CountedSyncHeader()] + (CountBytes(count) + IsyncBytes(cfg, context, status, addr))
      case CycleCount(count) => [CycleCountHeader()] + CountBytes(count)
      case Cycles(h) => [h.Encode()]
      case Instructions(h) => [h.Encode()]
      case Atoms(nos) => [AtomHeader(nos)]
      case CountedAtom(no, count) => CountedAtomBytes(no, count)
      case Data(d) => [d.Header()] + d.Body(t.dataAddr)
      case ContextIs(context) => [ContextHeader()] + WordBytes(context, 0, cfg.contextidBytes)
      case MachineIs(vmid) => [MachineHeader()] + [vmid]
      case Silent(ch) => [ch]
      case Named(ch) => [ch]
    }

    /** What the packet says: where the decoder comes to from t, with the lines that it prints. */
    function Meaning(cfg: Config, t: Track): Track
      requires Valid(cfg)
    {
      match this
      case BranchTo(to, info, count) => BranchTaken(cfg, t, to, info, count)
      case WaypointAt(to, info) => WaypointTaken(cfg, t, to, info)
      case TimeIs(stamp, r, count) => CountShown(cfg, T.Stamped(t, stamp, r), count)
      case Sync(context, status, addr, count) =>
        SyncShown(cfg, if cfg.table == Etm33 then Placed(t, status, addr) else PlacedPft(cfg, t, status, addr, count),
                  context, status)
      case CountedSync(context, status, addr, count) =>
        SyncShown(cfg, Placed(Emit(t, CycleLine(count)), status, addr), context, status)
      case CycleCount(count) => Emit(t, CycleLine(count))
      case Cycles(h) => RunCycles(cfg, Emit(t, Header(h.Encode())), h.Cycles())
      case Instructions(h) => RunCycles(cfg, Emit(t, Header(h.Encode())), h.Cycles())
      case Atoms(nos) => RunCycles(cfg, t, AtomsOf(nos))
      case CountedAtom(no, count) => Print(cfg, Emit(t, CycleLine(count)), !no)
      case Data(d) => d.Shown(t)
      case ContextIs(context) => Emit(t, ContextLine(LowBytes(context, cfg.contextidBytes)))
      case MachineIs(vmid) => Emit(t, VmidLine(vmid))
      case Silent(_) => t
      case Named(_) => Emit(t, PlainLine)
    }
  }

  function BranchTaken(cfg: Config, t: Track, to: Target, info: seq<Byte>, count: Word): Track {
    CountShown(cfg, Emit(TakeBranch(cfg, t, to.addr, to.mode, info != []), BranchLine(to.addr, InfoShown(info))), count)
  }

  function WaypointTaken(cfg: Config, t: Track, to: Target, info: seq<Byte>): Track {
    Emit(TakeBranch(cfg, t, to.addr, to.mode, info != []), WaypointLine(to.addr, info))
  }

  function CountedAtomBytes(no: bool, count: Word): seq<Byte> {
    var k := GroupsNeeded(count, NoAddr(), 4, 0);
    [CountHeader(count, k > 0, false, no, true)] + Groups(count, 4, k)
  }

  function CycleCountHeader(): Byte { [false, false, true, false, false, false, false, false] }
  function SyncHeader(): Byte { [false, false, false, true, false, false, false, false] }
  function CountedSyncHeader(): Byte { [false, false, false, false, true, true, true, false] }
  function MachineHeader(): Byte { [false, false, true, true, true, true, false, false] }
  function ContextHeader(): Byte { [false, true, true, true, false, true, true, false] }
  function WaypointHeader(): Byte { [false, true, false, false, true, true, true, false] }

  /** The decoder is about to read p. */
  predicate Sends(cfg: Config, s: State, p: Packet, rest: seq<Byte>) {
    !s.exited && p.Valid(cfg) && s.input == p.Bytes(cfg, s.track) + rest
  }

  lemma HeaderApart(h: Byte, body: seq<Byte>, rest: seq<Byte>)
    ensures ([h] + body) + rest == [h] + (body + rest)
  {}

  lemma Associate(a: seq<Byte>, b: seq<Byte>, c: seq<Byte>)
    ensures (a + b) + c == a + (b + c)
  {}

  /** A packet of one header byte and a body: what its handler does with the body is what happens. */
  lemma BodyFollows(cfg: Config, s: State, n: nat, kind: Kind, h: Byte, body: seq<Byte>, rest: seq<Byte>)
      returns (t: State)
    requires Handles(cfg.table, n, kind, h)
    requires !s.exited && s.input == ([h] + body) + rest
    ensures t == s.(input := body + rest, data := h)
    ensures DecodeOne(cfg, s) == Decode(cfg, kind, t)
  {
    HeaderApart(h, body, rest);
    Dispatched(cfg, s, n, kind, h, body + rest);
    t := s.(input := body + rest, data := h);
  }

  // ---------- the rows of the packets ----------

  lemma BranchHandled(table: Table, ch: Byte) returns (n: nat, kind: Kind)
    requires ch[0]
    ensures Handles(table, n, kind, ch) && if table == Etm33 then kind.KBranch? else kind.KBranchPft?
  {
    n, kind := if table == Etm33 then 0 else 3, if table == Etm33 then KBranch else KBranchPft;
  }

  lemma WaypointHandled() returns (n: nat, kind: Kind)
    ensures Handles(Pft11, n, kind, WaypointHeader()) && kind.KWaypoint?
  {
    n, kind := 4, KWaypoint;
  }

  lemma TimeHandled(table: Table, r: bool) returns (n: nat, kind: Kind)
    ensures Handles(table, n, kind, T.HeaderByte(r)) && if table == Etm33 then kind.KTimestamp? else kind.KTimestampPft?
  {
    n, kind := if table == Etm33 then 16 else 8, if table == Etm33 then KTimestamp else KTimestampPft;
  }

  lemma SyncHandled(table: Table) returns (n: nat, kind: Kind)
    ensures Handles(table, n, kind, SyncHeader()) && if table == Etm33 then kind.KIsync? else kind.KIsyncPft?
  {
    n, kind := if table == Etm33 then 3 else 1, if table == Etm33 then KIsync else KIsyncPft;
  }

  lemma CountedSyncHandled() returns (n: nat, kind: Kind)
    ensures Handles(Etm33, n, kind, CountedSyncHeader()) && kind.KIsyncCC?
  {
    n, kind := 7, KIsyncCC;
  }

  lemma CycleCountHandled() returns (n: nat, kind: Kind)
    ensures Handles(Etm33, n, kind, CycleCountHeader()) && kind.KCCount?
  {
    n, kind := 2, KCCount;
  }

  lemma HeaderHandled(table: Table, h: Byte) returns (n: nat, kind: Kind)
    requires h[7] && !h[0]
    ensures Handles(table, n, kind, h) && if table == Etm33 then kind.KPHeader? else kind.KAtom?
  {
    n, kind := if table == Etm33 then 25 else 2, if table == Etm33 then KPHeader else KAtom;
  }

  lemma DataHandled(d: Datum) returns (n: nat, kind: Kind)
    ensures Handles(Etm33, n, kind, d.Header()) && kind.KNData?
  {
    n, kind := 14, KNData;
  }

  lemma ContextHandled(table: Table) returns (n: nat, kind: Kind)
    ensures Handles(table, n, kind, ContextHeader()) && kind.KContextId?
  {
    n, kind := if table == Etm33 then 21 else 6, KContextId;
  }

  lemma MachineHandled(table: Table) returns (n: nat, kind: Kind)
    ensures Handles(table, n, kind, MachineHeader()) && kind.KVmid?
  {
    n, kind := if table == Etm33 then 12 else 7, KVmid;
  }

  // ---------- packets of each kind ----------

  lemma BranchDecodes(cfg: Config, s: State, to: Target, info: seq<Byte>, count: Word, rest: seq<Byte>)
    requires !s.exited && to.Aligned() && ExceptionInfo(info)
    requires s.input == (BranchPacket(Current(s.track), to, info, cfg.altBranch) + CountSent(cfg, count)) + rest
    ensures Reaches(DecodeOne(cfg, s), BranchTaken(cfg, s.track, to, info, count), rest)
  {
    var from, counted := Current(s.track), CountSent(cfg, count);
    Associate(BranchPacket(from, to, info, cfg.altBranch), counted, rest);
    var k := HeaderFirst(from, to, info, cfg.altBranch, counted + rest);
    var first := BranchByte(0, k, to, info != [], cfg.altBranch);
    var more := BranchBytes(1, k, to, info != [], cfg.altBranch) + (info + (counted + rest));
    var t := s.(input := more, data := first);
    var n, kind := BranchHandled(cfg.table, first);
    Dispatched(cfg, s, n, kind, first, more);
    Handlers(cfg, kind, t);
    BranchThenCount(cfg, t, k, to, info, count, rest);
  }

  /** From the second byte on. */
  lemma BranchThenCount(cfg: Config, s: State, k: nat, to: Target, info: seq<Byte>, count: Word, rest: seq<Byte>)
    requires !s.exited && to.Aligned() && ExceptionInfo(info) && 1 <= k <= 5
    requires Suffices(k, Current(s.track), to, info != [], cfg.altBranch)
    requires s.data == BranchByte(0, k, to, info != [], cfg.altBranch)
    requires s.input == BranchBytes(1, k, to, info != [], cfg.altBranch) + (info + (CountSent(cfg, count) + rest))
    ensures Reaches(WithCount(cfg, Branch(cfg, s)), BranchTaken(cfg, s.track, to, info, count), rest)
  {
    BranchRoundTrip(cfg, s, k, to, info, CountSent(cfg, count) + rest);
    CountTaken(cfg, Branch(cfg, s), count, rest);
  }

  lemma WaypointDecodes(cfg: Config, s: State, to: Target, info: seq<Byte>, rest: seq<Byte>)
    requires !s.exited && cfg.table == Pft11 && to.Aligned() && |info| <= 1
    requires s.input == ([WaypointHeader()] + BranchPacket(Current(s.track), to, info, cfg.altBranch)) + rest
    ensures Reaches(DecodeOne(cfg, s), WaypointTaken(cfg, s.track, to, info), rest)
  {
    var n, kind := WaypointHandled();
    var t := BodyFollows(cfg, s, n, kind, WaypointHeader(), BranchPacket(Current(s.track), to, info, cfg.altBranch), rest);
    Handlers(cfg, kind, t);
    WaypointRoundTrip(cfg, t, to, info, rest);
  }

  lemma TimeDecodes(cfg: Config, s: State, stamp: Stamp, r: bool, count: Word, rest: seq<Byte>)
    requires !s.exited && s.input == ([T.HeaderByte(r)] + (T.Delta(s.track.timestamp, stamp) + CountSent(cfg, count))) + rest
    ensures Reaches(DecodeOne(cfg, s), CountShown(cfg, T.Stamped(s.track, stamp, r), count), rest)
  {
    var body := T.Delta(s.track.timestamp, stamp) + CountSent(cfg, count);
    var n, kind := TimeHandled(cfg.table, r);
    var t := BodyFollows(cfg, s, n, kind, T.HeaderByte(r), body, rest);
    Handlers(cfg, kind, t);
    TimeThenCount(cfg, t, stamp, r, count, rest);
  }

  lemma TimeThenCount(cfg: Config, s: State, stamp: Stamp, r: bool, count: Word, rest: seq<Byte>)
    requires !s.exited && s.data == T.HeaderByte(r)
    requires s.input == (T.Delta(s.track.timestamp, stamp) + CountSent(cfg, count)) + rest
    ensures Reaches(WithCount(cfg, Timestamp(s)), CountShown(cfg, T.Stamped(s.track, stamp, r), count), rest)
  {
    Associate(T.Delta(s.track.timestamp, stamp), CountSent(cfg, count), rest);
    T.TimestampRoundTrip(s, T.Length(1, s.track.timestamp, stamp), stamp, r, CountSent(cfg, count) + rest);
    CountTaken(cfg, Timestamp(s), count, rest);
  }

  lemma SyncDecodes(cfg: Config, s: State, context: Word, status: Byte, addr: Word, rest: seq<Byte>)
    requires !s.exited && cfg.table == Etm33 && cfg.contextidBytes <= 4
    requires s.input == ([SyncHeader()] + IsyncBytes(cfg, context, status, addr)) + rest
    ensures Reaches(DecodeOne(cfg, s), SyncShown(cfg, Placed(s.track, status, addr), context, status), rest)
  {
    var n, kind := SyncHandled(cfg.table);
    var t := BodyFollows(cfg, s, n, kind, SyncHeader(), IsyncBytes(cfg, context, status, addr), rest);
    Handlers(cfg, kind, t);
    IsyncRoundTrip(cfg, t, context, status, addr, rest);
  }

  lemma SyncPftDecodes(cfg: Config, s: State, context: Word, status: Byte, addr: Word, count: Word, rest: seq<Byte>)
    requires !s.exited && cfg.table == Pft11 && cfg.contextidBytes <= 4
    requires s.input == ([SyncHeader()] + IsyncPftBytes(cfg, context, status, addr, count)) + rest
    ensures Reaches(DecodeOne(cfg, s), SyncShown(cfg, PlacedPft(cfg, s.track, status, addr, count), context, status), rest)
  {
    var n, kind := SyncHandled(cfg.table);
    var t := BodyFollows(cfg, s, n, kind, SyncHeader(), IsyncPftBytes(cfg, context, status, addr, count), rest);
    Handlers(cfg, kind, t);
    IsyncPftRoundTrip(cfg, t, context, status, addr, count, rest);
  }

  lemma CountedSyncDecodes(cfg: Config, s: State, context: Word, status: Byte, addr: Word, count: Word, rest: seq<Byte>)
    requires !s.exited && cfg.table == Etm33 && cfg.contextidBytes <= 4
    requires s.input == ([CountedSyncHeader()] + (CountBytes(count) + IsyncBytes(cfg, context, status, addr))) + rest
    ensures Reaches(DecodeOne(cfg, s),
                    SyncShown(cfg, Placed(Emit(s.track, CycleLine(count)), status, addr), context, status), rest)
  {
    var body := CountBytes(count) + IsyncBytes(cfg, context, status, addr);
    var n, kind := CountedSyncHandled();
    var t := BodyFollows(cfg, s, n, kind, CountedSyncHeader(), body, rest);
    Handlers(cfg, kind, t);
    CountThenSync(cfg, t, context, status, addr, count, rest);
  }

  lemma CountThenSync(cfg: Config, s: State, context: Word, status: Byte, addr: Word, count: Word, rest: seq<Byte>)
    requires !s.exited && cfg.contextidBytes <= 4
    requires s.input == (CountBytes(count) + IsyncBytes(cfg, context, status, addr)) + rest
    ensures Reaches(IsyncCC(cfg, s),
                    SyncShown(cfg, Placed(Emit(s.track, CycleLine(count)), status, addr), context, status), rest)
  {
    var sync := IsyncBytes(cfg, context, status, addr);
    Associate(CountBytes(count), sync, rest);
    CCountRoundTrip(s, count, GroupsNeeded(count, NoAddr(), 0, 1), sync + rest);
    IsyncRoundTrip(cfg, CCount(s), context, status, addr, rest);
  }

  lemma CycleCountDecodes(cfg: Config, s: State, count: Word, rest: seq<Byte>)
    requires !s.exited && cfg.table == Etm33
    requires s.input == ([CycleCountHeader()] + CountBytes(count)) + rest
    ensures Reaches(DecodeOne(cfg, s), Emit(s.track, CycleLine(count)), rest)
  {
    var n, kind := CycleCountHandled();
    var t := BodyFollows(cfg, s, n, kind, CycleCountHeader(), CountBytes(count), rest);
    Handlers(cfg, kind, t);
    CCountRoundTrip(t, count, GroupsNeeded(count, NoAddr(), 0, 1), rest);
  }

  /** A P-header whose cycles are known. */
  lemma HeaderDecodes(cfg: Config, s: State, h: Byte, cycles: seq<Cycle>, rest: seq<Byte>)
    requires !s.exited && cfg.table == Etm33 && s.input == [h] + rest
    requires h[7] && !h[0] && KnownHeader(cfg, h) && HeaderCycles(cfg, h) == cycles
    ensures Reaches(DecodeOne(cfg, s), RunCycles(cfg, Emit(s.track, Header(h)), cycles), rest)
  {
    var n, kind := HeaderHandled(cfg.table, h);
    Dispatched(cfg, s, n, kind, h, rest);
    Handlers(cfg, kind, s.(input := rest, data := h));
  }

  lemma CycleHeaderDecodes(cfg: Config, s: State, h: CycleHeader, rest: seq<Byte>)
    requires !s.exited && cfg.table == Etm33 && cfg.cycleAccurate && h.Valid() && s.input == [h.Encode()] + rest
    ensures Reaches(DecodeOne(cfg, s), RunCycles(cfg, Emit(s.track, Header(h.Encode())), h.Cycles()), rest)
  {
    CycleHeaderRoundTrip(cfg, h);
    HeaderDecodes(cfg, s, h.Encode(), h.Cycles(), rest);
  }

  lemma PlainHeaderDecodes(cfg: Config, s: State, h: PlainHeader, rest: seq<Byte>)
    requires !s.exited && cfg.table == Etm33 && !cfg.cycleAccurate && h.Valid() && s.input == [h.Encode()] + rest
    ensures Reaches(DecodeOne(cfg, s), RunCycles(cfg, Emit(s.track, Header(h.Encode())), h.Cycles()), rest)
  {
    PlainHeaderRoundTrip(cfg, h);
    HeaderDecodes(cfg, s, h.Encode(), h.Cycles(), rest);
  }

  lemma AtomsDecode(cfg: Config, s: State, nos: seq<bool>, rest: seq<Byte>)
    requires !s.exited && cfg.table == Pft11 && !cfg.cycleAccurate && 1 <= |nos| <= 5
    requires s.input == [AtomHeader(nos)] + rest
    ensures Reaches(DecodeOne(cfg, s), RunCycles(cfg, s.track, AtomsOf(nos)), rest)
  {
    AtomHeaderRoundTrip(nos);
    var n, kind := HeaderHandled(cfg.table, AtomHeader(nos));
    Dispatched(cfg, s, n, kind, AtomHeader(nos), rest);
    Handlers(cfg, kind, s.(input := rest, data := AtomHeader(nos)));
  }

  lemma CountedAtomDecodes(cfg: Config, s: State, no: bool, count: Word, rest: seq<Byte>)
    requires !s.exited && Counted(cfg) && s.input == CountedAtomBytes(no, count) + rest
    ensures Reaches(DecodeOne(cfg, s), Print(cfg, Emit(s.track, CycleLine(count)), !no), rest)
  {
    var k := GroupsNeeded(count, NoAddr(), 4, 0);
    var h := CountHeader(count, k > 0, false, no, true);
    var n, kind := HeaderHandled(cfg.table, h);
    var t := BodyFollows(cfg, s, n, kind, h, Groups(count, 4, k), rest);
    Handlers(cfg, kind, t);
    CycleCountPftRoundTrip(t, count, k, rest);
  }

  lemma DataDecodes(cfg: Config, s: State, d: Datum, rest: seq<Byte>)
    requires !s.exited && cfg.table == Etm33 && d.Valid()
    requires s.input == ([d.Header()] + d.Body(s.track.dataAddr)) + rest
    ensures Reaches(DecodeOne(cfg, s), d.Shown(s.track), rest)
  {
    var n, kind := DataHandled(d);
    var t := BodyFollows(cfg, s, n, kind, d.Header(), d.Body(s.track.dataAddr), rest);
    Handlers(cfg, kind, t);
    DataRoundTrip(t, d, rest);
  }

  lemma ContextDecodes(cfg: Config, s: State, context: Word, rest: seq<Byte>)
    requires !s.exited && cfg.contextidBytes <= 4
    requires s.input == ([ContextHeader()] + WordBytes(context, 0, cfg.contextidBytes)) + rest
    ensures Reaches(DecodeOne(cfg, s), Emit(s.track, ContextLine(LowBytes(context, cfg.contextidBytes))), rest)
  {
    var n, kind := ContextHandled(cfg.table);
    var t := BodyFollows(cfg, s, n, kind, ContextHeader(),
                         WordBytes(context, 0, cfg.contextidBytes), rest);
    Handlers(cfg, kind, t);
    ReadWordRoundTrip(t, context, cfg.contextidBytes, rest);
  }

  lemma MachineDecodes(cfg: Config, s: State, vmid: Byte, rest: seq<Byte>)
    requires !s.exited && s.input == ([MachineHeader()] + [vmid]) + rest
    ensures Reaches(DecodeOne(cfg, s), Emit(s.track, VmidLine(vmid)), rest)
  {
    var n, kind := MachineHandled(cfg.table);
    var t := BodyFollows(cfg, s, n, kind, MachineHeader(), [vmid], rest);
    Handlers(cfg, kind, t);
    NextByte(t, vmid, rest);
  }

  /** Synchronisation marks, padding, and packets of which only the name is printed. */
  lemma ByteDecodes(cfg: Config, s: State, ch: Byte, kind: Kind, rest: seq<Byte>)
    requires !s.exited && s.input == [ch] + rest && kind == KindOf(cfg.table, ch)
    requires kind.KSilent? || kind.KNotice? || kind.KNone?
    ensures Reaches(DecodeOne(cfg, s), if kind.KSilent? then s.track else Emit(s.track, PlainLine), rest)
  {
    KindHandled(cfg.table, ch);
    Dispatched(cfg, s, RowOf(cfg.table, ch), kind, ch, rest);
    Handlers(cfg, kind, s.(input := rest, data := ch));
  }

  /** The packets that both protocols have. */
  predicate Common(p: Packet) {
    p.BranchTo? || p.TimeIs? || p.Sync? || p.ContextIs? || p.MachineIs? || p.Silent? || p.Named?
  }

  lemma CommonRoundTrip(cfg: Config, s: State, p: Packet, rest: seq<Byte>)
    requires Common(p) && Sends(cfg, s, p, rest)
    ensures Reaches(DecodeOne(cfg, s), p.Meaning(cfg, s.track), rest)
  {
    match p
    case BranchTo(to, info, count) => BranchDecodes(cfg, s, to, info, count, rest);
    case TimeIs(stamp, r, count) => TimeDecodes(cfg, s, stamp, r, count, rest);
    case Sync(context, status, addr, count) =>
      if cfg.table == Etm33 {
        SyncDecodes(cfg, s, context, status, addr, rest);
      } else {
        SyncPftDecodes(cfg, s, context, status, addr, count, rest);
      }
    case ContextIs(context) => ContextDecodes(cfg, s, context, rest);
    case MachineIs(vmid) => MachineDecodes(cfg, s, vmid, rest);
    case Silent(ch) => ByteDecodes(cfg, s, ch, KindOf(cfg.table, ch), rest);
    case Named(ch) => ByteDecodes(cfg, s, ch, KindOf(cfg.table, ch), rest);
  }

  lemma ParticularRoundTrip(cfg: Config, s: State, p: Packet, rest: seq<Byte>)
    requires !Common(p) && Sends(cfg, s, p, rest)
    ensures Reaches(DecodeOne(cfg, s), p.Meaning(cfg, s.track), rest)
  {
    match p
    case WaypointAt(to, info) => WaypointDecodes(cfg, s, to, info, rest);
    case CountedSync(context, status, addr, count) => CountedSyncDecodes(cfg, s, context, status, addr, count, rest);
    case CycleCount(count) => CycleCountDecodes(cfg, s, count, rest);
    case Cycles(h) => CycleHeaderDecodes(cfg, s, h, rest);
    case Instructions(h) => PlainHeaderDecodes(cfg, s, h, rest);
    case Atoms(nos) => AtomsDecode(cfg, s, nos, rest);
    case CountedAtom(no, count) => CountedAtomDecodes(cfg, s, no, count, rest);
    case Data(d) => DataDecodes(cfg, s, d, rest);
  }

  /** Every packet, wherever in a trace it comes, is taken for what it means, and exactly its bytes are consumed. */
  lemma PacketRoundTrip(cfg: Config, s: State, p: Packet, rest: seq<Byte>)
    requires Sends(cfg, s, p, rest)
    ensures Reaches(Step(cfg, s), p.Meaning(cfg, s.track), rest)
  {
    if Common(p) { CommonRoundTrip(cfg, s, p, rest); } else { ParticularRoundTrip(cfg, s, p, rest); }
  }

  // ---------- lists of packets ----------

  predicate AllValid(cfg: Config, packets: seq<Packet>) {
    forall p | p in packets :: p.Valid(cfg)
  }

  /** A whole trace, each packet relative to where the ones before it lead. */
  function TraceBytes(cfg: Config, t: Track, packets: seq<Packet>): seq<Byte>
    requires AllValid(cfg, packets)
    decreases |packets|
  {
    if packets == [] then []
    else packets[0].Bytes(cfg, t) + TraceBytes(cfg, packets[0].Meaning(cfg, t), packets[1..])
  }

  function TraceMeaning(cfg: Config, t: Track, packets: seq<Packet>): Track
    requires AllValid(cfg, packets)
    decreases |packets|
  {
    if packets == [] then t else TraceMeaning(cfg, packets[0].Meaning(cfg, t), packets[1..])
  }

  /** A machine that understands every packet understands a whole trace. */
  lemma {:induction false} IterateUnderstands(cfg: Config, step: State -> State, s: State, packets: seq<Packet>,
                                              rest: seq<Byte>)
    requires forall t, p, more | Sends(cfg, t, p, more) :: Reaches(step(t), p.Meaning(cfg, t.track), more)
    requires !s.exited && AllValid(cfg, packets) && s.input == TraceBytes(cfg, s.track, packets) + rest
    ensures Reaches(Iterate(step, s, |packets|), TraceMeaning(cfg, s.track, packets), rest)
    decreases |packets|
  {
    if packets == [] {
      assert s.input == rest;
    } else {
      FirstUnderstood(cfg, step, s, packets[0], packets[1..], rest);
      IterateUnderstands(cfg, step, step(s), packets[1..], rest);
    }
  }

  lemma FirstUnderstood(cfg: Config, step: State -> State, s: State, p: Packet, later: seq<Packet>, rest: seq<Byte>)
    requires forall t, q, more | Sends(cfg, t, q, more) :: Reaches(step(t), q.Meaning(cfg, t.track), more)
    requires !s.exited && p.Valid(cfg) && AllValid(cfg, later)
    requires s.input == (p.Bytes(cfg, s.track) + TraceBytes(cfg, p.Meaning(cfg, s.track), later)) + rest
    ensures Reaches(step(s), p.Meaning(cfg, s.track), TraceBytes(cfg, p.Meaning(cfg, s.track), later) + rest)
  {
    var more := TraceBytes(cfg, p.Meaning(cfg, s.track), later);
    Associate(p.Bytes(cfg, s.track), more, rest);
    assert Sends(cfg, s, p, more + rest);
  }

  /** The decoder undoes the encoder: after as many packets as were sent it has come, log and all, to what they
      mean, and exactly their bytes are gone. */
  lemma TraceRoundTrip(cfg: Config, s: State, packets: seq<Packet>, rest: seq<Byte>)
    requires !s.exited && AllValid(cfg, packets) && s.input == TraceBytes(cfg, s.track, packets) + rest
    ensures Reaches(Decoded(cfg, s, |packets|), TraceMeaning(cfg, s.track, packets), rest)
  {
    var step := (t: State) => Step(cfg, t);
    forall t, p, more | Sends(cfg, t, p, more) ensures Reaches(step(t), p.Meaning(cfg, t.track), more) {
      PacketRoundTrip(cfg, t, p, more);
    }
    IterateUnderstands(cfg, step, s, packets, rest);
  }

  // ---------- whole runs ----------

  /** A whole run goes on from any point of it. */
  lemma RunContinues(cfg: Config, s: State, n: nat)
    ensures DecodeAll(cfg, Decoded(cfg, s, n)) == DecodeAll(cfg, s)
  {
    var step, end := (t: State) => Step(cfg, t), DecodeAll(cfg, s);
    var inv := (t: State) => DecodeAll(cfg, t) == end;
    forall t: State | inv(t) ensures inv(step(t)) {
      StepContinues(cfg, t);
    }
    IterateKeeps(step, s, n, inv);
  }

  lemma StepContinues(cfg: Config, s: State)
    ensures DecodeAll(cfg, Step(cfg, s)) == DecodeAll(cfg, s)
  {}

  lemma NothingLeft(cfg: Config, s: State)
    requires !s.exited && s.input == []
    ensures DecodeAll(cfg, s) == s.(exited := true, track := AtEnd(s.track))
  {
    var t := DecodeOne(cfg, s);
    assert t == GetByte(s) && t.exited;
  }

  /** The whole program on what is left of a trace: it prints what the packets mean, and the waits still pending at
      the end. */
  lemma ProgramRoundTrip(cfg: Config, s: State, packets: seq<Packet>)
    requires !s.exited && AllValid(cfg, packets) && s.input == TraceBytes(cfg, s.track, packets)
    ensures DecodeAll(cfg, s).track == AtEnd(TraceMeaning(cfg, s.track, packets))
  {
    assert s.input == TraceBytes(cfg, s.track, packets) + [];
    TraceRoundTrip(cfg, s, packets, []);
    RunContinues(cfg, s, |packets|);
    NothingLeft(cfg, Decoded(cfg, s, |packets|));
  }
}
