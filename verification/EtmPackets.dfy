/** Decoding of the individual packets, and the decoder's main loop. */
module EtmPackets {
  import opened BitWords
  import opened EtmModel

  /** Prints a line. */
  function Line(s: State, e: Event): State {
    s.(track := Emit(s.track, e))
  }

  // ---------- branch addresses ----------

  datatype Addressing = Addressing(state: State, addr: Word, count: nat)

  /** Bits of byte `count` (from zero) of a branch address that carry address bits. */
  function GroupWidth(cfg: Config, data: Byte): nat {
    if cfg.altBranch && !data[7] then 6 else 7
  }

  function BranchGroups(cfg: Config, s: State, addr: Word, count: nat): (r: Addressing)
    requires !s.exited && 1 <= count <= 5
    ensures |r.state.input| <= |s.input| && r.count <= 5
    decreases 5 - count
  {
    if s.data[7] && count < 5 then
      var t := GetByte(s);
      if t.exited then Addressing(t, addr, count)
      else BranchGroups(cfg, t, Put(addr, 7 * count - 1, t.data[..GroupWidth(cfg, t.data)]), count + 1)
    else Addressing(s, addr, count)
  }

  /** The instruction set named by the fifth byte. */
  function FifthByteMode(data: Byte): Mode {
    if !data[7] && !data[5] && !data[4] then 2
    else if !data[7] && !data[5] then 1
    else 0
  }

  datatype Branched = Branched(state: State, exception: bool)

  /** The assignments after the group loop. A branch of the program-flow protocol without an exception
      implies an executed instruction. */
  function TakeBranch(cfg: Config, t: Track, addr: Word, mode: Mode, exception: bool): Track {
    SetAddr(if !exception && cfg.programFlowOnly then Print(cfg, t, true) else t, addr, mode)
  }

  /** get_branch_addr. */
  function GetBranchAddr(cfg: Config, s: State): (r: Branched)
    requires !s.exited
    ensures |r.state.input| <= |s.input|
  {
    var g := BranchGroups(cfg, s, Put(Right(s.track.iaddr, s.track.mode), 0, s.data[1..7]), 1);
    var t := g.state;
    if t.exited then Branched(t, false)
    else
      var exception := (g.count == 5 || (cfg.altBranch && g.count > 1)) && t.data[6];
      var mode := if g.count == 5 then FifthByteMode(t.data) else t.track.mode;
      Branched(t.(track := TakeBranch(cfg, t.track, Left(g.addr, mode), mode, exception)), exception)
  }

  function OrByte(x: Byte, y: Byte): Byte {
    seq(8, i requires 0 <= i < 8 => x[i] || y[i])
  }

  function Branch(cfg: Config, s: State): (r: State)
    requires !s.exited
    ensures |r.input| <= |s.input|
  {
    var b := GetBranchAddr(cfg, s);
    if b.state.exited then b.state
    else if !b.exception then Line(b.state, BranchLine(b.state.track.iaddr, []))
    else ExceptionBytes(b.state)
  }

  /** One exception byte, or two if the first has its top bit set. */
  function ExceptionBytes(s: State): (r: State)
    requires !s.exited
    ensures |r.input| <= |s.input|
  {
    var u := GetByte(s);
    if u.exited then u
    else if !u.data[7] then Line(u, BranchLine(u.track.iaddr, [u.data]))
    else
      var v := GetByte(u);
      if v.exited then v else Line(v, BranchLine(v.track.iaddr, [OrByte(u.data, v.data)]))
  }

  function Waypoint(cfg: Config, s: State): (r: State)
    requires !s.exited
    ensures |r.input| <= |s.input|
  {
    var g := GetByte(s);
    if g.exited then g
    else
      var b := GetBranchAddr(cfg, g);
      var t := b.state;
      if t.exited then t
      else if !b.exception then Line(t, WaypointLine(t.track.iaddr, []))
      else
        var u := GetByte(t);
        if u.exited then u else Line(u, WaypointLine(u.track.iaddr, [u.data]))
  }

  // ---------- timestamps and cycle counts ----------

  datatype Counting = Counting(state: State, value: seq<bool>)

  /** timestamp's loop, from byte i on. */
  function StampGroups(s: State, stamp: Stamp, i: nat): (r: Counting)
    requires !s.exited && i < 9
    ensures |r.state.input| <= |s.input| && |r.value| == 64
    decreases 9 - i
  {
    var t := GetByte(s);
    if t.exited then Counting(t, stamp)
    else
      var next := Put(stamp, 7 * i, t.data[..if i == 8 then 8 else 7]);
      if !t.data[7] || i == 8 then Counting(t, next) else StampGroups(t, next, i + 1)
  }

  function Timestamp(s: State): (r: State)
    requires !s.exited
    ensures |r.input| <= |s.input|
  {
    var g := StampGroups(s, s.track.timestamp, 0);
    if g.state.exited then g.state
    else g.state.(track := Emit(g.state.track.(timestamp := g.value), TimestampLine(g.value, s.data[2])))
  }

  /** Seven-bit groups: at most n more, the next one landing at bit `at`. */
  function CountGroups(s: State, count: Word, at: nat, n: nat): (r: Counting)
    requires !s.exited
    ensures |r.state.input| <= |s.input| && |r.value| == 32
    decreases n
  {
    if n == 0 then Counting(s, count)
    else
      var t := GetByte(s);
      if t.exited then Counting(t, count)
      else
        var next := Put(count, at, t.data[..7]);
        if t.data[7] then CountGroups(t, next, at + 7, n - 1) else Counting(t, next)
  }

  function CCount(s: State): (r: State)
    requires !s.exited
    ensures |r.input| <= |s.input|
  {
    var g := CountGroups(s, NoAddr(), 0, 5);
    if g.state.exited then g.state else Line(g.state, CycleLine(g.value))
  }

  function CycleCountPft(s: State): (r: State)
    requires !s.exited
    ensures |r.input| <= |s.input|
  {
    var start := Put(NoAddr(), 0, s.data[2..6]);
    var g := if s.data[6] then CountGroups(s, start, 4, 4) else Counting(s, start);
    if g.state.exited then g.state else Line(g.state, CycleLine(g.value))
  }

  /** A cycle count in the bytes that follow. */
  function CountFollows(s: State): (r: State)
    requires !s.exited
    ensures |r.input| <= |s.input|
  {
    var t := GetByte(s);
    if t.exited then t else CycleCountPft(t)
  }

  /** A cycle count follows, in a cycle-accurate trace of the program-flow protocol. */
  function ThenCount(cfg: Config, s: State): (r: State)
    ensures |r.input| <= |s.input|
  {
    if s.exited || !cfg.cycleAccurate then s else CountFollows(s)
  }

  // ---------- fixed-length fields ----------

  /** n bytes, least significant first, from byte i of the word on. */
  function ReadWord(s: State, acc: Word, i: nat, n: nat): (r: Counting)
    requires !s.exited
    ensures |r.state.input| <= |s.input| && |r.value| == 32
    decreases n
  {
    if n == 0 then Counting(s, acc)
    else
      var t := GetByte(s);
      if t.exited then Counting(t, acc) else ReadWord(t, Put(acc, 8 * i, t.data), i + 1, n - 1)
  }

  /** update_addr: the mode comes from the information byte or from the address's low bit. */
  function UpdateAddr(t: Track, info: Byte, addr: Word): Track {
    if info[4] then SetAddr(t, addr, 0)
    else if addr[0] then SetAddr(t, Put(addr, 0, [false]), 1)
    else SetAddr(t, addr, 2)
  }

  function Isync(cfg: Config, s: State): (r: State)
    requires !s.exited
    ensures |r.input| <= |s.input|
  {
    var c := ReadWord(s, NoAddr(), 0, cfg.contextidBytes);
    if c.state.exited then c.state
    else
      var i := GetByte(c.state);
      if i.exited then i
      else
        var a := ReadWord(i, NoAddr(), 0, 4);
        if a.state.exited then a.state
        else
          var u := UpdateAddr(a.state.track, i.data, a.value);
          a.state.(track := Emit(u, IsyncLine(c.value, i.data, u.iaddr)))
  }

  function IsyncCC(cfg: Config, s: State): (r: State)
    requires !s.exited
    ensures |r.input| <= |s.input|
  {
    var t := CCount(s);
    if t.exited then t else Isync(cfg, t)
  }

  function IsyncPft(cfg: Config, s: State): (r: State)
    requires !s.exited
    ensures |r.input| <= |s.input|
  {
    var a := ReadWord(s, NoAddr(), 0, 4);
    if a.state.exited then a.state
    else
      var i := GetByte(a.state);
      if i.exited then i
      else IsyncPftTail(cfg, i.(track := UpdateAddr(i.track, i.data, a.value)), i.data)
  }

  /** What follows the information byte: a cycle count if it announces one, and the context. */
  function IsyncPftTail(cfg: Config, s: State, info: Byte): (r: State)
    requires !s.exited
    ensures |r.input| <= |s.input|
  {
    var counted := if cfg.cycleAccurate && (info[6] || info[5]) then CountFollows(s) else s;
    if counted.exited then counted
    else
      var c := ReadWord(counted, NoAddr(), 0, cfg.contextidBytes);
      if c.state.exited then c.state
      else Line(c.state, IsyncLine(c.value, info, c.state.track.iaddr))
  }

  function ContextId(cfg: Config, s: State): (r: State)
    requires !s.exited
    ensures |r.input| <= |s.input|
  {
    var c := ReadWord(s, NoAddr(), 0, cfg.contextidBytes);
    if c.state.exited then c.state else Line(c.state, ContextLine(c.value))
  }

  function Vmid(s: State): (r: State)
    requires !s.exited
    ensures |r.input| <= |s.input|
  {
    var t := GetByte(s);
    if t.exited then t else Line(t, VmidLine(t.data))
  }

  /** ndata: the groups of the address that changed, if the header says so, then up to three bytes of data. */
  function NData(s: State): (r: State)
    requires !s.exited
    ensures |r.input| <= |s.input|
  {
    var g := if s.data[5] then CountGroups(s, s.track.dataAddr, 0, 5) else Counting(s, s.track.dataAddr);
    if g.state.exited then g.state
    else DataBytes(g.state.(track := g.state.track.(dataAddr := g.value)), s.data)
  }

  /** The data bytes, and the line with what there is of data and address. */
  function DataBytes(s: State, header: Byte): (r: State)
    requires !s.exited
    ensures |r.input| <= |s.input|
  {
    var size := ToNat(header[2..4]);
    var w := ReadWord(s, NoAddr(), 0, size);
    if w.state.exited then w.state
    else Line(w.state, DataLine(if size > 0 then [w.value] else [], if header[5] then [s.track.dataAddr] else []))
  }

  // ---------- instructions ----------

  function RunCycle(cfg: Config, t: Track, c: Cycle): Track {
    if c.W? then t.(waitCount := t.waitCount + 1) else Print(cfg, t, c.E?)
  }

  function RunCycles(cfg: Config, t: Track, cycles: seq<Cycle>): Track
    decreases |cycles|
  {
    if cycles == [] then t else RunCycles(cfg, RunCycle(cfg, t, cycles[0]), cycles[1..])
  }

  /** pheader: a P-header of the ETM protocol. An unknown header leaves only a mark. */
  function PHeader(cfg: Config, s: State): State {
    if KnownHeader(cfg, s.data) then
      s.(track := RunCycles(cfg, Emit(s.track, Header(s.data)), HeaderCycles(cfg, s.data)))
    else Line(s, PlainLine)
  }

  /** The atoms of a program-flow atom packet: the bits below the highest set bit among bits 6 to 2,
      down to bit 1; a set bit means not executed. */
  function AtomCycles(h: Byte, top: nat): seq<Cycle>
    requires top <= 6
  {
    if top < 2 then [] else if h[top] then AtomsBelow(h, top - 1) else AtomCycles(h, top - 1)
  }

  function AtomsBelow(h: Byte, k: nat): seq<Cycle>
    requires k < 8
  {
    if k == 0 then [] else Atom(h[k]) + AtomsBelow(h, k - 1)
  }

  function AtomPacket(cfg: Config, s: State): (r: State)
    requires !s.exited
    ensures |r.input| <= |s.input|
  {
    if cfg.cycleAccurate then
      var t := CycleCountPft(s);
      if t.exited then t else t.(track := Print(cfg, t.track, !s.data[1]))
    else
      s.(track := RunCycles(cfg, s.track, AtomCycles(s.data, 6)))
  }

  // ---------- packet tables ----------

  datatype Kind = KBranch | KCCount | KIsync | KIsyncCC | KVmid | KNData | KTimestamp | KContextId | KPHeader
                | KIsyncPft | KAtom | KBranchPft | KWaypoint | KTimestampPft | KNotice | KSilent | KNone

  datatype PacketType = PacketType(matchMask: nat, matchVal: nat, nonzeroMask: nat, kind: Kind)

  function PacketTypes(table: Table): (rows: seq<PacketType>)
    ensures |rows| == 27 && forall i | 0 <= i < 27 :: rows[i] == Row(table, i)
  {
    seq(27, i requires 0 <= i < 27 => Row(table, i))
  }

  /** Row i of a packet table. */
  function Row(table: Table, i: nat): PacketType {
    match table
    case Etm33 => EtmRow(i)
    case Pft11 => PftRow(i)
  }

  function EtmRow(i: nat): PacketType {
    match i
    case 0 => PacketType(0x01, 0x01, 0x00, KBranch)
    case 1 => PacketType(0xff, 0x00, 0x00, KSilent)
    case 2 => PacketType(0xff, 0x04, 0x00, KCCount)
    case 3 => PacketType(0xff, 0x08, 0x00, KIsync)
    case 4 => PacketType(0xff, 0x0c, 0x00, KNone)
    case 5 => PacketType(0x93, 0x00, 0x60, KNone)
    case 6 => PacketType(0xff, 0x50, 0x00, KNone)
    case 7 => PacketType(0xff, 0x70, 0x00, KIsyncCC)
    case 8 => PacketType(0xd3, 0x50, 0x0c, KNone)
    case 9 => PacketType(0xd3, 0x12, 0x00, KNone)
    case 10 => PacketType(0xf3, 0x10, 0x00, KNone)
    case 11 => PacketType(0xfb, 0x30, 0x00, KNone)
    case 12 => PacketType(0xff, 0x3c, 0x00, KVmid)
    case 13 => PacketType(0xff, 0x38, 0x00, KNone)
    case 14 => PacketType(0xd3, 0x02, 0x00, KNData)
    case 15 => PacketType(0xf3, 0x52, 0x00, KNone)
    case 16 => PacketType(0xfb, 0x42, 0x00, KTimestamp)
    case 17 => PacketType(0xfb, 0x4a, 0x00, KNone)
    case 18 => PacketType(0xff, 0x62, 0x00, KNone)
    case 19 => PacketType(0xff, 0x66, 0x00, KSilent)
    case 20 => PacketType(0xef, 0x6a, 0x00, KNone)
    case 21 => PacketType(0xff, 0x6e, 0x00, KContextId)
    case 22 => PacketType(0xff, 0x76, 0x00, KNone)
    case 23 => PacketType(0xff, 0x7e, 0x00, KNone)
    case 24 => PacketType(0xff, 0x72, 0x00, KNone)
    case 25 => PacketType(0x81, 0x80, 0x00, KPHeader)
    case _ => PacketType(0x00, 0x00, 0x00, KNone)
  }

  function PftRow(i: nat): PacketType {
    match i
    case 0 => PacketType(0xff, 0x00, 0x00, KSilent)
    case 1 => PacketType(0xff, 0x08, 0x00, KIsyncPft)
    case 2 => PacketType(0x81, 0x80, 0x00, KAtom)
    case 3 => PacketType(0x01, 0x01, 0x00, KBranchPft)
    case 4 => PacketType(0xff, 0x72, 0x00, KWaypoint)
    case 5 => PacketType(0xff, 0x0c, 0x00, KNotice)
    case 6 => PacketType(0xff, 0x6e, 0x00, KContextId)
    case 7 => PacketType(0xff, 0x3c, 0x00, KVmid)
    case 8 => PacketType(0xfb, 0x42, 0x00, KTimestampPft)
    case 9 => PacketType(0xff, 0x76, 0x00, KNotice)
    case 10 => PacketType(0xff, 0x66, 0x00, KSilent)
    case 11 => PacketType(0xff, 0x04, 0x00, KNone)
    case 12 => PacketType(0x93, 0x00, 0x60, KNone)
    case 13 => PacketType(0xff, 0x50, 0x00, KNone)
    case 14 => PacketType(0xff, 0x70, 0x00, KNone)
    case 15 => PacketType(0xd3, 0x50, 0x0c, KNone)
    case 16 => PacketType(0xd3, 0x12, 0x00, KNone)
    case 17 => PacketType(0xf3, 0x10, 0x00, KNone)
    case 18 => PacketType(0xfb, 0x30, 0x00, KNone)
    case 19 => PacketType(0xff, 0x38, 0x00, KNone)
    case 20 => PacketType(0xd3, 0x02, 0x00, KNone)
    case 21 => PacketType(0xf3, 0x52, 0x00, KNone)
    case 22 => PacketType(0xfb, 0x4a, 0x00, KNone)
    case 23 => PacketType(0xff, 0x62, 0x00, KNone)
    case 24 => PacketType(0xef, 0x6a, 0x00, KNone)
    case 25 => PacketType(0xff, 0x7e, 0x00, KNone)
    case _ => PacketType(0x00, 0x00, 0x00, KNone)
  }

  predicate IsMatch(p: PacketType, ch: Byte) {
    Has(ch, p.matchMask, p.matchVal) && (p.nonzeroMask == 0 || !Has(ch, p.nonzeroMask, 0))
  }

  /** The kind of the first row from i on that matches. The last row of each table always does. */
  function FirstMatch(rows: seq<PacketType>, ch: Byte, i: nat): Kind
    requires i < |rows|
    decreases |rows| - i
  {
    if IsMatch(rows[i], ch) || i + 1 == |rows| then rows[i].kind else FirstMatch(rows, ch, i + 1)
  }

  lemma LastRowMatches(table: Table, ch: Byte)
    ensures IsMatch(PacketTypes(table)[26], ch)
  {}

  /** The search goes past a row that rejects. */
  lemma NextRow(rows: seq<PacketType>, ch: Byte, i: nat)
    requires i + 1 < |rows| && !IsMatch(rows[i], ch)
    ensures FirstMatch(rows, ch, i) == FirstMatch(rows, ch, i + 1)
  {}

  // ---------- the main loop ----------

  function Decode(cfg: Config, kind: Kind, s: State): (r: State)
    requires !s.exited
    ensures |r.input| <= |s.input|
  {
    match kind
    case KBranch => Branch(cfg, s)
    case KCCount => CCount(s)
    case KIsync => Isync(cfg, s)
    case KIsyncCC => IsyncCC(cfg, s)
    case KVmid => Vmid(s)
    case KNData => NData(s)
    case KTimestamp => Timestamp(s)
    case KContextId => ContextId(cfg, s)
    case KPHeader => PHeader(cfg, s)
    case KIsyncPft => IsyncPft(cfg, s)
    case KAtom => AtomPacket(cfg, s)
    case KBranchPft => ThenCount(cfg, Branch(cfg, s))
    case KWaypoint => Waypoint(cfg, s)
    case KTimestampPft => ThenCount(cfg, Timestamp(s))
    case KNotice => Line(s, PlainLine)
    case KSilent => s
    case KNone => Line(s, PlainLine)
  }

  /** One packet: its header byte, the first matching row, and its decoder. */
  function DecodeOne(cfg: Config, s: State): (r: State)
    requires !s.exited
    ensures r.exited || |r.input| < |s.input|
    ensures |r.input| <= |s.input|
  {
    var t := GetByte(s);
    if t.exited then t else Decode(cfg, FirstMatch(PacketTypes(cfg.table), t.data, 0), t)
  }

  function Step(cfg: Config, s: State): State {
    if s.exited then s else DecodeOne(cfg, s)
  }

  /** n steps of a machine. */
  function Iterate(step: State -> State, s: State, n: nat): State
    decreases n
  {
    if n == 0 then s else Iterate(step, step(s), n - 1)
  }

  /** The state after n packets, or at the end of the input if that comes first. */
  function Decoded(cfg: Config, s: State, n: nat): State {
    Iterate((t: State) => Step(cfg, t), s, n)
  }

  /** The whole run, until the input ends. */
  function DecodeAll(cfg: Config, s: State): (r: State)
    ensures r.exited
    decreases |s.input|, if s.exited then 0 else 1
  {
    if s.exited then s else DecodeAll(cfg, DecodeOne(cfg, s))
  }
}
