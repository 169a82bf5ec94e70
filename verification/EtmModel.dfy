/** The ETM/PFT packet decoder as a state machine over a byte stream: chapter 7 (Signal Protocol) of
    ARM IHI 0014 for ETMv3, and its program-flow relative. Printing is a log of events. */
module EtmModel {
  import opened BitWords

  /** The instruction set: 2 is ARM, 1 Thumb, 0 Jazelle; also log2 of the instruction size. */
  type Mode = m: nat | m <= 2

  datatype Table = Etm33 | Pft11

  datatype Config = Config(table: Table, contextidBytes: nat, cycleAccurate: bool,
                           altBranch: bool, programFlowOnly: bool)

  type Stamp = s: seq<bool> | |s| == 64 witness seq(64, _ => false)

  datatype Event =
    | Insn(execute: bool, pc: nat, branchCount: nat, waited: nat)
    | Retarget(addr: Word, mode: Mode)
    | Header(header: Byte)
    | BranchLine(addr: Word, exception: seq<Byte>)
    | WaypointLine(addr: Word, exception: seq<Byte>)
    | IsyncLine(context: Word, info: Byte, addr: Word)
    | TimestampLine(stamp: Stamp, r: bool)
    | CycleLine(count: Word)
    | ContextLine(context: Word)
    | VmidLine(vmid: Byte)
    | DataLine(value: seq<Word>, place: seq<Word>)
    | PlainLine
    | EndWaited(waited: nat)

  /** What has been printed so far, newest last. */
  datatype Log = Start | Then(before: Log, event: Event)

  /** What the decoder keeps track of: addresses, counters, the last timestamp and data address, and what it
      has printed. */
  datatype Track = Track(iaddr: Word, mode: Mode, pc: nat, branchCount: nat, waitCount: nat,
                         timestamp: Stamp, dataAddr: Word, log: Log)

  datatype State = State(input: seq<Byte>, exited: bool, data: Byte, track: Track)

  const ZERO_BYTE: Byte := seq(8, _ => false)

  function NoAddr(): Word {
    seq(32, i requires 0 <= i < 32 => false)
  }

  /** The decoder before the first byte. */
  function Initial(input: seq<Byte>): State {
    State(input, false, ZERO_BYTE, Track(NoAddr(), 0, 0, 0, 0, seq(64, _ => false), NoAddr(), Start))
  }

  // ---------- P-headers ----------

  datatype Cycle = W | E | N

  /** Bit i of a number below 256. */
  predicate BitOf(n: nat, i: nat) {
    match i
    case 0 => n % 2 == 1
    case 1 => n / 2 % 2 == 1
    case 2 => n / 4 % 2 == 1
    case 3 => n / 8 % 2 == 1
    case 4 => n / 16 % 2 == 1
    case 5 => n / 32 % 2 == 1
    case 6 => n / 64 % 2 == 1
    case _ => n / 128 % 2 == 1
  }

  /** (x & mask) == val, bit by bit. */
  predicate Has(x: Byte, mask: nat, val: nat) {
    && (x[0] && BitOf(mask, 0)) == BitOf(val, 0) && (x[1] && BitOf(mask, 1)) == BitOf(val, 1)
    && (x[2] && BitOf(mask, 2)) == BitOf(val, 2) && (x[3] && BitOf(mask, 3)) == BitOf(val, 3)
    && (x[4] && BitOf(mask, 4)) == BitOf(val, 4) && (x[5] && BitOf(mask, 5)) == BitOf(val, 5)
    && (x[6] && BitOf(mask, 6)) == BitOf(val, 6) && (x[7] && BitOf(mask, 7)) == BitOf(val, 7)
  }

  function Repeat(c: seq<Cycle>, n: nat): seq<Cycle> {
    if n == 0 then [] else c + Repeat(c, n - 1)
  }

  function Atom(no: bool): seq<Cycle> {
    if no then [N] else [E]
  }

  /** The five P-header formats of a cycle-accurate trace and the two of a plain one. */
  predicate KnownHeader(cfg: Config, h: Byte) {
    if cfg.cycleAccurate then
      Has(h, 0xff, 0x80) || Has(h, 0xa3, 0x80) || Has(h, 0xf3, 0x82) || Has(h, 0xa3, 0xa0) || Has(h, 0xfb, 0x92)
    else
      Has(h, 0x83, 0x80) || Has(h, 0xf3, 0x82)
  }

  /** The cycles that a P-header stands for: waits (W), executed (E) and not executed (N)
      instructions, in order. */
  function HeaderCycles(cfg: Config, h: Byte): seq<Cycle> {
    if cfg.cycleAccurate then
      if Has(h, 0xff, 0x80) then [W]
      else if Has(h, 0xa3, 0x80) then Repeat([W, E], ToNat(h[2..5])) + Repeat([W, N], if h[6] then 1 else 0)
      else if Has(h, 0xf3, 0x82) then [W] + Atom(h[3]) + Atom(h[2])
      else if Has(h, 0xa3, 0xa0) then Repeat([W], ToNat(h[2..5]) + 1) + Repeat([E], if h[6] then 1 else 0)
      else if Has(h, 0xfb, 0x92) then Atom(h[2])
      else []
    else
      if Has(h, 0x83, 0x80) then Repeat([E], ToNat(h[2..6])) + Repeat([N], if h[6] then 1 else 0)
      else if Has(h, 0xf3, 0x82) then Atom(h[3]) + Atom(h[2])
      else []
  }

  // ---------- primitive steps ----------

  function Emit(t: Track, e: Event): Track {
    t.(log := Then(t.log, e))
  }

  /** At the end of the input the program reports the pending wait cycles. */
  function AtEnd(t: Track): Track {
    if t.waitCount > 0 then Emit(t, EndWaited(t.waitCount)) else t
  }

  /** get_byte, which exits at the end of the input. */
  function GetByte(s: State): (r: State)
    requires !s.exited
    ensures !r.exited ==> |r.input| + 1 == |s.input|
    ensures |r.input| <= |s.input|
  {
    if s.input == [] then
      s.(exited := true, track := AtEnd(s.track))
    else
      s.(input := s.input[1..], data := s.input[0])
  }

  /** pc + (1 << mode), in 32 bits. */
  function PcAfter(pc: nat, mode: Mode): nat {
    (pc + Pow2(mode)) % 0x1_0000_0000
  }

  /** print_instruction, with next_pc. */
  function Print(cfg: Config, t: Track, execute: bool): Track {
    var count := if cfg.programFlowOnly then t.branchCount + 1 else t.branchCount;
    var pc := if cfg.programFlowOnly then t.pc else PcAfter(t.pc, t.mode);
    Emit(t.(branchCount := count, pc := pc, waitCount := 0), Insn(execute, t.pc, count, t.waitCount))
  }

  /** The assignments that every address packet ends with. */
  function SetAddr(t: Track, addr: Word, mode: Mode): Track {
    Emit(t.(iaddr := addr, mode := mode, pc := ToNat(addr), branchCount := 0), Retarget(addr, mode))
  }

  /** The decoder has come to t, with `rest` still to be read. */
  predicate Reaches(r: State, t: Track, rest: seq<Byte>) {
    !r.exited && r.input == rest && r.track == t
  }

  /** Overwrites bits at..at+|g| of x; what falls off the top is lost. */
  function Put(x: seq<bool>, at: nat, g: seq<bool>): (r: seq<bool>)
    ensures |r| == |x|
  {
    seq(|x|, i requires 0 <= i < |x| => if at <= i < at + |g| then g[i - at] else x[i])
  }
}
