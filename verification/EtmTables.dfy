/** The packet tables: every byte is matched by exactly one row before the last, so their order does not
    matter. */
module EtmTables {
  import opened BitWords
  import opened EtmModel
  import opened EtmPackets

  /** The row for a byte of the ETM protocol, by its bits. */
  function EtmRowOf(ch: Byte): (i: nat)
    ensures i < 26
  {
    if ch[0] then 0
    else if ch[7] then 25
    else if ch[1] && !ch[6] && !ch[4] then 14
    else if ch[1] && !ch[6] then 9
    else if ch[1] && !ch[5] && ch[4] then 15
    else if ch[1] && !ch[5] then if ch[3] then 17 else 16
    else if ch[1] then EtmHighRow(ch[2], ch[3], ch[4])
    else if ch[6] then EtmMiddleRow(ch[2] || ch[3], ch[4], ch[5])
    else EtmLowRow(ch[2], ch[3], ch[4], ch[5])
  }

  /** 0x62 to 0x7e. */
  function EtmHighRow(b2: bool, b3: bool, b4: bool): (i: nat)
    ensures i < 26
  {
    if b3 && !b2 then 20
    else if b3 then if b4 then 23 else 21
    else if b2 then if b4 then 22 else 19
    else if b4 then 24 else 18
  }

  /** 0x40 to 0x7c. */
  function EtmMiddleRow(some: bool, b4: bool, b5: bool): (i: nat)
    ensures i < 26
  {
    if !b4 then 5 else if some then 8 else if b5 then 7 else 6
  }

  /** 0x00 to 0x3c. */
  function EtmLowRow(b2: bool, b3: bool, b4: bool, b5: bool): (i: nat)
    ensures i < 26
  {
    if b4 && !b5 then 10
    else if b4 then if !b3 then 11 else if b2 then 12 else 13
    else if b5 then 5
    else if b3 then if b2 then 4 else 3
    else if b2 then 2 else 1
  }

  /** Each row of the ETM table matches exactly the bytes that belong to it. */
  lemma EtmOnly(i: nat, ch: Byte)
    requires i < 26
    ensures IsMatch(EtmRow(i), ch) <==> i == EtmRowOf(ch)
  {
    if i < 7 {
      EtmOnlyA(i, ch);
    } else if i < 13 {
      EtmOnlyB(i, ch);
    } else if i < 19 {
      EtmOnlyC(i, ch);
    } else {
      EtmOnlyD(i, ch);
    }
  }

  lemma EtmOnlyA(i: nat, ch: Byte)
    requires i < 7
    ensures IsMatch(EtmRow(i), ch) <==> i == EtmRowOf(ch)
  {}

  lemma EtmOnlyB(i: nat, ch: Byte)
    requires 7 <= i < 13
    ensures IsMatch(EtmRow(i), ch) <==> i == EtmRowOf(ch)
  {}

  lemma EtmOnlyC(i: nat, ch: Byte)
    requires 13 <= i < 19
    ensures IsMatch(EtmRow(i), ch) <==> i == EtmRowOf(ch)
  {}

  lemma EtmOnlyD(i: nat, ch: Byte)
    requires 19 <= i < 26
    ensures IsMatch(EtmRow(i), ch) <==> i == EtmRowOf(ch)
  {}

  /** Where the ETM table has the pattern of row k of the program-flow table. */
  function EtmNumber(k: nat): (i: nat)
    ensures i < 26
  {
    match k
    case 0 => 1
    case 1 => 3
    case 2 => 25
    case 3 => 0
    case 4 => 24
    case 5 => 4
    case 6 => 21
    case 7 => 12
    case 8 => 16
    case 9 => 22
    case 10 => 19
    case 11 => 2
    case 12 => 5
    case 13 => 6
    case 14 => 7
    case 15 => 8
    case 16 => 9
    case 17 => 10
    case 18 => 11
    case 19 => 13
    case 20 => 14
    case 21 => 15
    case 22 => 17
    case 23 => 18
    case 24 => 20
    case _ => 23
  }

  /** And back. */
  function PftNumber(i: nat): (k: nat)
    ensures k < 26
  {
    match i
    case 0 => 3
    case 1 => 0
    case 2 => 11
    case 3 => 1
    case 4 => 5
    case 5 => 12
    case 6 => 13
    case 7 => 14
    case 8 => 15
    case 9 => 16
    case 10 => 17
    case 11 => 18
    case 12 => 7
    case 13 => 19
    case 14 => 20
    case 15 => 21
    case 16 => 8
    case 17 => 22
    case 18 => 23
    case 19 => 10
    case 20 => 24
    case 21 => 6
    case 22 => 9
    case 23 => 25
    case 24 => 4
    case _ => 2
  }

  /** The two tables have the same patterns, in another order. */
  lemma SamePatterns(k: nat)
    requires k < 26
    ensures PftRow(k) == EtmRow(EtmNumber(k)).(kind := PftRow(k).kind)
  {}

  lemma NumbersInvert(k: nat)
    requires k < 26
    ensures PftNumber(EtmNumber(k)) == k && EtmNumber(PftNumber(k)) == k
  {}

  function RowOf(table: Table, ch: Byte): (i: nat)
    ensures i < 26
  {
    if table == Etm33 then EtmRowOf(ch) else PftNumber(EtmRowOf(ch))
  }

  /** Every byte is matched by one of the first 26 rows, and by no other: what the program checks when it
      starts. */
  lemma ExactlyOneRow(table: Table, i: nat, ch: Byte)
    requires i < 26
    ensures IsMatch(Row(table, i), ch) <==> i == RowOf(table, ch)
  {
    if table == Etm33 {
      EtmOnly(i, ch);
    } else {
      SamePatterns(i);
      EtmOnly(EtmNumber(i), ch);
      NumbersInvert(i);
      NumbersInvert(EtmRowOf(ch));
    }
  }

  lemma {:induction false} SearchFinds(rows: seq<PacketType>, ch: Byte, i: nat, n: nat)
    requires i <= n < |rows| && IsMatch(rows[n], ch) && forall j | i <= j < n :: !IsMatch(rows[j], ch)
    ensures FirstMatch(rows, ch, i) == rows[n].kind
    decreases n - i
  {
    if i == n {
    } else {
      NextRow(rows, ch, i);
      SearchFinds(rows, ch, i + 1, n);
    }
  }

  /** So a byte that matches a row is handled as that row says, wherever in the table it stands. */
  lemma AnyMatchIsFirst(table: Table, n: nat, ch: Byte)
    requires n < 26 && IsMatch(Row(table, n), ch)
    ensures FirstMatch(PacketTypes(table), ch, 0) == Row(table, n).kind
  {
    var rows := PacketTypes(table);
    ExactlyOneRow(table, n, ch);
    forall j | 0 <= j < n ensures !IsMatch(rows[j], ch) {
      ExactlyOneRow(table, j, ch);
    }
    SearchFinds(rows, ch, 0, n);
  }

  lemma NextByte(s: State, b: Byte, more: seq<Byte>)
    requires !s.exited && s.input == [b] + more
    ensures GetByte(s) == s.(input := more, data := b)
  {}

  /** Row n of a table takes the byte to this kind of packet. */
  predicate Handles(table: Table, n: nat, kind: Kind, ch: Byte) {
    n < 26 && IsMatch(Row(table, n), ch) && Row(table, n).kind == kind
  }

  /** The kind of packet that a byte begins. */
  function KindOf(table: Table, ch: Byte): Kind {
    Row(table, RowOf(table, ch)).kind
  }

  lemma KindHandled(table: Table, ch: Byte)
    ensures Handles(table, RowOf(table, ch), KindOf(table, ch), ch)
  {
    ExactlyOneRow(table, RowOf(table, ch), ch);
  }

  /** A packet whose header matches row n. */
  lemma Dispatched(cfg: Config, s: State, n: nat, kind: Kind, ch: Byte, more: seq<Byte>)
    requires Handles(cfg.table, n, kind, ch)
    requires !s.exited && s.input == [ch] + more
    ensures DecodeOne(cfg, s) == Decode(cfg, kind, s.(input := more, data := ch))
  {
    NextByte(s, ch, more);
    AnyMatchIsFirst(cfg.table, n, ch);
  }

  /** What each kind of packet is handled by. */
  lemma Handlers(cfg: Config, kind: Kind, s: State)
    requires !s.exited
    ensures kind.KBranch? ==> Decode(cfg, kind, s) == Branch(cfg, s)
    ensures kind.KCCount? ==> Decode(cfg, kind, s) == CCount(s)
    ensures kind.KIsync? ==> Decode(cfg, kind, s) == Isync(cfg, s)
    ensures kind.KIsyncCC? ==> Decode(cfg, kind, s) == IsyncCC(cfg, s)
    ensures kind.KVmid? ==> Decode(cfg, kind, s) == Vmid(s)
    ensures kind.KNData? ==> Decode(cfg, kind, s) == NData(s)
    ensures kind.KTimestamp? ==> Decode(cfg, kind, s) == Timestamp(s)
    ensures kind.KContextId? ==> Decode(cfg, kind, s) == ContextId(cfg, s)
    ensures kind.KPHeader? ==> Decode(cfg, kind, s) == PHeader(cfg, s)
    ensures kind.KIsyncPft? ==> Decode(cfg, kind, s) == IsyncPft(cfg, s)
    ensures kind.KAtom? ==> Decode(cfg, kind, s) == AtomPacket(cfg, s)
    ensures kind.KBranchPft? ==> Decode(cfg, kind, s) == ThenCount(cfg, Branch(cfg, s))
    ensures kind.KWaypoint? ==> Decode(cfg, kind, s) == Waypoint(cfg, s)
    ensures kind.KTimestampPft? ==> Decode(cfg, kind, s) == ThenCount(cfg, Timestamp(s))
    ensures kind.KNotice? || kind.KNone? ==> Decode(cfg, kind, s) == Line(s, PlainLine)
    ensures kind.KSilent? ==> Decode(cfg, kind, s) == s
  {}
}
