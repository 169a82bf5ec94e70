/** Unpacking a CoreSight formatter stream (chapter D4 of ARM IHI 0029): 16-byte frames that
    interleave bytes of several trace sources. */
module EtmFormatter {
  import opened BitWords

  type Packet = p: seq<Byte> | |p| == 16 witness seq(16, _ => seq(8, _ => false))

  /** (1 << sourceid) & sourceid_match, for ids the mask can name. */
  predicate Wanted(mask: Word, id: nat) {
    id < 32 && mask[id]
  }

  /** A byte of a data slot: its lowest bit travels in the auxiliary byte. */
  function WithLowBit(ch: Byte, low: bool): Byte {
    [low] + ch[1..]
  }

  /** The unpacker's memory: the current frame and the position in it (0 when a frame must be read
      first), the source of the next data byte, and the source of the bytes after it. */
  datatype Cursor = Cursor(packet: Packet, index: nat, current: nat, next: nat)

  /** Effect of an identifier byte. */
  function SwitchTo(c: Cursor, id: nat, delayed: bool): Cursor {
    if c.next == id then c
    else c.(next := id, current := if delayed then c.current else id)
  }

  /** Byte 15 of a frame is auxiliary; after byte 14 the next frame begins. */
  function NextIndex(i: nat): (r: nat)
    requires i < 15
    ensures r == if i == 14 then 0 else i + 1
  {
    (i + 1) % 15
  }

  function Advance(c: Cursor): Cursor
    requires c.index < 15
  {
    c.(index := NextIndex(c.index))
  }

  predicate IsIdentifier(c: Cursor)
    requires c.index < 15
  {
    c.index % 2 == 0 && c.packet[c.index][0]
  }

  function AuxBit(c: Cursor): bool
    requires c.index < 15
  {
    c.packet[15][c.index / 2]
  }

  /** The data byte at the cursor. */
  function DataByte(c: Cursor): Byte
    requires c.index < 15
  {
    if c.index % 2 == 0 then WithLowBit(c.packet[c.index], AuxBit(c)) else c.packet[c.index]
  }

  /** All bytes the unpacker will deliver, with their source filter applied. A frame cut short by
      the end of the input delivers nothing. */
  function Deliver(c: Cursor, mask: Word, input: seq<Byte>): seq<Byte>
    requires c.index < 15
    decreases |input|, if c.index == 0 then 0 else 15 - c.index, if c.index == 0 then 0 else 2
  {
    if c.index > 0 then Walk(c, mask, input)
    else if |input| < 16 then []
    else Walk(c.(packet := input[..16]), mask, input[16..])
  }

  /** The same, from the byte at the cursor. */
  function Walk(c: Cursor, mask: Word, input: seq<Byte>): seq<Byte>
    requires c.index < 15
    decreases |input|, 15 - c.index, 0
  {
    if IsIdentifier(c) then
      After(SwitchTo(c, ToNat(c.packet[c.index][1..]), AuxBit(c)), mask, input)
    else
      (if Wanted(mask, c.current) then [DataByte(c)] else [])
        + After(c.(current := c.next), mask, input)
  }

  function After(c: Cursor, mask: Word, input: seq<Byte>): seq<Byte>
    requires c.index < 15
    decreases |input|, 14 - c.index, 1
  {
    if c.index == 14 then Deliver(Advance(c), mask, input) else Walk(Advance(c), mask, input)
  }

  // ---------- frames as the trace port lays them out ----------

  /** Two bytes of a frame: two data bytes of the current source, or a change of source that takes
      effect for the byte beside it or only after that byte. */
  datatype Slot = Data(a: Byte, b: Byte) | SwitchNow(id: nat, b: Byte) | SwitchAfter(b: Byte, id: nat)

  /** Byte 14, which has no byte beside it. */
  datatype LastSlot = LastData(a: Byte) | LastSwitch(id: nat)

  datatype Frame = Frame(slots: seq<Slot>, last: LastSlot) {
    predicate Valid() {
      && |slots| == 7
      && (forall i | 0 <= i < 7 && !slots[i].Data? :: slots[i].id < 128)
      && (last.LastSwitch? ==> last.id < 128)
    }
  }

  datatype Item = Item(source: nat, value: Byte)

  // What a frame means: bytes tagged with their source.

  function SlotItems(s: Slot, source: nat): seq<Item> {
    match s
    case Data(a, b) => [Item(source, a), Item(source, b)]
    case SwitchNow(id, b) => [Item(id, b)]
    case SwitchAfter(b, _) => [Item(source, b)]
  }

  function SlotSource(s: Slot, source: nat): nat {
    if s.Data? then source else s.id
  }

  /** The items of a frame from slot i on, given the source before that slot. */
  function ItemsFrom(f: Frame, i: nat, source: nat): seq<Item>
    requires f.Valid() && i <= 7
    decreases 7 - i
  {
    if i < 7 then SlotItems(f.slots[i], source) + ItemsFrom(f, i + 1, SlotSource(f.slots[i], source))
    else if f.last.LastData? then [Item(source, f.last.a)] else []
  }

  function SourceFrom(f: Frame, i: nat, source: nat): nat
    requires f.Valid() && i <= 7
    decreases 7 - i
  {
    if i < 7 then SourceFrom(f, i + 1, SlotSource(f.slots[i], source))
    else if f.last.LastData? then source else f.last.id
  }

  function Items(frames: seq<Frame>, source: nat): seq<Item>
    requires forall f | f in frames :: f.Valid()
  {
    if frames == [] then []
    else ItemsFrom(frames[0], 0, source) + Items(frames[1..], SourceFrom(frames[0], 0, source))
  }

  /** The bytes of the wanted sources, in order. */
  function Filter(mask: Word, items: seq<Item>): seq<Byte> {
    if items == [] then []
    else (if Wanted(mask, items[0].source) then [items[0].value] else []) + Filter(mask, items[1..])
  }

  // How a frame is laid out in 16 bytes.

  function IdByte(id: nat): Byte {
    [true] + FromNat(id, 7)
  }

  function EvenByte(s: Slot): Byte {
    if s.Data? then WithLowBit(s.a, false) else IdByte(s.id)
  }

  function AuxOf(s: Slot): bool {
    match s
    case Data(a, _) => a[0]
    case SwitchNow(_, _) => false
    case SwitchAfter(_, _) => true
  }

  /** Byte 14's auxiliary bit is zero when it is an identifier. */
  function AuxByte(f: Frame): Byte
    requires f.Valid()
  {
    seq(8, i requires 0 <= i < 8 =>
        if i < 7 then AuxOf(f.slots[i]) else f.last.LastData? && f.last.a[0])
  }

  /** Byte j of the frame. */
  function ByteAt(f: Frame, j: nat): Byte
    requires f.Valid() && j < 16
  {
    if j == 15 then AuxByte(f)
    else if j == 14 then
      (if f.last.LastData? then WithLowBit(f.last.a, false) else IdByte(f.last.id))
    else if j % 2 == 0 then EvenByte(f.slots[j / 2])
    else f.slots[j / 2].b
  }

  function Encode(f: Frame): (p: Packet)
    requires f.Valid()
    ensures forall j | 0 <= j < 16 :: p[j] == ByteAt(f, j)
  {
    seq(16, j requires 0 <= j < 16 => ByteAt(f, j))
  }

  function EncodeAll(frames: seq<Frame>): (bytes: seq<Byte>)
    requires forall f | f in frames :: f.Valid()
    ensures |bytes| == 16 * |frames|
  {
    if frames == [] then [] else Encode(frames[0]) + EncodeAll(frames[1..])
  }

  // ---------- unpacking undoes the layout ----------

  lemma Halving(i: nat)
    ensures (2 * i) / 2 == i && (2 * i) % 2 == 0 && (2 * i + 1) / 2 == i && (2 * i + 1) % 2 == 1
  {}

  lemma AuxAt(f: Frame, i: nat)
    requires f.Valid() && i < 7
    ensures Encode(f)[15][i] == AuxOf(f.slots[i])
  {
    assert Encode(f)[15] == AuxByte(f);
  }

  lemma EvenBytes(f: Frame, i: nat)
    requires f.Valid() && i < 7
    ensures Encode(f)[2 * i] == EvenByte(f.slots[i])
    ensures (2 * i) % 2 == 0 && (2 * i) / 2 == i
    ensures Encode(f)[15][i] == AuxOf(f.slots[i])
  {
    Halving(i);
    AuxAt(f, i);
  }

  /** What the unpacker sees at the even byte of a slot. */
  lemma EvenOfSlot(f: Frame, i: nat, current: nat, next: nat)
    requires f.Valid() && i < 7
    ensures var c, s := Cursor(Encode(f), 2 * i, current, next), f.slots[i];
            && IsIdentifier(c) == !s.Data?
            && (s.Data? ==> DataByte(c) == s.a)
            && (!s.Data? ==> ToNat(c.packet[c.index][1..]) == s.id && AuxBit(c) == s.SwitchAfter?)
  {
    var s := f.slots[i];
    EvenBytes(f, i);
    if s.Data? { LowBitRestored(s.a); } else { IdByteDecodes(s.id); }
  }

  /** What the unpacker sees at the odd byte of a slot. */
  lemma OddOfSlot(f: Frame, i: nat, current: nat, next: nat)
    requires f.Valid() && i < 7
    ensures var c := Cursor(Encode(f), 2 * i + 1, current, next);
            !IsIdentifier(c) && DataByte(c) == f.slots[i].b
  {
    Halving(i);
  }

  lemma LastBytes(f: Frame)
    requires f.Valid()
    ensures Encode(f)[14] == if f.last.LastData? then WithLowBit(f.last.a, false) else IdByte(f.last.id)
    ensures Encode(f)[15][7] == (f.last.LastData? && f.last.a[0])
  {
    assert Encode(f)[15] == AuxByte(f);
  }

  lemma LowBitRestored(a: Byte)
    ensures WithLowBit(WithLowBit(a, false), a[0]) == a
  {}

  lemma IdByteDecodes(id: nat)
    requires id < 128
    ensures IdByte(id)[0] && ToNat(IdByte(id)[1..]) == id
  {
    assert IdByte(id)[1..] == FromNat(id, 7);
    assert Pow2(7) == 128;
    ToNatFromNat(id, 7);
  }

  lemma {:induction false} FilterConcat(mask: Word, a: seq<Item>, b: seq<Item>)
    ensures Filter(mask, a + b) == Filter(mask, a) + Filter(mask, b)
    decreases |a|
  {
    if a == [] {
      assert a + b == b;
    } else {
      FilterConcat(mask, a[1..], b);
      assert (a + b)[0] == a[0];
      assert (a + b)[1..] == a[1..] + b;
      var head := if Wanted(mask, a[0].source) then [a[0].value] else [];
      Regroup(head, Filter(mask, a[1..]), Filter(mask, b));
    }
  }

  function Settled(p: Packet, index: nat, source: nat): Cursor {
    Cursor(p, index, source, source)
  }

  /** Unpacking the two bytes of a slot. */
  lemma SlotDecodes(f: Frame, i: nat, source: nat, mask: Word, input: seq<Byte>)
    requires f.Valid() && i < 7
    ensures Walk(Settled(Encode(f), 2 * i, source), mask, input)
            == Filter(mask, SlotItems(f.slots[i], source))
               + Walk(Settled(Encode(f), 2 * i + 2, SlotSource(f.slots[i], source)), mask, input)
  {
    if f.slots[i].Data? {
      DataSlotDecodes(f, i, source, mask, input);
    } else {
      SwitchSlotDecodes(f, i, source, mask, input);
    }
  }

  lemma DataSlotDecodes(f: Frame, i: nat, source: nat, mask: Word, input: seq<Byte>)
    requires f.Valid() && i < 7 && f.slots[i].Data?
    ensures Walk(Settled(Encode(f), 2 * i, source), mask, input)
            == Filter(mask, SlotItems(f.slots[i], source))
               + Walk(Settled(Encode(f), 2 * i + 2, source), mask, input)
  {
    EvenOfSlot(f, i, source, source);
    OddOfSlot(f, i, source, source);
    TwoDataSteps(Encode(f), 2 * i, source, f.slots[i].a, f.slots[i].b, mask, input);
  }

  lemma TwoDataSteps(p: Packet, index: nat, source: nat, a: Byte, b: Byte, mask: Word, input: seq<Byte>)
    requires index < 13
    requires !IsIdentifier(Settled(p, index, source)) && DataByte(Settled(p, index, source)) == a
    requires !IsIdentifier(Settled(p, index + 1, source)) && DataByte(Settled(p, index + 1, source)) == b
    ensures Walk(Settled(p, index, source), mask, input)
            == Filter(mask, [Item(source, a), Item(source, b)]) + Walk(Settled(p, index + 2, source), mask, input)
  {
    DataStep(Settled(p, index, source), mask, input);
    DataStep(Settled(p, index + 1, source), mask, input);
    FilterTwo(mask, Item(source, a), Item(source, b));
    Regroup(Filter(mask, [Item(source, a)]), Filter(mask, [Item(source, b)]),
            Walk(Settled(p, index + 2, source), mask, input));
  }

  lemma SwitchSlotDecodes(f: Frame, i: nat, source: nat, mask: Word, input: seq<Byte>)
    requires f.Valid() && i < 7 && !f.slots[i].Data?
    ensures Walk(Settled(Encode(f), 2 * i, source), mask, input)
            == Filter(mask, SlotItems(f.slots[i], source))
               + Walk(Settled(Encode(f), 2 * i + 2, f.slots[i].id), mask, input)
  {
    var s := f.slots[i];
    var owner := if s.SwitchAfter? then source else s.id;
    EvenOfSlot(f, i, source, source);
    OddOfSlot(f, i, owner, s.id);
    SwitchStep(Settled(Encode(f), 2 * i, source), s.id, mask, input);
    DataStep(Cursor(Encode(f), 2 * i + 1, owner, s.id), mask, input);
  }

  lemma FilterOne(mask: Word, x: Item)
    ensures Filter(mask, [x]) == if Wanted(mask, x.source) then [x.value] else []
  {
    assert [x][1..] == [];
  }

  lemma FilterTwo(mask: Word, x: Item, y: Item)
    ensures Filter(mask, [x, y]) == Filter(mask, [x]) + Filter(mask, [y])
  {
    FilterConcat(mask, [x], [y]);
    assert [x, y] == [x] + [y];
  }

  lemma DataStep(c: Cursor, mask: Word, input: seq<Byte>)
    requires c.index < 14 && !IsIdentifier(c)
    ensures Walk(c, mask, input) == Filter(mask, [Item(c.current, DataByte(c))])
                                    + Walk(Settled(c.packet, c.index + 1, c.next), mask, input)
  {
    FilterOne(mask, Item(c.current, DataByte(c)));
  }

  lemma SwitchStep(c: Cursor, id: nat, mask: Word, input: seq<Byte>)
    requires c.index < 14 && IsIdentifier(c) && ToNat(c.packet[c.index][1..]) == id && c.current == c.next
    ensures Walk(c, mask, input)
            == Walk(Cursor(c.packet, c.index + 1, if AuxBit(c) then c.current else id, id), mask, input)
  {}

  lemma Regroup(a: seq<Byte>, b: seq<Byte>, c: seq<Byte>)
    ensures a + (b + c) == (a + b) + c
  {}

  lemma {:induction false} SlotsDecode(f: Frame, i: nat, at: nat, source: nat, mask: Word, input: seq<Byte>)
    requires f.Valid() && i <= 7 && at == 2 * i
    ensures Walk(Settled(Encode(f), at, source), mask, input)
            == Filter(mask, ItemsFrom(f, i, source))
               + Deliver(Settled(Encode(f), 0, SourceFrom(f, i, source)), mask, input)
    decreases 7 - i
  {
    if i < 7 {
      var s, next := f.slots[i], SlotSource(f.slots[i], source);
      var here, later := SlotItems(s, source), ItemsFrom(f, i + 1, next);
      SlotDecodes(f, i, source, mask, input);
      SlotsDecode(f, i + 1, at + 2, next, mask, input);
      FilterConcat(mask, here, later);
      Regroup(Filter(mask, here), Filter(mask, later),
              Deliver(Settled(Encode(f), 0, SourceFrom(f, i + 1, next)), mask, input));
    } else {
      LastDecodes(f, source, mask, input);
    }
  }

  lemma LastDecodes(f: Frame, source: nat, mask: Word, input: seq<Byte>)
    requires f.Valid()
    ensures Walk(Settled(Encode(f), 14, source), mask, input)
            == Filter(mask, ItemsFrom(f, 7, source))
               + Deliver(Settled(Encode(f), 0, SourceFrom(f, 7, source)), mask, input)
  {
    var c := Settled(Encode(f), 14, source);
    LastBytes(f);
    assert 14 / 2 == 7;
    var end := Settled(Encode(f), 0, SourceFrom(f, 7, source));
    if f.last.LastData? {
      LowBitRestored(f.last.a);
      FilterOne(mask, Item(source, f.last.a));
      assert Advance(c.(current := c.next)) == end;
    } else {
      IdByteDecodes(f.last.id);
      assert Advance(SwitchTo(c, f.last.id, false)) == end;
    }
  }

  /** Whatever frames the trace port emits, the unpacker delivers exactly the bytes of the wanted
      sources, in order, across frame boundaries and delayed source changes. */
  lemma {:induction false} FormatterRoundTrip(frames: seq<Frame>, p: Packet, source: nat, mask: Word)
    requires forall f | f in frames :: f.Valid()
    ensures Deliver(Settled(p, 0, source), mask, EncodeAll(frames)) == Filter(mask, Items(frames, source))
    decreases |frames|
  {
    if frames == [] {
    } else {
      var f, rest := frames[0], frames[1..];
      var input := EncodeAll(frames);
      assert input[..16] == Encode(f) && input[16..] == EncodeAll(rest);
      assert Deliver(Settled(p, 0, source), mask, input)
             == Walk(Settled(Encode(f), 0, source), mask, EncodeAll(rest));
      SlotsDecode(f, 0, 0, source, mask, EncodeAll(rest));
      FormatterRoundTrip(rest, Encode(f), SourceFrom(f, 0, source), mask);
      FilterConcat(mask, ItemsFrom(f, 0, source), Items(rest, SourceFrom(f, 0, source)));
    }
  }
}
