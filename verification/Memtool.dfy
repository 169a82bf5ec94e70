/** memtool's register fields: masked read-modify-write on a flat memory. */
module Memtool {
  import opened BitWords

  /** Bits lsb..msb of the register of `width` bytes at an address. */
  datatype Field = Field(addr: nat, width: nat, lsb: nat, msb: nat) {
    predicate Valid(size: nat) {
      width in {1, 2, 4} && addr + width <= size && lsb <= msb < 8 * width
    }

    /** Bit b of byte a of memory belongs to the field. */
    predicate Covers(a: nat, b: nat) {
      b < 8 && addr <= a < addr + width && lsb <= 8 * (a - addr) + b <= msb
    }
  }

  // ---------- words and bytes ----------

  function NoByte(): Byte {
    [false, false, false, false, false, false, false, false]
  }

  /** Bit b of byte j of a word. */
  predicate At(w: Word, j: nat, b: nat)
    requires j < 4 && b < 8
  {
    w[8 * j + b]
  }

  function ByteOf(w: Word, j: nat): (r: Byte)
    requires j < 4
    ensures forall b | 0 <= b < 8 :: r[b] == At(w, j, b)
  {
    w[8 * j..8 * j + 8]
  }

  function FromBytes(b0: Byte, b1: Byte, b2: Byte, b3: Byte): (r: Word) {
    b0 + b1 + b2 + b3
  }

  lemma FromBytesAt(b0: Byte, b1: Byte, b2: Byte, b3: Byte, j: nat, b: nat)
    requires j < 4 && b < 8
    ensures At(FromBytes(b0, b1, b2, b3), j, b)
            == if j == 0 then b0[b] else if j == 1 then b1[b] else if j == 2 then b2[b] else b3[b]
  {}

  // ---------- memory access ----------

  /** readm: the register's bytes, least significant first, with zeros above. */
  function ReadM(mem: seq<Byte>, addr: nat, width: nat): Word
    requires width in {1, 2, 4} && addr + width <= |mem|
  {
    if width == 1 then FromBytes(mem[addr], NoByte(), NoByte(), NoByte())
    else if width == 2 then FromBytes(mem[addr], mem[addr + 1], NoByte(), NoByte())
    else FromBytes(mem[addr], mem[addr + 1], mem[addr + 2], mem[addr + 3])
  }

  lemma ReadMAt(mem: seq<Byte>, addr: nat, width: nat, j: nat, b: nat)
    requires width in {1, 2, 4} && addr + width <= |mem| && j < 4 && b < 8
    ensures At(ReadM(mem, addr, width), j, b) == (j < width && mem[addr + j][b])
  {
    if width == 1 {
      FromBytesAt(mem[addr], NoByte(), NoByte(), NoByte(), j, b);
    } else if width == 2 {
      FromBytesAt(mem[addr], mem[addr + 1], NoByte(), NoByte(), j, b);
    } else {
      FromBytesAt(mem[addr], mem[addr + 1], mem[addr + 2], mem[addr + 3], j, b);
    }
  }

  function StoredAt(mem: seq<Byte>, addr: nat, width: nat, value: Word, a: nat): Byte
    requires width in {1, 2, 4} && addr + width <= |mem| && a < |mem|
  {
    if addr <= a < addr + width then ByteOf(value, a - addr) else mem[a]
  }

  /** What writem leaves in memory. */
  function Stored(mem: seq<Byte>, addr: nat, width: nat, value: Word): (r: seq<Byte>)
    requires width in {1, 2, 4} && addr + width <= |mem|
    ensures |r| == |mem|
  {
    seq(|mem|, a requires 0 <= a < |mem| => StoredAt(mem, addr, width, value, a))
  }

  /** writem. */
  method WriteM(mem: array<Byte>, addr: nat, width: nat, value: Word)
    requires width in {1, 2, 4} && addr + width <= mem.Length
    modifies mem
    ensures mem[..] == Stored(old(mem[..]), addr, width, value)
  {
    mem[addr] := ByteOf(value, 0);
    if width >= 2 { mem[addr + 1] := ByteOf(value, 1); }
    if width == 4 {
      mem[addr + 2] := ByteOf(value, 2);
      mem[addr + 3] := ByteOf(value, 3);
    }
  }

  // ---------- fields ----------

  function Ones(): Word {
    seq(32, i requires 0 <= i < 32 => true)
  }

  function And(x: Word, y: Word): Word {
    seq(32, i requires 0 <= i < 32 => x[i] && y[i])
  }

  function Not(x: Word): Word {
    seq(32, i requires 0 <= i < 32 => !x[i])
  }

  /** The register with bits lsb..msb replaced. */
  function Replaced(org: Word, value: Word, lsb: nat, msb: nat): Word {
    seq(32, i requires 0 <= i < 32 => if lsb <= i <= msb then value[i - lsb] else org[i])
  }

  /** Memory after a field has been written. */
  function Written(mem: seq<Byte>, f: Field, value: Word): (r: seq<Byte>)
    requires f.Valid(|mem|)
    ensures |r| == |mem|
  {
    Stored(mem, f.addr, f.width, Replaced(ReadM(mem, f.addr, f.width), value, f.lsb, f.msb))
  }

  /** write_reg_mask: false if the width is not one the program knows, which ends it. */
  method WriteRegMask(mem: array<Byte>, f: Field, value: Word) returns (ok: bool)
    requires f.width in {1, 2, 4} ==> f.Valid(mem.Length)
    modifies mem
    ensures ok == (f.width in {1, 2, 4})
    ensures mem[..] == if ok then Written(old(mem[..]), f, value) else old(mem[..])
  {
    if f.width != 1 && f.width != 2 && f.width != 4 {
      return false;
    }
    var org := ReadM(mem[..], f.addr, f.width);
    var mask := Left(Right(Ones(), f.lsb), f.lsb);
    mask := Right(Left(mask, 31 - f.msb), 31 - f.msb);
    ghost var before := org;
    org := And(org, Not(mask));
    var shifted := Left(value, f.lsb);
    org := Or(org, And(shifted, mask));
    assert org == Replaced(before, value, f.lsb, f.msb);
    WriteM(mem, f.addr, f.width, org);
    ok := true;
  }

  /** value >> k for a signed value. */
  function ShiftSigned(x: Word, k: nat): Word {
    seq(32, i requires 0 <= i < 32 => if i + k < 32 then x[i + k] else x[31])
  }

  /** get_value. */
  function GetValue(value: Word, lsb: nat, msb: nat): Word
    requires lsb <= msb < 32
  {
    And(ShiftSigned(value, lsb), Right(Ones(), 31 - (msb - lsb)))
  }

  /** A value cut to a field's width. */
  function Truncated(value: Word, f: Field): Word
    requires f.lsb <= f.msb
  {
    seq(32, i requires 0 <= i < 32 => i <= f.msb - f.lsb && value[i])
  }

  function GetField(mem: seq<Byte>, f: Field): Word
    requires f.Valid(|mem|)
  {
    GetValue(ReadM(mem, f.addr, f.width), f.lsb, f.msb)
  }

  /** The sign bit that the shift brings in never shows. */
  lemma GetValueAt(value: Word, lsb: nat, msb: nat, i: nat)
    requires lsb <= msb < 32 && i < 32
    ensures GetValue(value, lsb, msb)[i] == (i <= msb - lsb && value[lsb + i])
  {}

  // ---------- fields behave as independent variables ----------

  /** Writing a field changes the bits it covers, and no others. */
  lemma WrittenBit(mem: seq<Byte>, f: Field, value: Word, a: nat, b: nat)
    requires f.Valid(|mem|) && a < |mem| && b < 8
    ensures Written(mem, f, value)[a][b]
            == if f.Covers(a, b) then value[8 * (a - f.addr) + b - f.lsb] else mem[a][b]
  {
    if f.addr <= a < f.addr + f.width {
      var org, j := ReadM(mem, f.addr, f.width), a - f.addr;
      ReadMAt(mem, f.addr, f.width, j, b);
      assert Written(mem, f, value)[a][b] == At(Replaced(org, value, f.lsb, f.msb), j, b);
    }
  }

  ghost predicate Disjoint(f: Field, g: Field) {
    forall a: nat, b: nat :: !(f.Covers(a, b) && g.Covers(a, b))
  }

  /** Bit i of a field's value is bit b of byte j of its register. */
  lemma FieldBit(mem: seq<Byte>, f: Field, i: nat, j: nat, b: nat)
    requires f.Valid(|mem|) && i <= f.msb - f.lsb && f.lsb + i == 8 * j + b && b < 8
    ensures f.Covers(f.addr + j, b) && GetField(mem, f)[i] == mem[f.addr + j][b]
  {
    GetValueAt(ReadM(mem, f.addr, f.width), f.lsb, f.msb, i);
    ReadMAt(mem, f.addr, f.width, j, b);
    assert At(ReadM(mem, f.addr, f.width), j, b) == ReadM(mem, f.addr, f.width)[f.lsb + i];
  }

  lemma ReadBackBit(mem: seq<Byte>, f: Field, value: Word, i: nat, j: nat, b: nat)
    requires f.Valid(|mem|) && i <= f.msb - f.lsb && f.lsb + i == 8 * j + b && b < 8
    ensures GetField(Written(mem, f, value), f)[i] == value[i]
  {
    FieldBit(Written(mem, f, value), f, i, j, b);
    WrittenBit(mem, f, value, f.addr + j, b);
  }

  lemma UntouchedBit(mem: seq<Byte>, f: Field, value: Word, g: Field, i: nat, j: nat, b: nat)
    requires f.Valid(|mem|) && g.Valid(|mem|) && Disjoint(f, g)
    requires i <= g.msb - g.lsb && g.lsb + i == 8 * j + b && b < 8
    ensures GetField(Written(mem, f, value), g)[i] == GetField(mem, g)[i]
  {
    FieldBit(Written(mem, f, value), g, i, j, b);
    FieldBit(mem, g, i, j, b);
    WrittenBit(mem, f, value, g.addr + j, b);
  }

  lemma ReadBack(mem: seq<Byte>, f: Field, value: Word)
    requires f.Valid(|mem|)
    ensures GetField(Written(mem, f, value), f) == Truncated(value, f)
  {
    var after := Written(mem, f, value);
    forall i | 0 <= i < 32 ensures GetField(after, f)[i] == Truncated(value, f)[i] {
      GetValueAt(ReadM(after, f.addr, f.width), f.lsb, f.msb, i);
      if i <= f.msb - f.lsb { ReadBackBit(mem, f, value, i, (f.lsb + i) / 8, (f.lsb + i) % 8); }
    }
  }

  lemma Untouched(mem: seq<Byte>, f: Field, value: Word, g: Field)
    requires f.Valid(|mem|) && g.Valid(|mem|) && Disjoint(f, g)
    ensures GetField(Written(mem, f, value), g) == GetField(mem, g)
  {
    var after := Written(mem, f, value);
    forall i | 0 <= i < 32 ensures GetField(after, g)[i] == GetField(mem, g)[i] {
      GetValueAt(ReadM(after, g.addr, g.width), g.lsb, g.msb, i);
      GetValueAt(ReadM(mem, g.addr, g.width), g.lsb, g.msb, i);
      if i <= g.msb - g.lsb { UntouchedBit(mem, f, value, g, i, (g.lsb + i) / 8, (g.lsb + i) % 8); }
    }
  }

  datatype Write = Write(field: Field, value: Word)

  predicate AllValid(writes: seq<Write>, size: nat) {
    forall i | 0 <= i < |writes| :: writes[i].field.Valid(size)
  }

  function Apply(mem: seq<Byte>, writes: seq<Write>): (r: seq<Byte>)
    requires AllValid(writes, |mem|)
    ensures |r| == |mem|
  {
    if writes == [] then mem
    else
      var last := writes[|writes| - 1];
      Written(Apply(mem, writes[..|writes| - 1]), last.field, last.value)
  }

  /** After any sequence of writes to any registers, a field reads back the last value written to it, cut
      to its width, as long as the later writes were to fields disjoint from it. */
  lemma {:induction false} LastWriteWins(mem: seq<Byte>, writes: seq<Write>, i: nat)
    requires AllValid(writes, |mem|) && i < |writes|
    requires forall j | i < j < |writes| :: Disjoint(writes[j].field, writes[i].field)
    ensures GetField(Apply(mem, writes), writes[i].field) == Truncated(writes[i].value, writes[i].field)
    decreases |writes|
  {
    var before, last := writes[..|writes| - 1], writes[|writes| - 1];
    if i == |before| {
      ReadBack(Apply(mem, before), last.field, last.value);
    } else {
      LastWriteWins(mem, before, i);
      Untouched(Apply(mem, before), last.field, last.value, writes[i].field);
    }
  }

  /** A field that no write overlaps keeps its value. */
  lemma {:induction false} NeverWritten(mem: seq<Byte>, writes: seq<Write>, g: Field)
    requires AllValid(writes, |mem|) && g.Valid(|mem|)
    requires forall j | 0 <= j < |writes| :: Disjoint(writes[j].field, g)
    ensures GetField(Apply(mem, writes), g) == GetField(mem, g)
    decreases |writes|
  {
    if writes == [] {
    } else {
      var before, last := writes[..|writes| - 1], writes[|writes| - 1];
      NeverWritten(mem, before, g);
      Untouched(Apply(mem, before), last.field, last.value, g);
    }
  }
}
