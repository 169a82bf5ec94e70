/** P-headers: the formats of the protocol, and that the decoder tells them apart and reads them right. */
module EtmHeaders {
  import opened BitWords
  import opened EtmModel
  import opened EtmPackets

  /** The headers of a cycle-accurate trace, as the trace unit composes them. */
  datatype CycleHeader =
    | OneWait                                // a wait and nothing else
    | WaitsAndAtoms(n: nat, last: bool)      // n times a wait and an execution, then maybe a wait and a skip
    | WaitAndTwo(first: bool, second: bool)  // a wait and two instructions
    | WaitsThenOne(n: nat, last: bool)       // n waits, then maybe an execution
    | OneAtom(no: bool)
  {
    predicate Valid() {
      match this
      case WaitsAndAtoms(n, last) => n < 8 && (n > 0 || last)
      case WaitsThenOne(n, _) => 1 <= n <= 8
      case _ => true
    }

    function Encode(): Byte
      requires Valid()
    {
      match this
      case OneWait => [false, false, false, false, false, false, false, true]
      case WaitsAndAtoms(n, last) => [false, false] + FromNat(n, 3) + [false, last, true]
      case WaitAndTwo(first, second) => [false, true, second, first, false, false, false, true]
      case WaitsThenOne(n, last) => [false, false] + FromNat(n - 1, 3) + [true, last, true]
      case OneAtom(no) => [false, true, no, false, true, false, false, true]
    }

    /** What it stands for. */
    function Cycles(): seq<Cycle> {
      match this
      case OneWait => [W]
      case WaitsAndAtoms(n, last) => Repeat([W, E], n) + Repeat([W, N], if last then 1 else 0)
      case WaitAndTwo(first, second) => [W] + Atom(first) + Atom(second)
      case WaitsThenOne(n, last) => Repeat([W], n) + Repeat([E], if last then 1 else 0)
      case OneAtom(no) => Atom(no)
    }
  }

  /** The headers of a trace without cycle counts. */
  datatype PlainHeader =
    | Atoms(n: nat, last: bool)              // n executions, then maybe a skip
    | TwoAtoms(first: bool, second: bool)    // two instructions
  {
    predicate Valid() {
      Atoms? ==> n < 16
    }

    function Encode(): Byte
      requires Valid()
    {
      match this
      case Atoms(n, last) => [false, false] + FromNat(n, 4) + [last, true]
      case TwoAtoms(first, second) => [false, true, second, first, false, false, false, true]
    }

    function Cycles(): seq<Cycle> {
      match this
      case Atoms(n, last) => Repeat([E], n) + Repeat([N], if last then 1 else 0)
      case TwoAtoms(first, second) => Atom(first) + Atom(second)
    }
  }

  lemma FourBits(n: nat, low: bool, mid: bool, b6: bool, b7: bool)
    requires n < 16
    ensures ToNat(([low, mid] + FromNat(n, 4) + [b6, b7])[2..6]) == n
  {
    assert ([low, mid] + FromNat(n, 4) + [b6, b7])[2..6] == FromNat(n, 4);
    assert Pow2(4) == 16;
    ToNatFromNat(n, 4);
  }

  lemma ThreeBits(n: nat, low: bool, mid: bool, b5: bool, b6: bool, b7: bool)
    requires n < 8
    ensures ToNat(([low, mid] + FromNat(n, 3) + [b5, b6, b7])[2..5]) == n
  {
    assert ([low, mid] + FromNat(n, 3) + [b5, b6, b7])[2..5] == FromNat(n, 3);
    assert Pow2(3) == 8;
    ToNatFromNat(n, 3);
  }

  // ---------- encoding and decoding ----------

  /** The count field in bits 2 to 4. */
  lemma CountField(h: Byte)
    ensures ToNat(h[2..5]) < 8 && FromNat(ToNat(h[2..5]), 3) == h[2..5]
    ensures ToNat(h[2..5]) == 0 <==> !h[2] && !h[3] && !h[4]
  {
    assert Pow2(3) == 8;
    FromNatToNat(h[2..5]);
    var s := h[2..5];
    assert ToNat(s[1..][1..][1..]) == 0;
  }

  /** The formats of a cycle-accurate trace, bit by bit. */
  lemma FormatBits(h: Byte)
    ensures Has(h, 0xff, 0x80) <==> !h[0] && !h[1] && !h[2] && !h[3] && !h[4] && !h[5] && !h[6] && h[7]
    ensures Has(h, 0xa3, 0x80) <==> !h[0] && !h[1] && !h[5] && h[7]
    ensures Has(h, 0xf3, 0x82) <==> !h[0] && h[1] && !h[4] && !h[5] && !h[6] && h[7]
    ensures Has(h, 0xa3, 0xa0) <==> !h[0] && !h[1] && h[5] && h[7]
    ensures Has(h, 0xfb, 0x92) <==> !h[0] && h[1] && !h[3] && h[4] && !h[5] && !h[6] && h[7]
  {}

  lemma ReadsWaitsAndAtoms(cfg: Config, h: Byte, n: nat, last: bool)
    requires cfg.cycleAccurate && !h[0] && !h[1] && !h[5] && h[6] == last && h[7]
    requires ToNat(h[2..5]) == n && (n > 0 || last)
    ensures KnownHeader(cfg, h) && HeaderCycles(cfg, h) == WaitsAndAtoms(n, last).Cycles()
  {
    CountField(h);
    FormatBits(h);
    assert Has(h, 0xa3, 0x80) && !Has(h, 0xff, 0x80);
  }

  lemma WaitsAndAtomsDecodes(cfg: Config, n: nat, last: bool)
    requires cfg.cycleAccurate && n < 8 && (n > 0 || last)
    ensures var p := WaitsAndAtoms(n, last);
            KnownHeader(cfg, p.Encode()) && HeaderCycles(cfg, p.Encode()) == p.Cycles()
  {
    ThreeBits(n, false, false, false, last, true);
    ReadsWaitsAndAtoms(cfg, WaitsAndAtoms(n, last).Encode(), n, last);
  }

  lemma WaitAndTwoDecodes(cfg: Config, first: bool, second: bool)
    requires cfg.cycleAccurate
    ensures var p := WaitAndTwo(first, second);
            KnownHeader(cfg, p.Encode()) && HeaderCycles(cfg, p.Encode()) == p.Cycles()
  {}

  lemma ReadsWaitsThenOne(cfg: Config, h: Byte, n: nat, last: bool)
    requires cfg.cycleAccurate && !h[0] && !h[1] && h[5] && h[6] == last && h[7] && ToNat(h[2..5]) == n
    ensures KnownHeader(cfg, h) && HeaderCycles(cfg, h) == WaitsThenOne(n + 1, last).Cycles()
  {
    FormatBits(h);
    assert Has(h, 0xa3, 0xa0) && !Has(h, 0xff, 0x80) && !Has(h, 0xa3, 0x80) && !Has(h, 0xf3, 0x82);
  }

  lemma WaitsThenOneDecodes(cfg: Config, n: nat, last: bool)
    requires cfg.cycleAccurate && 1 <= n <= 8
    ensures var p := WaitsThenOne(n, last);
            KnownHeader(cfg, p.Encode()) && HeaderCycles(cfg, p.Encode()) == p.Cycles()
  {
    ThreeBits(n - 1, false, false, true, last, true);
    ReadsWaitsThenOne(cfg, WaitsThenOne(n, last).Encode(), n - 1, last);
  }

  lemma OneAtomDecodes(cfg: Config, no: bool)
    requires cfg.cycleAccurate
    ensures var p := OneAtom(no);
            KnownHeader(cfg, p.Encode()) && HeaderCycles(cfg, p.Encode()) == p.Cycles()
  {
    var h := OneAtom(no).Encode();
  }

  /** Every header of a cycle-accurate trace decodes to the cycles it was made from. */
  lemma CycleHeaderRoundTrip(cfg: Config, p: CycleHeader)
    requires cfg.cycleAccurate && p.Valid()
    ensures KnownHeader(cfg, p.Encode()) && HeaderCycles(cfg, p.Encode()) == p.Cycles()
  {
    match p
    case OneWait =>
    case WaitsAndAtoms(n, last) => WaitsAndAtomsDecodes(cfg, n, last);
    case WaitAndTwo(first, second) => WaitAndTwoDecodes(cfg, first, second);
    case WaitsThenOne(n, last) => WaitsThenOneDecodes(cfg, n, last);
    case OneAtom(no) => OneAtomDecodes(cfg, no);
  }

  /** Every header of a plain trace decodes to the instructions it was made from. */
  lemma PlainHeaderRoundTrip(cfg: Config, p: PlainHeader)
    requires !cfg.cycleAccurate && p.Valid()
    ensures KnownHeader(cfg, p.Encode()) && HeaderCycles(cfg, p.Encode()) == p.Cycles()
  {
    var h := p.Encode();
    if p.Atoms? { FourBits(p.n, false, false, p.last, true); }
  }

  lemma {:induction false} FromNatToNat(s: seq<bool>)
    ensures FromNat(ToNat(s), |s|) == s
  {
    if s == [] {
    } else {
      FromNatToNat(s[1..]);
      var n := ToNat(s);
      assert n % 2 == 1 <==> s[0];
      assert n / 2 == ToNat(s[1..]);
    }
  }

  /** The known headers of a cycle-accurate trace, bit by bit. */
  lemma KnownBits(cfg: Config, h: Byte)
    requires cfg.cycleAccurate && KnownHeader(cfg, h)
    ensures h[7] && !h[0] && (h[1] ==> !h[5] && !h[6] && (h[4] ==> !h[3]))
  {
  }

  lemma SplitHeader(h: Byte)
    ensures h == [h[0], h[1]] + h[2..5] + [h[5], h[6], h[7]]
  {}

  /** There are no other known headers in a cycle-accurate trace. */
  lemma CycleHeadersComplete(cfg: Config, h: Byte) returns (p: CycleHeader)
    requires cfg.cycleAccurate && KnownHeader(cfg, h)
    ensures p.Valid() && p.Encode() == h
  {
    KnownBits(cfg, h);
    CountField(h);
    SplitHeader(h);
    if !h[1] {
      var n := ToNat(h[2..5]);
      p := if h[5] then WaitsThenOne(n + 1, h[6]) else if n > 0 || h[6] then WaitsAndAtoms(n, h[6]) else OneWait;
    } else {
      p := if h[4] then OneAtom(h[2]) else WaitAndTwo(h[3], h[2]);
    }
  }

  lemma PlainFormatBits(h: Byte)
    ensures Has(h, 0x83, 0x80) <==> !h[0] && !h[1] && h[7]
    ensures Has(h, 0xf3, 0x82) <==> !h[0] && h[1] && !h[4] && !h[5] && !h[6] && h[7]
  {}

  lemma SplitPlain(h: Byte)
    ensures h == [h[0], h[1]] + h[2..6] + [h[6], h[7]]
  {}

  lemma PlainHeadersComplete(cfg: Config, h: Byte) returns (p: PlainHeader)
    requires !cfg.cycleAccurate && KnownHeader(cfg, h)
    ensures p.Valid() && p.Encode() == h
  {
    PlainFormatBits(h);
    if !h[1] {
      assert Pow2(4) == 16;
      FromNatToNat(h[2..6]);
      SplitPlain(h);
      p := Atoms(ToNat(h[2..6]), h[6]);
    } else {
      p := TwoAtoms(h[3], h[2]);
    }
  }

  // ---------- atoms of the program-flow protocol ----------

  /** One to five atoms below a marker bit; a set bit means not executed. */
  function AtomHeader(nos: seq<bool>): Byte
    requires 1 <= |nos| <= 5
  {
    seq(8, i requires 0 <= i < 8 =>
        if 1 <= i <= |nos| then nos[|nos| - i] else i == |nos| + 1 || i == 7)
  }

  function AtomsOf(nos: seq<bool>): seq<Cycle> {
    if nos == [] then [] else Atom(nos[0]) + AtomsOf(nos[1..])
  }

  lemma {:induction false} AtomsBelowDecode(h: Byte, nos: seq<bool>)
    requires |nos| <= 5 && forall i | 1 <= i <= |nos| :: h[i] == nos[|nos| - i]
    ensures AtomsBelow(h, |nos|) == AtomsOf(nos)
  {
    if nos == [] {
    } else {
      AtomsBelowDecode(h, nos[1..]);
      assert h[|nos|] == nos[0];
    }
  }

  lemma {:induction false} MarkerFound(h: Byte, n: nat, top: nat)
    requires n + 1 <= top <= 6 && 1 <= n && h[n + 1] && forall i | n + 1 < i <= 6 :: !h[i]
    ensures AtomCycles(h, top) == AtomsBelow(h, n)
    decreases top
  {
    if top == n + 1 {
    } else {
      MarkerFound(h, n, top - 1);
    }
  }

  /** Any one to five atoms are read back in order. */
  lemma AtomHeaderRoundTrip(nos: seq<bool>)
    requires 1 <= |nos| <= 5
    ensures AtomCycles(AtomHeader(nos), 6) == AtomsOf(nos)
  {
    MarkerFound(AtomHeader(nos), |nos|, 6);
    AtomsBelowDecode(AtomHeader(nos), nos);
  }
}
