/** Packets of fixed fields: synchronisation, contexts and data. What they carry reaches the decoder's address, mode
    and log unchanged. */
module EtmSync {
  import opened BitWords
  import opened EtmCounts
  import opened EtmModel
  import opened EtmPackets
  import opened EtmTables

  // ---------- words sent byte by byte ----------

  /** Bytes i..i + n of a word, least significant first. */
  function WordBytes(w: Word, i: nat, n: nat): (b: seq<Byte>)
    requires i + n <= 4
    ensures |b| == n
    decreases n
  {
    if n == 0 then [] else [w[8 * i..8 * i + 8]] + WordBytes(w, i + 1, n - 1)
  }

  /** The word without all but its k low bytes. */
  function LowBytes(w: Word, k: nat): Word {
    Spliced(w, NoAddr(), 8 * k)
  }

  lemma NextLowByte(w: Word, i: nat)
    requires i < 4
    ensures Put(LowBytes(w, i), 8 * i, w[8 * i..8 * i + 8]) == LowBytes(w, i + 1)
  {}

  lemma {:induction false} ReadWordDecodes(s: State, w: Word, i: nat, n: nat, rest: seq<Byte>)
    requires !s.exited && i + n <= 4 && s.input == WordBytes(w, i, n) + rest
    ensures var r := ReadWord(s, LowBytes(w, i), i, n);
            r.value == LowBytes(w, i + n) && Reaches(r.state, s.track, rest)
    decreases n
  {
    if n == 0 {
      assert s.input == rest;
    } else {
      var b, more := w[8 * i..8 * i + 8], WordBytes(w, i + 1, n - 1) + rest;
      Split(WordBytes(w, i, n), rest);
      NextByte(s, b, more);
      NextLowByte(w, i);
      ReadWordDecodes(s.(input := more, data := b), w, i + 1, n - 1, rest);
    }
  }

  /** n bytes read from nothing. */
  lemma ReadWordRoundTrip(s: State, w: Word, n: nat, rest: seq<Byte>)
    requires !s.exited && n <= 4 && s.input == WordBytes(w, 0, n) + rest
    ensures var r := ReadWord(s, NoAddr(), 0, n); r.value == LowBytes(w, n) && Reaches(r.state, s.track, rest)
  {
    NothingSpliced(w, NoAddr());
    ReadWordDecodes(s, w, 0, n, rest);
  }

  lemma WholeWord(w: Word)
    ensures LowBytes(w, 4) == w
  {}

  // ---------- synchronisation ----------

  /** The instruction set that a synchronisation packet selects. */
  function SyncMode(info: Byte, addr: Word): Mode {
    if info[4] then 0 else if addr[0] then 1 else 2
  }

  /** Thumb addresses lose their low bit. */
  function SyncAddr(info: Byte, addr: Word): Word {
    if SyncMode(info, addr) == 1 then addr[0 := false] else addr
  }

  /** The decoder is synchronised: at the packet's address, in its mode. */
  function Placed(t: Track, info: Byte, addr: Word): Track {
    SetAddr(t, SyncAddr(info, addr), SyncMode(info, addr))
  }

  lemma UpdateAddrPlaces(t: Track, info: Byte, addr: Word)
    ensures UpdateAddr(t, info, addr) == Placed(t, info, addr)
  {
    if !info[4] && addr[0] { assert Put(addr, 0, [false]) == addr[0 := false]; }
  }

  /** The packet's line: the context as far as it is sent, and the address. */
  function SyncShown(cfg: Config, t: Track, context: Word, info: Byte): Track {
    Emit(t, IsyncLine(LowBytes(context, cfg.contextidBytes), info, t.iaddr))
  }

  /** Context, information byte and address, in the order of the ETM protocol. */
  function IsyncBytes(cfg: Config, context: Word, info: Byte, addr: Word): seq<Byte>
    requires cfg.contextidBytes <= 4
  {
    WordBytes(context, 0, cfg.contextidBytes) + ([info] + WordBytes(addr, 0, 4))
  }

  lemma IsyncRoundTrip(cfg: Config, s: State, context: Word, info: Byte, addr: Word, rest: seq<Byte>)
    requires !s.exited && cfg.contextidBytes <= 4
    requires s.input == IsyncBytes(cfg, context, info, addr) + rest
    ensures Reaches(Isync(cfg, s), SyncShown(cfg, Placed(s.track, info, addr), context, info), rest)
  {
    var n, tail := cfg.contextidBytes, WordBytes(addr, 0, 4) + rest;
    ThreeParts(WordBytes(context, 0, n), [info], WordBytes(addr, 0, 4), rest);
    ReadWordRoundTrip(s, context, n, [info] + tail);
    var c := ReadWord(s, NoAddr(), 0, n);
    NextByte(c.state, info, tail);
    ReadWordRoundTrip(GetByte(c.state), addr, 4, rest);
    WholeWord(addr);
    UpdateAddrPlaces(s.track, info, addr);
  }

  lemma ThreeParts(a: seq<Byte>, b: seq<Byte>, c: seq<Byte>, d: seq<Byte>)
    ensures (a + (b + c)) + d == a + (b + (c + d))
  {}

  predicate CountAnnounced(cfg: Config, info: Byte) {
    cfg.cycleAccurate && (info[6] || info[5])
  }

  function AnnouncedCount(cfg: Config, info: Byte, count: Word): seq<Byte> {
    if CountAnnounced(cfg, info) then FollowingCount(count) else []
  }

  /** Address, information byte, a cycle count if the trace is cycle-accurate and the information byte
      announces one, and context, in the order of the program-flow protocol. */
  function IsyncPftBytes(cfg: Config, context: Word, info: Byte, addr: Word, count: Word): seq<Byte>
    requires cfg.contextidBytes <= 4
  {
    WordBytes(addr, 0, 4) + ([info] + (AnnouncedCount(cfg, info, count) + WordBytes(context, 0, cfg.contextidBytes)))
  }

  function PlacedPft(cfg: Config, t: Track, info: Byte, addr: Word, count: Word): Track {
    var p := Placed(t, info, addr);
    if CountAnnounced(cfg, info) then Emit(p, CycleLine(count)) else p
  }

  lemma IsyncPftRoundTrip(cfg: Config, s: State, context: Word, info: Byte, addr: Word, count: Word, rest: seq<Byte>)
    requires !s.exited && cfg.contextidBytes <= 4
    requires s.input == IsyncPftBytes(cfg, context, info, addr, count) + rest
    ensures Reaches(IsyncPft(cfg, s), SyncShown(cfg, PlacedPft(cfg, s.track, info, addr, count), context, info), rest)
  {
    var counted, tail := AnnouncedCount(cfg, info, count), WordBytes(context, 0, cfg.contextidBytes) + rest;
    FourParts(WordBytes(addr, 0, 4), [info], counted, WordBytes(context, 0, cfg.contextidBytes), rest);
    ReadWordRoundTrip(s, addr, 4, [info] + (counted + tail));
    WholeWord(addr);
    var a := ReadWord(s, NoAddr(), 0, 4);
    NextByte(a.state, info, counted + tail);
    var i := GetByte(a.state);
    UpdateAddrPlaces(s.track, info, addr);
    PftTailDecodes(cfg, i.(track := Placed(s.track, info, addr)), s.track, context, info, addr, count, rest);
  }

  /** From the end of the information byte on, with the address already taken over. */
  lemma PftTailDecodes(cfg: Config, s: State, t: Track, context: Word, info: Byte, addr: Word, count: Word, rest: seq<Byte>)
    requires !s.exited && cfg.contextidBytes <= 4 && s.track == Placed(t, info, addr)
    requires s.input == AnnouncedCount(cfg, info, count) + (WordBytes(context, 0, cfg.contextidBytes) + rest)
    ensures Reaches(IsyncPftTail(cfg, s, info), SyncShown(cfg, PlacedPft(cfg, t, info, addr, count), context, info), rest)
  {
    var tail := WordBytes(context, 0, cfg.contextidBytes) + rest;
    if CountAnnounced(cfg, info) {
      FollowingCountRoundTrip(s, count, tail);
      ReadWordRoundTrip(CountFollows(s), context, cfg.contextidBytes, rest);
    } else {
      assert s.input == tail;
      ReadWordRoundTrip(s, context, cfg.contextidBytes, rest);
    }
  }

  lemma FourParts(a: seq<Byte>, b: seq<Byte>, c: seq<Byte>, d: seq<Byte>, e: seq<Byte>)
    ensures (a + (b + (c + d))) + e == a + (b + (c + (d + e)))
  {}

  // ---------- data ----------

  /** A data packet: the low bytes of a value, and the data address if it is sent. */
  datatype Datum = Datum(size: nat, value: Word, place: seq<Word>) {
    predicate Valid() {
      size < 4 && |place| <= 1
    }

    function Header(): Byte {
      [false, true, size % 2 == 1, size / 2 == 1, false, place != [], false, false]
    }

    /** The groups of the address that differ from the last address, and the value. */
    function Body(last: Word): seq<Byte>
      requires Valid()
    {
      (if place == [] then [] else Groups(place[0], 0, GroupsNeeded(place[0], last, 0, 1)))
      + WordBytes(value, 0, size)
    }

    /** What it stands for. */
    function Shown(t: Track): Track {
      Emit(if place == [] then t else t.(dataAddr := place[0]),
           DataLine(if size > 0 then [LowBytes(value, size)] else [], place))
    }
  }

  lemma SizeField(d: Datum)
    requires d.Valid()
    ensures ToNat(d.Header()[2..4]) == d.size
  {
    var f := d.Header()[2..4];
    assert f[1..][1..] == [];
    assert ToNat(f[1..]) == if f[1] then 1 else 0;
  }

  lemma DataBytesDecode(s: State, d: Datum, rest: seq<Byte>)
    requires !s.exited && d.Valid() && s.input == WordBytes(d.value, 0, d.size) + rest
    requires d.place == [] || d.place == [s.track.dataAddr]
    ensures Reaches(DataBytes(s, d.Header()), d.Shown(s.track), rest)
  {
    SizeField(d);
    ReadWordRoundTrip(s, d.value, d.size, rest);
    assert d.Header()[5] == (d.place != []);
    if d.place != [] { assert s.track.(dataAddr := d.place[0]) == s.track; }
  }

  lemma BodyParts(d: Datum, last: Word, rest: seq<Byte>)
    requires d.Valid()
    ensures var more := WordBytes(d.value, 0, d.size) + rest;
            d.Body(last) + rest
            == if d.place == [] then more else Groups(d.place[0], 0, GroupsNeeded(d.place[0], last, 0, 1)) + more
  {}

  /** Value and address of a data packet are printed as they were sent. */
  lemma DataRoundTrip(s: State, d: Datum, rest: seq<Byte>)
    requires !s.exited && d.Valid() && s.data == d.Header() && s.input == d.Body(s.track.dataAddr) + rest
    ensures Reaches(NData(s), d.Shown(s.track), rest)
  {
    var last, more := s.track.dataAddr, WordBytes(d.value, 0, d.size) + rest;
    BodyParts(d, last, rest);
    assert d.Header()[5] == (d.place != []);
    if d.place == [] {
      assert s.track.(dataAddr := last) == s.track;
      DataBytesDecode(s, d, rest);
    } else {
      var t := PlaceDecodes(s, d.place[0], more);
      DataBytesDecode(t, d, rest);
    }
  }

  /** The address groups. */
  lemma PlaceDecodes(s: State, place: Word, rest: seq<Byte>) returns (t: State)
    requires !s.exited && s.input == Groups(place, 0, GroupsNeeded(place, s.track.dataAddr, 0, 1)) + rest
    ensures var g := CountGroups(s, s.track.dataAddr, 0, 5);
            !g.state.exited && t == g.state.(track := g.state.track.(dataAddr := g.value))
    ensures Reaches(t, s.track.(dataAddr := place), rest)
  {
    var last := s.track.dataAddr;
    NothingSpliced(place, last);
    GroupsDecode(s, place, last, 0, 5, GroupsNeeded(place, last, 0, 1), rest);
    var g := CountGroups(s, last, 0, 5);
    t := g.state.(track := g.state.track.(dataAddr := g.value));
  }
}
