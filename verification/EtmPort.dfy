/** The byte source of the decoder: standard input, or the formatter unpacker over it. */
module EtmPort {
  import opened BitWords
  import opened EtmFormatter

  lemma AfterDelivers(c: Cursor, mask: Word, input: seq<Byte>)
    requires c.index < 15
    ensures After(c, mask, input) == Deliver(Advance(c), mask, input)
  {}

  lemma IdentifierStep(c: Cursor, mask: Word, input: seq<Byte>)
    requires c.index < 15 && IsIdentifier(c)
    ensures Walk(c, mask, input)
            == Deliver(Advance(SwitchTo(c, ToNat(c.packet[c.index][1..]), AuxBit(c))), mask, input)
  {
    AfterDelivers(SwitchTo(c, ToNat(c.packet[c.index][1..]), AuxBit(c)), mask, input);
  }

  lemma DataByteStep(c: Cursor, mask: Word, input: seq<Byte>)
    requires c.index < 15 && !IsIdentifier(c)
    ensures var rest := Deliver(Cursor(c.packet, NextIndex(c.index), c.next, c.next), mask, input);
            Walk(c, mask, input) == if Wanted(mask, c.current) then [DataByte(c)] + rest else rest
  {
    AfterDelivers(c.(current := c.next), mask, input);
  }

  class Port {
    const formatter: bool
    const sourceidMatch: Word
    const packet: array<Byte>
    var stdin: seq<Byte>
    var index: nat
    var sourceid: nat

    ghost predicate Valid()
      reads this
    {
      packet.Length == 16 && index < 15
    }

    /** All bytes that the decoder has yet to see. */
    ghost function Pending(): seq<Byte>
      requires Valid()
      reads this, packet
    {
      if formatter then Deliver(Cursor(packet[..], index, sourceid, sourceid), sourceidMatch, stdin) else stdin
    }

    constructor (useFormatter: bool, mask: Word, input: seq<Byte>)
      ensures Valid() && fresh(packet) && formatter == useFormatter && sourceidMatch == mask
      ensures !useFormatter ==> Pending() == input
      ensures useFormatter ==> Pending() == Deliver(Settled(packet[..], 0, 0), mask, input)
    {
      formatter, sourceidMatch, stdin, index, sourceid := useFormatter, mask, input, 0, 0;
      packet := new Byte[16];
    }

    method GetChar() returns (ok: bool, ch: Byte)
      modifies this`stdin
      ensures ok == (old(stdin) != [])
      ensures ok ==> old(stdin) == [ch] + stdin
      ensures !ok ==> stdin == []
    {
      if stdin == [] {
        ok, ch := false, *;
      } else {
        ok, ch, stdin := true, stdin[0], stdin[1..];
      }
    }

    /** Reads the next frame; fails at the end of the input, even in the middle of a frame. */
    method ReadFrame() returns (ok: bool)
      requires Valid()
      modifies this`stdin, packet
      ensures Valid() && ok == (|old(stdin)| >= 16)
      ensures ok ==> packet[..] == old(stdin)[..16] && stdin == old(stdin)[16..]
      ensures !ok ==> stdin == []
    {
      ghost var all := stdin;
      var i := 0;
      while i < 16
        invariant Valid() && 0 <= i <= 16
        invariant all == packet[..i] + stdin
      {
        var ch;
        ok, ch := GetChar();
        if !ok { return; }
        packet[i] := ch;
        assert packet[..i + 1] == packet[..i] + [ch];
        i := i + 1;
      }
      ok := true;
      assert packet[..] == packet[..16];
    }

    /** get_byte_from_formatter: the next byte of a wanted source. */
    method GetByteFromFormatter() returns (ok: bool, ch: Byte)
      requires Valid() && formatter
      modifies this`stdin, this`index, this`sourceid, packet
      ensures Valid()
      ensures ok == (old(Pending()) != [])
      ensures ok ==> old(Pending()) == [ch] + Pending()
      ensures !ok ==> Pending() == []
    {
      ghost var all := Pending();
      var current := sourceid;
      while true
        invariant Valid()
        invariant Deliver(Cursor(packet[..], index, current, sourceid), sourceidMatch, stdin) == all
        decreases |stdin|, if index == 0 then 0 else 15 - index
      {
        if index == 0 {
          ok := ReadFrame();
          if !ok {
            ch := *;
            return;
          }
        }
        ghost var c := Cursor(packet[..], index, current, sourceid);
        assert Walk(c, sourceidMatch, stdin) == all;
        var i := index;
        ch := packet[i];
        index := NextIndex(i);
        if i % 2 == 0 {
          var ebit := packet[15][i / 2];
          if ch[0] {
            IdentifierStep(c, sourceidMatch, stdin);
            var id := ToNat(ch[1..]);
            if sourceid != id {
              sourceid := id;
              if !ebit { current := id; }
            }
            continue;
          }
          ch := WithLowBit(ch, ebit);
        }
        DataByteStep(c, sourceidMatch, stdin);
        if Wanted(sourceidMatch, current) {
          ok := true;
          return;
        }
        current := sourceid;
      }
    }

    method GetByte() returns (ok: bool, ch: Byte)
      requires Valid()
      modifies this`stdin, this`index, this`sourceid, packet
      ensures Valid()
      ensures ok == (old(Pending()) != [])
      ensures ok ==> old(Pending()) == [ch] + Pending()
      ensures !ok ==> Pending() == []
    {
      if formatter {
        ok, ch := GetByteFromFormatter();
      } else {
        ok, ch := GetChar();
      }
    }
  }
}
