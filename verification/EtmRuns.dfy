/** What holds in every run of the decoder, over any input whatever. */
module EtmRuns {
  import opened BitWords
  import opened EtmModel
  import opened EtmPackets
  import opened EtmSound
  import opened NatArithmetic

  lemma InitialSound(cfg: Config, input: seq<Byte>)
    ensures Sound(cfg, Initial(input))
  {
    ZeroAddr(32);
  }

  lemma {:induction false} ZeroAddr(k: nat)
    ensures ToNat(seq(k, i requires 0 <= i < k => false)) == 0
  {
    if k == 0 {
    } else {
      ZeroAddr(k - 1);
      assert seq(k, i requires 0 <= i < k => false)[1..] == seq(k - 1, i requires 0 <= i < k - 1 => false);
    }
  }

  lemma EveryStateSound(cfg: Config, input: seq<Byte>, n: nat)
    ensures Sound(cfg, Decoded(cfg, Initial(input), n))
  {
    InitialSound(cfg, input);
    DecodedSound(cfg, Initial(input), n);
  }

  /** Wait cycles are conserved: those printed and those pending are those received in P-headers. */
  lemma WaitsConserved(cfg: Config, input: seq<Byte>, n: nat)
    ensures var s := Decoded(cfg, Initial(input), n);
            Reported(s.track.log) + (if s.exited then 0 else s.track.waitCount) == Received(cfg, s.track.log)
  {
    EveryStateSound(cfg, input, n);
  }

  /** The end of a run. */
  lemma FinalSound(cfg: Config, input: seq<Byte>)
    ensures Sound(cfg, DecodeAll(cfg, Initial(input)))
  {
    InitialSound(cfg, input);
    DecodeAllSound(cfg, Initial(input));
  }

  /** By the end of the input every wait cycle has been reported. */
  lemma AllWaitsReported(cfg: Config, input: seq<Byte>)
    ensures var s := DecodeAll(cfg, Initial(input));
            s.exited && Reported(s.track.log) == Received(cfg, s.track.log)
  {
    FinalSound(cfg, input);
  }

  /** Every printed instruction line carries the address that the earlier lines imply. */
  lemma EveryLineAddressed(cfg: Config, input: seq<Byte>)
    ensures Addressed(cfg, DecodeAll(cfg, Initial(input)).track.log)
  {
    FinalSound(cfg, input);
  }

  /** The address n instructions past a, in closed form. */
  lemma {:induction false} AddrAheadClosed(a: Word, n: nat, mode: Mode)
    ensures AddrAhead(a, n, mode) == Wrapped(ToNat(a) + Offset(n, Pow2(mode)))
  {
    if n == 0 {
      WordRange();
    } else {
      AddrAheadClosed(a, n - 1, mode);
      WrapOnce(ToNat(a) + Offset(n - 1, Pow2(mode)), mode);
    }
  }

  function Wrapped(x: nat): nat {
    x % 0x1_0000_0000
  }

  lemma WrapOnce(x: nat, mode: Mode)
    ensures PcAfter(Wrapped(x), mode) == Wrapped(x + Pow2(mode))
  {
    RemainderOfSum(0x1_0000_0000, x, Pow2(mode));
  }

  lemma WordRange()
    ensures Pow2(32) == 0x1_0000_0000
  {
    assert Pow2(8) == 256;
    assert Pow2(16) == 65536;
    assert Pow2(24) == 0x100_0000;
  }

  /** In ETM mode the program counter is the last address plus the instructions since, each of the size of the
      current instruction set, mod 2^32. In program-flow mode it is the last address and the branch counter
      counts the instructions. */
  predicate PcFollows(cfg: Config, t: Track) {
    if cfg.programFlowOnly then t.pc == ToNat(t.iaddr) && t.branchCount == Since(t.log)
    else t.pc == Wrapped(ToNat(t.iaddr) + Since(t.log) * Pow2(t.mode))
  }

  lemma PcOfSound(cfg: Config, t: Track, pending: nat)
    requires Agrees(cfg, t, pending)
    ensures PcFollows(cfg, t)
  {
    if !cfg.programFlowOnly {
      AddrAheadClosed(t.iaddr, Since(t.log), t.mode);
      OffsetIsProduct(Since(t.log), Pow2(t.mode));
    }
  }

  /** After any number of packets on any input. */
  lemma PcTracksAddress(cfg: Config, input: seq<Byte>, n: nat)
    ensures PcFollows(cfg, Decoded(cfg, Initial(input), n).track)
  {
    var s := Decoded(cfg, Initial(input), n);
    EveryStateSound(cfg, input, n);
    PcOfSound(cfg, s.track, if s.exited then 0 else s.track.waitCount);
  }
}
