/** Counts and addresses sent in groups of seven bits: cycle counts of both protocols and data addresses. The
    decoder reads back what was sent and takes exactly its bytes. */
module EtmCounts {
  import opened BitWords
  import opened EtmModel
  import opened EtmPackets
  import opened EtmTables

  lemma Split(g: seq<Byte>, rest: seq<Byte>)
    requires g != []
    ensures g + rest == [g[0]] + (g[1..] + rest)
  {}

  // ---------- seven-bit groups ----------

  /** The low k bits of one word and the other bits of another. */
  function Spliced(w: Word, prior: Word, k: nat): Word {
    seq(32, i requires 0 <= i < 32 => if i < k then w[i] else prior[i])
  }

  /** Seven bits of a word from bit `at` on, and whether more follow. */
  function Group(w: Word, at: nat, more: bool): Byte {
    seq(8, j requires 0 <= j < 8 => if j == 7 then more else at + j < 32 && w[at + j])
  }

  function Groups(w: Word, at: nat, k: nat): (b: seq<Byte>)
    ensures |b| == k
    decreases k
  {
    if k == 0 then [] else [Group(w, at, k > 1)] + Groups(w, at + 7, k - 1)
  }

  /** The least number of groups, no less than k, that turns the prior word into the new one. */
  function GroupsNeeded(w: Word, prior: Word, at: nat, k: nat): (n: nat)
    ensures k <= n && Spliced(w, prior, at + 7 * n) == w
    ensures forall j | k <= j < n :: Spliced(w, prior, at + 7 * j) != w
    ensures n == k || at + 7 * (n - 1) < 32
    decreases if at + 7 * k < 32 then 32 - 7 * k else 0
  {
    if Spliced(w, prior, at + 7 * k) == w then k
    else
      assert at + 7 * k < 32;
      GroupsNeeded(w, prior, at, k + 1)
  }

  lemma NextGroup(w: Word, prior: Word, at: nat, more: bool)
    ensures Put(Spliced(w, prior, at), at, Group(w, at, more)[..7]) == Spliced(w, prior, at + 7)
  {}

  /** The loop over k of at most n groups. */
  lemma {:induction false} GroupsDecode(s: State, w: Word, prior: Word, at: nat, n: nat, k: nat, rest: seq<Byte>)
    requires !s.exited && 1 <= k <= n && s.input == Groups(w, at, k) + rest
    ensures var g := CountGroups(s, Spliced(w, prior, at), at, n);
            g.value == Spliced(w, prior, at + 7 * k) && Reaches(g.state, s.track, rest)
    decreases k
  {
    var b, more := Group(w, at, k > 1), Groups(w, at + 7, k - 1) + rest;
    var t := s.(input := more, data := b);
    Split(Groups(w, at, k), rest);
    NextByte(s, b, more);
    NextGroup(w, prior, at, k > 1);
    if k == 1 {
      assert more == rest;
    } else {
      GroupsDecode(t, w, prior, at + 7, n - 1, k - 1, rest);
    }
  }

  // ---------- cycle counts of the ETM protocol ----------

  /** A cycle count in the fewest groups. */
  function CountBytes(w: Word): seq<Byte> {
    Groups(w, 0, GroupsNeeded(w, NoAddr(), 0, 1))
  }

  lemma NothingSpliced(w: Word, prior: Word)
    ensures Spliced(w, prior, 0) == prior
  {}

  /** A count of which k groups carry everything is printed as it is. */
  lemma CCountRoundTrip(s: State, w: Word, k: nat, rest: seq<Byte>)
    requires !s.exited && 1 <= k <= 5 && Spliced(w, NoAddr(), 7 * k) == w && s.input == Groups(w, 0, k) + rest
    ensures Reaches(CCount(s), Emit(s.track, CycleLine(w)), rest)
  {
    NothingSpliced(w, NoAddr());
    GroupsDecode(s, w, NoAddr(), 0, 5, k, rest);
  }

  // ---------- cycle counts of the program-flow protocol ----------

  /** The first byte: four bits of the count, and whether groups follow. The other bits belong to the packet that
      it heads, if any. */
  function CountHeader(w: Word, more: bool, low: bool, mid: bool, top: bool): Byte {
    [low, mid, w[0], w[1], w[2], w[3], more, top]
  }

  lemma FirstFour(w: Word, h: Byte)
    requires h[2..6] == w[..4]
    ensures Put(NoAddr(), 0, h[2..6]) == Spliced(w, NoAddr(), 4)
  {}

  /** A count of four bits and k groups is printed as it is. */
  lemma CycleCountPftRoundTrip(s: State, w: Word, k: nat, rest: seq<Byte>)
    requires !s.exited && k <= 4 && Spliced(w, NoAddr(), 4 + 7 * k) == w
    requires s.data == CountHeader(w, k > 0, s.data[0], s.data[1], s.data[7]) && s.input == Groups(w, 4, k) + rest
    ensures Reaches(CycleCountPft(s), Emit(s.track, CycleLine(w)), rest)
  {
    FirstFour(w, s.data);
    if k == 0 {
      assert s.input == rest;
    } else {
      GroupsDecode(s, w, NoAddr(), 4, 4, k, rest);
    }
  }

  /** A cycle count on its own, in the fewest groups. */
  function FollowingCount(w: Word): seq<Byte> {
    var k := GroupsNeeded(w, NoAddr(), 4, 0);
    [CountHeader(w, k > 0, false, false, false)] + Groups(w, 4, k)
  }

  lemma FollowingCountRoundTrip(s: State, w: Word, rest: seq<Byte>)
    requires !s.exited && s.input == FollowingCount(w) + rest
    ensures Reaches(CountFollows(s), Emit(s.track, CycleLine(w)), rest)
  {
    var k := GroupsNeeded(w, NoAddr(), 4, 0);
    var h := CountHeader(w, k > 0, false, false, false);
    Split(FollowingCount(w), rest);
    assert FollowingCount(w)[1..] == Groups(w, 4, k);
    NextByte(s, h, Groups(w, 4, k) + rest);
    CycleCountPftRoundTrip(s.(input := Groups(w, 4, k) + rest, data := h), w, k, rest);
  }

  /** The packets of a cycle-accurate program-flow trace that a count follows. */
  predicate Counted(cfg: Config) {
    cfg.table == Pft11 && cfg.cycleAccurate
  }

  /** The count that follows a branch or a timestamp, if one does. */
  function CountSent(cfg: Config, w: Word): seq<Byte> {
    if Counted(cfg) then FollowingCount(w) else []
  }

  function CountShown(cfg: Config, t: Track, w: Word): Track {
    if Counted(cfg) then Emit(t, CycleLine(w)) else t
  }

  /** What a branch or a timestamp ends with. */
  function WithCount(cfg: Config, s: State): State {
    if Counted(cfg) then ThenCount(cfg, s) else s
  }

  lemma CountTaken(cfg: Config, s: State, w: Word, rest: seq<Byte>)
    requires !s.exited && s.input == CountSent(cfg, w) + rest
    ensures Reaches(WithCount(cfg, s), CountShown(cfg, s.track, w), rest)
  {
    if Counted(cfg) {
      FollowingCountRoundTrip(s, w, rest);
    } else {
      assert s.input == rest;
    }
  }

  // ---------- arbitrary cycle counts ----------

  /** Up to n groups; every one but the last has its top bit set, and so may the n-th. */
  predicate GroupRun(g: seq<Byte>, n: nat) {
    g != [] && n > 0 && if g[0][7] && n > 1 then GroupRun(g[1..], n - 1) else |g| == 1
  }

  /** A header with four bits of the count, and if its bit 6 is set up to four groups of seven. */
  predicate CountShaped(b: seq<Byte>) {
    b != [] && if b[0][6] then GroupRun(b[1..], 4) else |b| == 1
  }

  lemma {:induction false} GroupsConsumed(s: State, count: Word, at: nat, n: nat, g: seq<Byte>, rest: seq<Byte>)
    requires !s.exited && GroupRun(g, n) && s.input == g + rest
    ensures Reaches(CountGroups(s, count, at, n).state, s.track, rest)
    decreases n
  {
    var t := s.(input := g[1..] + rest, data := g[0]);
    Split(g, rest);
    NextByte(s, g[0], g[1..] + rest);
    if g[0][7] && n > 1 {
      GroupsConsumed(t, Put(count, at, g[0][..7]), at + 7, n - 1, g[1..], rest);
    } else {
      assert g[1..] + rest == rest;
    }
  }

  /** Whatever its groups carry, a cycle count takes exactly its own bytes and prints one line. */
  lemma CountConsumed(s: State, b: seq<Byte>, rest: seq<Byte>) returns (w: Word)
    requires !s.exited && CountShaped(b) && s.input == b + rest
    ensures Reaches(CountFollows(s), Emit(s.track, CycleLine(w)), rest)
  {
    var t := s.(input := b[1..] + rest, data := b[0]);
    var start := Put(NoAddr(), 0, b[0][2..6]);
    Split(b, rest);
    NextByte(s, b[0], b[1..] + rest);
    if b[0][6] {
      GroupsConsumed(t, start, 4, 4, b[1..], rest);
      w := CountGroups(t, start, 4, 4).value;
    } else {
      assert b[1..] + rest == rest;
      w := start;
    }
  }
}
