/** The memalloc driver: a list of DMA buffers, kept in step with what the DMA layer has handed out. */
module Memalloc {
  import opened MachineInts

  const PAGE_SIZE: nat := 4096

  datatype Region = Region(physAddr: nat, cpuAddr: nat, size: nat)

  /** A list entry: where it is itself, and the region it stands for. */
  datatype Allocation = Allocation(addr: nat, region: Region)

  /** The calls made to the DMA layer, and to kzalloc and kfree for list entries. */
  datatype Call =
    | DmaAlloc(region: Region)
    | DmaFree(region: Region)
    | EntryAlloc(addr: nat)
    | EntryFree(addr: nat)

  /** What the allocators answer: no list entry, or an entry and a region, with a null address if there
      is no memory. */
  datatype Reply = NoEntry | Entry(addr: nat, physAddr: nat, cpuAddr: nat)

  datatype Op =
    | Open
    | Release
    | HardReset
    | GetBuffer(size: nat, reply: Reply)
    | FreeBuffer(physAddr: nat)
    | Mmap(offset: nat, size: nat, remapped: bool)

  /** 0, -ENOMEM, -EINVAL and -EAGAIN. */
  datatype Status = Success | OutOfMemory | Invalid | TryAgain

  /** The driver's globals, and the calls so far. */
  datatype State = State(heapList: seq<Allocation>, openCount: nat, calls: seq<Call>)

  const INITIAL := State([], 0, [])

  /** PAGE_ALIGN, in 32 bits. */
  function PageAlign(size: nat): (r: nat)
    ensures r % PAGE_SIZE == 0
  {
    (size + (PAGE_SIZE - 1)) % TWO_TO_THE_32 / PAGE_SIZE * PAGE_SIZE
  }

  /** A buffer holds what was asked for exactly if rounding up does not wrap around to zero. */
  lemma BufferCoversRequest(size: nat)
    requires size < TWO_TO_THE_32
    ensures PageAlign(size) >= size <==> size <= TWO_TO_THE_32 - PAGE_SIZE
  {
    if size <= TWO_TO_THE_32 - PAGE_SIZE {
      assert (size + 4095) % 0x1_0000_0000 == size + 4095;
    } else {
      assert (size + 4095) % 0x1_0000_0000 == size + 4095 - 0x1_0000_0000;
    }
  }

  // ---------- what the calls amount to ----------

  /** s without the first occurrence of a. */
  function Without(s: seq<Region>, a: Region): (r: seq<Region>)
    ensures multiset(r) == multiset(s) - multiset{a}
  {
    if s == [] then []
    else if s[0] == a then
      assert s == [a] + s[1..];
      s[1..]
    else
      assert s == [s[0]] + s[1..];
      [s[0]] + Without(s[1..], a)
  }

  function RegionsAfter(before: seq<Region>, c: Call): seq<Region> {
    match c
    case DmaAlloc(region) => before + [region]
    case DmaFree(region) => Without(before, region)
    case _ => before
  }

  /** The regions handed out and not yet returned, oldest first. */
  function Outstanding(calls: seq<Call>): seq<Region> {
    if calls == [] then [] else RegionsAfter(Outstanding(calls[..|calls| - 1]), calls[|calls| - 1])
  }

  function LiveAfter(before: multiset<nat>, c: Call): multiset<nat> {
    match c
    case EntryAlloc(addr) => before + multiset{addr}
    case EntryFree(addr) => before - multiset{addr}
    case _ => before
  }

  /** The list entries that exist. */
  function Live(calls: seq<Call>): multiset<nat> {
    if calls == [] then multiset{} else LiveAfter(Live(calls[..|calls| - 1]), calls[|calls| - 1])
  }

  /** Different bus addresses and no byte in common. */
  predicate Apart(a: Region, b: Region) {
    a.physAddr != b.physAddr && (a.physAddr + a.size <= b.physAddr || b.physAddr + b.size <= a.physAddr)
  }

  predicate ApartFromAll(a: Region, s: seq<Region>) {
    forall b | b in s :: Apart(a, b)
  }

  predicate PairwiseApart(s: seq<Region>) {
    forall i, j | 0 <= i < j < |s| :: Apart(s[i], s[j])
  }

  /** The allocators only hand out what is free. Only what has been handed out and not got back is returned
      to them: a region with its own addresses and size, an entry that exists. */
  predicate Allowed(calls: seq<Call>, c: Call) {
    match c
    case DmaAlloc(region) => ApartFromAll(region, Outstanding(calls))
    case DmaFree(region) => region in Outstanding(calls)
    case EntryAlloc(addr) => addr !in Live(calls)
    case EntryFree(addr) => addr in Live(calls)
  }

  predicate Proper(calls: seq<Call>) {
    calls == [] || (Proper(calls[..|calls| - 1]) && Allowed(calls[..|calls| - 1], calls[|calls| - 1]))
  }

  // ---------- the driver as a state machine ----------

  /** FindEntryByBus: the first entry with the bus address. */
  function Find(s: seq<Allocation>, physAddr: nat): (i: nat)
    ensures i <= |s| && (i < |s| ==> s[i].region.physAddr == physAddr)
    ensures forall j | 0 <= j < i :: s[j].region.physAddr != physAddr
  {
    if s == [] || s[0].region.physAddr == physAddr then 0 else 1 + Find(s[1..], physAddr)
  }

  /** The buffer that the bus address names on the list has the given size. */
  predicate Allocated(s: seq<Allocation>, physAddr: nat, size: nat) {
    var i := Find(s, physAddr);
    i < |s| && s[i].region.size == size
  }

  function Regions(s: seq<Allocation>): (r: seq<Region>)
    ensures |r| == |s| && forall i | 0 <= i < |s| :: r[i] == s[i].region
  {
    seq(|s|, i requires 0 <= i < |s| => s[i].region)
  }

  /** In a list of regions that lie apart, that is: there is such a buffer. */
  lemma AllocatedMeans(s: seq<Allocation>, physAddr: nat, size: nat)
    requires PairwiseApart(Regions(s))
    ensures Allocated(s, physAddr, size)
            <==> exists a :: a in s && a.region.physAddr == physAddr && a.region.size == size
  {
    var i := Find(s, physAddr);
    forall a | a in s && a.region.physAddr == physAddr && a.region.size == size ensures Allocated(s, physAddr, size) {
      var j :| 0 <= j < |s| && s[j] == a;
      FindsEntry(s, j);
    }
    if Allocated(s, physAddr, size) { assert s[i] in s; }
  }

  /** Giving back an entry: its region first, then itself. */
  function FreeCalls(s: seq<Allocation>): seq<Call> {
    if s == [] then [] else [DmaFree(s[0].region)] + ([EntryFree(s[0].addr)] + FreeCalls(s[1..]))
  }

  function FreeAll(s: State): State {
    s.(heapList := [], calls := s.calls + FreeCalls(s.heapList))
  }

  function Freed(s: State, i: nat): State
    requires i < |s.heapList|
  {
    var a := s.heapList[i];
    s.(heapList := s.heapList[..i] + s.heapList[i + 1..], calls := s.calls + [DmaFree(a.region)] + [EntryFree(a.addr)])
  }

  function Added(s: State, a: Allocation): State {
    s.(heapList := s.heapList + [a], calls := s.calls + [EntryAlloc(a.addr)] + [DmaAlloc(a.region)])
  }

  function Step(s: State, op: Op): State {
    match op
    case Open => s.(openCount := s.openCount + 1)
    case Release =>
      if s.openCount == 1 then FreeAll(s.(openCount := 0))
      else s.(openCount := if s.openCount > 0 then s.openCount - 1 else 0)
    case HardReset => FreeAll(s)
    case GetBuffer(size, NoEntry) => s
    case GetBuffer(size, Entry(addr, physAddr, cpuAddr)) =>
      if cpuAddr == 0 then s.(calls := s.calls + [EntryAlloc(addr)])
      else Added(s, Allocation(addr, Region(physAddr, cpuAddr, PageAlign(size))))
    case FreeBuffer(physAddr) =>
      var i := Find(s.heapList, physAddr);
      if i == |s.heapList| then s else Freed(s, i)
    case Mmap(_, _, _) => s
  }

  /** What the kernel guarantees: only an open device is used or released, and the allocators hand out only
      what is not in use. */
  predicate Enabled(s: State, op: Op) {
    && (op.Open? || s.openCount > 0)
    && (op.GetBuffer? && op.reply.Entry? ==>
          Allowed(s.calls, EntryAlloc(op.reply.addr))
          && (op.reply.cpuAddr != 0 ==>
                Allowed(s.calls, DmaAlloc(Region(op.reply.physAddr, op.reply.cpuAddr, PageAlign(op.size))))))
  }

  function After(ops: seq<Op>): State {
    if ops == [] then INITIAL else Step(After(ops[..|ops| - 1]), ops[|ops| - 1])
  }

  predicate Legal(ops: seq<Op>) {
    ops == []
    || (Legal(ops[..|ops| - 1]) && Enabled(After(ops[..|ops| - 1]), ops[|ops| - 1]))
  }

  // ---------- what holds in every run ----------

  function AddrList(s: seq<Allocation>): (r: seq<nat>)
    ensures |r| == |s| && forall i | 0 <= i < |s| :: r[i] == s[i].addr
  {
    seq(|s|, i requires 0 <= i < |s| => s[i].addr)
  }

  /** Where the list's entries are. */
  function Addrs(s: seq<Allocation>): multiset<nat> {
    multiset(AddrList(s))
  }

  /** An operation that gets a list entry but no memory: the entry is never seen again. */
  predicate Fails(op: Op) {
    op.GetBuffer? && op.reply.Entry? && op.reply.cpuAddr == 0
  }

  function LostBy(op: Op): multiset<nat> {
    if Fails(op) then multiset{op.reply.addr} else multiset{}
  }

  function Lost(ops: seq<Op>): multiset<nat> {
    if ops == [] then multiset{} else Lost(ops[..|ops| - 1]) + LostBy(ops[|ops| - 1])
  }

  /** The list agrees with the calls: its regions are those outstanding, and the entries that exist are its
      own and the lost ones. */
  predicate Agrees(heapList: seq<Allocation>, calls: seq<Call>, lost: multiset<nat>) {
    && Proper(calls)
    && Regions(heapList) == Outstanding(calls)
    && Live(calls) == Addrs(heapList) + lost
  }

  predicate Inv(s: State, lost: multiset<nat>) {
    && Agrees(s.heapList, s.calls, lost)
    && PairwiseApart(Regions(s.heapList))
    && (s.openCount == 0 ==> s.heapList == [])
  }

  lemma {:induction false} WithoutAt(s: seq<Region>, i: nat)
    requires PairwiseApart(s) && i < |s|
    ensures Without(s, s[i]) == s[..i] + s[i + 1..]
  {
    if i == 0 {
    } else {
      assert s[0] != s[i] by { assert Apart(s[0], s[i]); }
      TailApart(s);
      WithoutAt(s[1..], i - 1);
      CutLater(s, i);
    }
  }

  lemma TailApart(s: seq<Region>)
    requires PairwiseApart(s) && s != []
    ensures PairwiseApart(s[1..])
  {
    forall i, j | 0 <= i < j < |s| - 1 ensures Apart(s[1..][i], s[1..][j]) {
      assert Apart(s[i + 1], s[j + 1]);
    }
  }

  lemma CutLater(s: seq<Region>, i: nat)
    requires 0 < i < |s|
    ensures s[..i] + s[i + 1..] == [s[0]] + (s[1..][..i - 1] + s[1..][i..])
  {}

  lemma OneMore(calls: seq<Call>, c: Call)
    ensures Outstanding(calls + [c]) == RegionsAfter(Outstanding(calls), c)
    ensures Live(calls + [c]) == LiveAfter(Live(calls), c)
    ensures Proper(calls + [c]) == (Proper(calls) && Allowed(calls, c))
  {
    assert (calls + [c])[..|calls|] == calls;
  }

  lemma AddrsAppend(s: seq<Allocation>, a: Allocation)
    ensures Addrs(s + [a]) == Addrs(s) + multiset{a.addr}
  {
    assert AddrList(s + [a]) == AddrList(s) + [a.addr];
  }

  lemma AddrsWithout(s: seq<Allocation>, i: nat)
    requires i < |s|
    ensures s[i].addr in Addrs(s) && Addrs(s[..i] + s[i + 1..]) == Addrs(s) - multiset{s[i].addr}
  {
    var l := AddrList(s);
    assert AddrList(s[..i] + s[i + 1..]) == l[..i] + l[i + 1..];
    assert l == l[..i] + [l[i]] + l[i + 1..];
  }

  /** Returning a region and then its entry takes the entry off an agreeing list. */
  lemma FreeingOne(s: seq<Allocation>, i: nat, rest: seq<Allocation>, calls: seq<Call>, lost: multiset<nat>)
    requires Agrees(s, calls, lost) && i < |s| && rest == s[..i] + s[i + 1..]
    requires Without(Regions(s), s[i].region) == Regions(rest)
    ensures Agrees(rest, calls + [DmaFree(s[i].region)] + [EntryFree(s[i].addr)], lost)
  {
    OneMore(calls, DmaFree(s[i].region));
    OneMore(calls + [DmaFree(s[i].region)], EntryFree(s[i].addr));
    AddrsWithout(s, i);
    assert Regions(s)[i] in Regions(s);
  }

  lemma WithoutFirst(s: seq<Allocation>)
    requires s != []
    ensures Without(Regions(s), s[0].region) == Regions(s[1..])
  {
    assert Regions(s)[1..] == Regions(s[1..]);
  }

  lemma FreeingFirst(s: seq<Allocation>, calls: seq<Call>, lost: multiset<nat>)
    requires Agrees(s, calls, lost) && s != []
    ensures Agrees(s[1..], calls + [DmaFree(s[0].region)] + [EntryFree(s[0].addr)], lost)
  {
    WithoutFirst(s);
    FreeingOne(s, 0, s[1..], calls, lost);
  }

  lemma Regroup(calls: seq<Call>, c: Call, d: Call, more: seq<Call>)
    ensures calls + [c] + [d] + more == calls + ([c] + ([d] + more))
  {}

  /** Freeing the whole list, front to back, leaves nothing outstanding and no entries but the lost ones. */
  lemma {:induction false} FreeingAll(s: seq<Allocation>, calls: seq<Call>, lost: multiset<nat>)
    requires Agrees(s, calls, lost)
    ensures Agrees([], calls + FreeCalls(s), lost)
    decreases |s|
  {
    if s == [] {
      assert calls + FreeCalls(s) == calls;
    } else {
      var next := calls + [DmaFree(s[0].region)] + [EntryFree(s[0].addr)];
      FreeingFirst(s, calls, lost);
      FreeingAll(s[1..], next, lost);
      Regroup(calls, DmaFree(s[0].region), EntryFree(s[0].addr), FreeCalls(s[1..]));
    }
  }

  lemma FreeAllEstablishesInv(s: State, lost: multiset<nat>)
    requires Agrees(s.heapList, s.calls, lost)
    ensures Inv(FreeAll(s), lost)
  {
    FreeingAll(s.heapList, s.calls, lost);
  }

  lemma ReleaseKeepsInv(s: State, lost: multiset<nat>)
    requires Inv(s, lost) && s.openCount > 0
    ensures Inv(Step(s, Release), lost)
  {
    if s.openCount == 1 { FreeAllEstablishesInv(s.(openCount := 0), lost); }
  }

  lemma GetBufferKeepsInv(s: State, size: nat, reply: Reply, lost: multiset<nat>)
    requires Inv(s, lost) && Enabled(s, GetBuffer(size, reply))
    ensures Inv(Step(s, GetBuffer(size, reply)), lost + LostBy(GetBuffer(size, reply)))
  {
    if reply.Entry? {
      if reply.cpuAddr == 0 {
        FailureKeepsInv(s, reply.addr, lost);
      } else {
        AddedKeepsInv(s, Allocation(reply.addr, Region(reply.physAddr, reply.cpuAddr, PageAlign(size))), lost);
      }
    }
  }

  lemma FailureKeepsInv(s: State, addr: nat, lost: multiset<nat>)
    requires Inv(s, lost) && Allowed(s.calls, EntryAlloc(addr))
    ensures Inv(s.(calls := s.calls + [EntryAlloc(addr)]), lost + multiset{addr})
  {
    OneMore(s.calls, EntryAlloc(addr));
  }

  lemma AddedKeepsInv(s: State, a: Allocation, lost: multiset<nat>)
    requires Inv(s, lost) && s.openCount > 0
    requires Allowed(s.calls, EntryAlloc(a.addr)) && Allowed(s.calls, DmaAlloc(a.region))
    ensures Inv(Added(s, a), lost)
  {
    OneMore(s.calls, EntryAlloc(a.addr));
    OneMore(s.calls + [EntryAlloc(a.addr)], DmaAlloc(a.region));
    AddrsAppend(s.heapList, a);
    assert Regions(s.heapList + [a]) == Regions(s.heapList) + [a.region];
    AppendApart(Regions(s.heapList), a.region);
  }

  lemma FreeBufferKeepsInv(s: State, physAddr: nat, lost: multiset<nat>)
    requires Inv(s, lost) && s.openCount > 0
    ensures Inv(Step(s, FreeBuffer(physAddr)), lost)
  {
    var i := Find(s.heapList, physAddr);
    if i < |s.heapList| { FreedKeepsInv(s, i, lost); }
  }

  lemma FreedKeepsInv(s: State, i: nat, lost: multiset<nat>)
    requires Inv(s, lost) && s.openCount > 0 && i < |s.heapList|
    ensures Inv(Freed(s, i), lost)
  {
    var h := s.heapList;
    assert Regions(h[..i] + h[i + 1..]) == Regions(h)[..i] + Regions(h)[i + 1..];
    WithoutAt(Regions(h), i);
    FreeingOne(h, i, h[..i] + h[i + 1..], s.calls, lost);
    StillApart(Regions(h), i);
  }

  lemma StillApart(s: seq<Region>, i: nat)
    requires PairwiseApart(s) && i < |s|
    ensures PairwiseApart(s[..i] + s[i + 1..])
  {
    var r := s[..i] + s[i + 1..];
    forall j, k | 0 <= j < k < |r| ensures Apart(r[j], r[k]) {
      assert r[j] == s[if j < i then j else j + 1] && r[k] == s[if k < i then k else k + 1];
    }
  }

  lemma AppendApart(s: seq<Region>, a: Region)
    requires PairwiseApart(s) && ApartFromAll(a, s)
    ensures PairwiseApart(s + [a])
  {
    forall i | 0 <= i < |s| ensures Apart(s[i], a) {
      assert Apart(a, s[i]);
    }
  }

  lemma StepKeepsInv(s: State, op: Op, lost: multiset<nat>)
    requires Inv(s, lost) && Enabled(s, op)
    ensures Inv(Step(s, op), lost + LostBy(op))
  {
    match op
    case Open =>
    case Release => ReleaseKeepsInv(s, lost);
    case HardReset => FreeAllEstablishesInv(s, lost);
    case GetBuffer(size, reply) => GetBufferKeepsInv(s, size, reply, lost);
    case FreeBuffer(physAddr) => FreeBufferKeepsInv(s, physAddr, lost);
    case Mmap(_, _, _) =>
  }

  /** In every legal run the list is exactly what the DMA layer has handed out and not got back: its
      regions do not overlap, each was returned at most once and as it was handed out, and a device that
      nobody has open holds nothing. No list entry is freed twice, and the entries that exist are those on
      the list and those of failed allocations. */
  lemma {:induction false} EveryRunSafe(ops: seq<Op>)
    requires Legal(ops)
    ensures Inv(After(ops), Lost(ops))
  {
    if ops == [] {
    } else {
      EveryRunSafe(ops[..|ops| - 1]);
      StepKeepsInv(After(ops[..|ops| - 1]), ops[|ops| - 1], Lost(ops[..|ops| - 1]));
    }
  }

  /** The regions handed out so far, or those returned. */
  function RegionCalls(calls: seq<Call>, returned: bool): multiset<Region> {
    if calls == [] then multiset{}
    else
      var last := calls[|calls| - 1];
      RegionCalls(calls[..|calls| - 1], returned)
      + if (if returned then last.DmaFree? else last.DmaAlloc?) then multiset{last.region} else multiset{}
  }

  /** Conservation: what was handed out is what was returned and what is still outstanding. */
  lemma {:induction false} RegionsConserved(calls: seq<Call>)
    requires Proper(calls)
    ensures RegionCalls(calls, false) == RegionCalls(calls, true) + multiset(Outstanding(calls))
  {
    if calls == [] {
    } else {
      RegionsConserved(calls[..|calls| - 1]);
    }
  }

  /** When the last user has closed the device, every region handed out has been returned. */
  lemma AllReturned(ops: seq<Op>)
    requires Legal(ops) && After(ops).openCount == 0
    ensures RegionCalls(After(ops).calls, false) == RegionCalls(After(ops).calls, true)
  {
    EveryRunSafe(ops);
    RegionsConserved(After(ops).calls);
  }

  /** How often kzalloc has delivered an entry, or kfree has taken one. */
  function EntryCalls(calls: seq<Call>, freed: bool): nat {
    if calls == [] then 0
    else
      var last := calls[|calls| - 1];
      EntryCalls(calls[..|calls| - 1], freed) + if (if freed then last.EntryFree? else last.EntryAlloc?) then 1 else 0
  }

  /** The allocations that got a list entry but no memory. */
  function Failures(ops: seq<Op>): (n: nat)
    ensures n == |Lost(ops)|
  {
    if ops == [] then 0 else Failures(ops[..|ops| - 1]) + if Fails(ops[|ops| - 1]) then 1 else 0
  }

  lemma {:induction false} EntriesBalance(calls: seq<Call>)
    requires Proper(calls)
    ensures EntryCalls(calls, false) == EntryCalls(calls, true) + |Live(calls)|
  {
    if calls == [] {
    } else {
      EntriesBalance(calls[..|calls| - 1]);
    }
  }

  /** List entries are conserved up to failures: those allocated are those freed, those on the list, and
      one for every allocation that got no memory. */
  lemma EntriesConserved(ops: seq<Op>)
    requires Legal(ops)
    ensures var s := After(ops);
            EntryCalls(s.calls, false) == EntryCalls(s.calls, true) + |s.heapList| + Failures(ops)
  {
    EveryRunSafe(ops);
    EntriesBalance(After(ops).calls);
  }

  /** After the last close every list entry has been freed if and only if no DMA allocation failed. */
  lemma AllEntriesFreed(ops: seq<Op>)
    requires Legal(ops) && After(ops).openCount == 0
    ensures EntryCalls(After(ops).calls, false) == EntryCalls(After(ops).calls, true)
            <==> forall i | 0 <= i < |ops| :: !Fails(ops[i])
    ensures Live(After(ops).calls) == Lost(ops)
  {
    EveryRunSafe(ops);
    EntriesConserved(ops);
    NoFailures(ops);
  }

  lemma {:induction false} NoFailures(ops: seq<Op>)
    ensures Failures(ops) == 0 <==> forall i | 0 <= i < |ops| :: !Fails(ops[i])
  {
    if ops == [] {
    } else {
      NoFailures(ops[..|ops| - 1]);
    }
  }

  lemma {:induction false} FindsEntry(s: seq<Allocation>, i: nat)
    requires PairwiseApart(Regions(s)) && i < |s|
    ensures Find(s, s[i].region.physAddr) == i
  {
    if i == 0 {
    } else {
      assert Apart(Regions(s)[0], Regions(s)[i]);
      TailApart(Regions(s));
      assert Regions(s[1..]) == Regions(s)[1..];
      FindsEntry(s[1..], i - 1);
    }
  }

  /** A bus address names one region: looking it up finds that region and no other. */
  lemma BusAddressUnique(ops: seq<Op>, i: nat)
    requires Legal(ops) && i < |After(ops).heapList|
    ensures Find(After(ops).heapList, After(ops).heapList[i].region.physAddr) == i
  {
    EveryRunSafe(ops);
    FindsEntry(After(ops).heapList, i);
  }

  // ---------- the driver ----------

  class Driver {
    var heapList: seq<Allocation>
    var openCount: nat
    var calls: seq<Call>

    function View(): State
      reads this
    {
      State(heapList, openCount, calls)
    }

    constructor ()
      ensures View() == INITIAL
    {
      heapList, openCount, calls := [], 0, [];
    }

    /** memalloc_free_buffers. */
    method FreeBuffers()
      modifies this`heapList, this`calls
      ensures View() == FreeAll(old(View()))
    {
      ghost var all := calls + FreeCalls(heapList);
      while heapList != []
        invariant calls + FreeCalls(heapList) == all
        decreases |heapList|
      {
        var entry := heapList[0];
        Regroup(calls, DmaFree(entry.region), EntryFree(entry.addr), FreeCalls(heapList[1..]));
        calls := calls + [DmaFree(entry.region)];
        heapList := heapList[1..];
        calls := calls + [EntryFree(entry.addr)];
      }
      assert calls + FreeCalls([]) == calls;
    }

    /** FindEntryByBus: the index of the entry, or the list's length. */
    method FindEntryByBus(physAddr: nat) returns (i: nat)
      ensures i == Find(heapList, physAddr)
    {
      i := 0;
      while i < |heapList| && heapList[i].region.physAddr != physAddr
        invariant i <= |heapList|
        invariant Find(heapList, physAddr) == i + Find(heapList[i..], physAddr)
      {
        i := i + 1;
      }
    }

    /** AllocMemory, given the allocators' answers. */
    method AllocMemory(size: nat, reply: Reply) returns (status: Status, physAddr: nat)
      modifies this
      ensures View() == Step(old(View()), GetBuffer(size, reply))
      ensures status == Success <==> reply.Entry? && reply.cpuAddr != 0
      ensures status == Success ==> physAddr == reply.physAddr
      ensures status != Success ==> status == OutOfMemory && physAddr == 0
    {
      if reply.NoEntry? {
        return OutOfMemory, 0;
      }
      calls := calls + [EntryAlloc(reply.addr)];
      if reply.cpuAddr == 0 {
        return OutOfMemory, 0;
      }
      var entry := Allocation(reply.addr, Region(reply.physAddr, reply.cpuAddr, PageAlign(size)));
      calls := calls + [DmaAlloc(entry.region)];
      heapList := heapList + [entry];
      return Success, reply.physAddr;
    }

    /** FreeMemory. */
    method FreeMemory(physAddr: nat) returns (status: Status)
      modifies this
      ensures View() == Step(old(View()), FreeBuffer(physAddr))
      ensures status == if exists i :: 0 <= i < |old(heapList)| && old(heapList)[i].region.physAddr == physAddr then Success
                        else Invalid
    {
      var i := FindEntryByBus(physAddr);
      if i == |heapList| {
        return Invalid;
      }
      var entry := heapList[i];
      heapList := heapList[..i] + heapList[i + 1..];
      calls := calls + [DmaFree(entry.region)];
      calls := calls + [EntryFree(entry.addr)];
      return Success;
    }

    /** MapBuffer: only a whole buffer that is on the list can be mapped. */
    method MapBuffer(offset: nat, size: nat, remapped: bool) returns (status: Status)
      ensures status in {Success, TryAgain} <==> Allocated(heapList, offset, size)
      ensures status in {Success, TryAgain, Invalid}
      ensures (status == Success ==> remapped) && (status == TryAgain ==> !remapped)
    {
      var i := FindEntryByBus(offset);
      if i == |heapList| || size != heapList[i].region.size {
        return Invalid;
      }
      if !remapped {
        return TryAgain;
      }
      return Success;
    }

    method OpenDevice()
      modifies this`openCount
      ensures View() == Step(old(View()), Open)
    {
      openCount := openCount + 1;
    }

    method ReleaseDevice()
      requires openCount > 0
      modifies this
      ensures View() == Step(old(View()), Release)
    {
      openCount := openCount - 1;
      if openCount == 0 { FreeBuffers(); }
    }

    /** One entry from user space. */
    method Perform(op: Op) returns (status: Status)
      requires Enabled(View(), op)
      modifies this
      ensures View() == Step(old(View()), op)
    {
      status := Success;
      match op
      case Open => OpenDevice();
      case Release => ReleaseDevice();
      case HardReset => FreeBuffers();
      case GetBuffer(size, reply) =>
        var physAddr;
        status, physAddr := AllocMemory(size, reply);
      case FreeBuffer(physAddr) => status := FreeMemory(physAddr);
      case Mmap(offset, size, remapped) =>
        status := MapBuffer(offset, size, remapped);
    }
  }

  /** Any legal run of the driver. */
  method Run(ops: seq<Op>) returns (driver: Driver)
    requires Legal(ops)
    ensures fresh(driver) && driver.View() == After(ops) && Inv(driver.View(), Lost(ops))
  {
    driver := new Driver();
    var n := 0;
    assert ops[..|ops|] == ops;
    while n < |ops|
      invariant 0 <= n <= |ops| && fresh(driver) && driver.View() == After(ops[..n])
    {
      NextOp(ops, n);
      var status := driver.Perform(ops[n]);
      n := n + 1;
    }
    EveryRunSafe(ops);
  }

  /** Operation n of a legal run is enabled where it happens. */
  lemma NextOp(ops: seq<Op>, n: nat)
    requires Legal(ops) && n < |ops|
    ensures Enabled(After(ops[..n]), ops[n]) && After(ops[..n + 1]) == Step(After(ops[..n]), ops[n])
  {
    LegalPrefix(ops, n + 1);
    assert ops[..n + 1][..n] == ops[..n];
  }

  lemma {:induction false} LegalPrefix(ops: seq<Op>, n: nat)
    requires Legal(ops) && n <= |ops|
    ensures Legal(ops[..n])
    decreases |ops|
  {
    if n == |ops| {
      assert ops[..n] == ops;
    } else {
      LegalPrefix(ops[..|ops| - 1], n);
      assert ops[..|ops| - 1][..n] == ops[..n];
    }
  }
}
