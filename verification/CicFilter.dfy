/** mxc_pdm_cic: four wrapping integrators at bit rate, four combs once every 64 bits. */
module CicFilter {
  import opened CicMath
  import opened MachineInts

  /** The arithmetic state between calls: `cic_int` and `cic_comb`. */
  datatype State = State(ints: seq<int32>, combs: seq<int32>) {
    predicate Valid() {
      |ints| == 4 && |combs| == 4
    }
  }

  const ZERO_STATE := State([0, 0, 0, 0], [0, 0, 0, 0])

  // ---------- what one call computes, in wrapping arithmetic ----------

  /** The sample that the low bit of the data word stands for. */
  function Sample(data: nat): int {
    if data % 2 == 1 then 1 else -1
  }

  /** The first k samples of a data word, least significant bit first. */
  function WordSamples(data: nat, k: nat): (s: seq<int>)
    ensures |s| == k
    ensures UnitSamples(s)
  {
    if k == 0 then [] else [Sample(data)] + WordSamples(data / 2, k - 1)
  }

  function IntegrateOne(ints: seq<int32>, x: int): (r: seq<int32>)
    requires |ints| == 4
    ensures |r| == 4
  {
    var i0 := Plus(ints[0], x);
    var i1 := Plus(ints[1], i0);
    var i2 := Plus(ints[2], i1);
    var i3 := Plus(ints[3], i2);
    [i0, i1, i2, i3]
  }

  function Integrate(ints: seq<int32>, xs: seq<int>): (r: seq<int32>)
    requires |ints| == 4
    ensures |r| == 4
    decreases |xs|
  {
    if xs == [] then ints else Integrate(IntegrateOne(ints, xs[0]), xs[1..])
  }

  /** Input of comb j, and for j = 4 the output of the last one. */
  function CombInput(combs: seq<int32>, v: int32, j: nat): int32
    requires |combs| == 4 && j <= 4
  {
    if j == 0 then v else Minus(CombInput(combs, v, j - 1), combs[j - 1])
  }

  function Comb(combs: seq<int32>, v: int32): (r: seq<int32>)
    requires |combs| == 4
    ensures |r| == 4
  {
    seq(4, j requires 0 <= j < 4 => CombInput(combs, v, j))
  }

  function Call(s: State, data: nat): (r: State)
    requires s.Valid()
    ensures r.Valid()
  {
    var ints := Integrate(s.ints, WordSamples(data, STRIDE));
    State(ints, Comb(s.combs, ints[3]))
  }

  function CallOutput(s: State, data: nat): int32
    requires s.Valid()
  {
    CombInput(s.combs, Integrate(s.ints, WordSamples(data, STRIDE))[3], 4)
  }

  /** The decimated half of the filter: four combs in a row. */
  method RunCombs(cicComb: array<int32>, v: int32) returns (r: int32)
    requires cicComb.Length == 4
    modifies cicComb
    ensures cicComb[..] == Comb(old(cicComb[..]), v)
    ensures r == CombInput(old(cicComb[..]), v, 4)
  {
    CombUnrolled(cicComb[..], v);

    var tmp1 := cicComb[0];
    cicComb[0] := v;
    var tmp0 := Minus(v, tmp1);

    tmp1 := cicComb[1];
    cicComb[1] := tmp0;
    tmp0 := Minus(tmp0, tmp1);

    tmp1 := cicComb[2];
    cicComb[2] := tmp0;
    tmp0 := Minus(tmp0, tmp1);

    tmp1 := cicComb[3];
    cicComb[3] := tmp0;
    tmp0 := Minus(tmp0, tmp1);
    return tmp0;
  }

  /** The filter as written: in place on the two register arrays. */
  method MxcPdmCic(cicInt: array<int32>, cicComb: array<int32>, data: nat) returns (r: int32)
    requires cicInt.Length == 4 && cicComb.Length == 4 && cicInt != cicComb
    requires data < 0x1_0000_0000_0000_0000
    modifies cicInt, cicComb
    ensures State(cicInt[..], cicComb[..]) == Call(old(State(cicInt[..], cicComb[..])), data)
    ensures r == CallOutput(old(State(cicInt[..], cicComb[..])), data)
  {
    var shifted := data;
    ghost var start := cicInt[..];
    for i := 0 to 64
      invariant cicComb[..] == old(cicComb[..])
      invariant Integrate(cicInt[..], WordSamples(shifted, 64 - i)) == Integrate(start, WordSamples(data, 64))
    {
      ghost var before := cicInt[..];
      cicInt[0] := if shifted % 2 == 1 then Plus(cicInt[0], 1) else Minus(cicInt[0], 1);
      cicInt[1] := Plus(cicInt[1], cicInt[0]);
      cicInt[2] := Plus(cicInt[2], cicInt[1]);
      cicInt[3] := Plus(cicInt[3], cicInt[2]);
      assert cicInt[0] == Plus(before[0], Sample(shifted)) by { MinusOne(before[0]); }
      assert cicInt[..] == IntegrateOne(before, Sample(shifted));
      assert WordSamples(shifted, 64 - i)[1..] == WordSamples(shifted / 2, 64 - i - 1);
      shifted := shifted / 2;
    }
    r := RunCombs(cicComb, cicInt[3]);
  }

  lemma CombUnrolled(c: seq<int32>, v: int32)
    requires |c| == 4
    ensures CombInput(c, v, 1) == Minus(v, c[0])
    ensures CombInput(c, v, 2) == Minus(CombInput(c, v, 1), c[1])
    ensures CombInput(c, v, 3) == Minus(CombInput(c, v, 2), c[2])
    ensures CombInput(c, v, 4) == Minus(CombInput(c, v, 3), c[3])
  {
    assert CombInput(c, v, 1) == Minus(CombInput(c, v, 0), c[0]);
  }

  // ---------- runs ----------

  /** The bit stream of a run, as samples. */
  function Stream(words: seq<nat>): (x: seq<int>)
    ensures |x| == STRIDE * |words|
    ensures UnitSamples(x)
  {
    if words == [] then [] else Stream(words[..|words| - 1]) + WordSamples(words[|words| - 1], STRIDE)
  }

  /** State after the first m calls. */
  function After(s: State, words: seq<nat>, m: nat): (r: State)
    requires s.Valid() && m <= |words|
    ensures r.Valid()
  {
    if m == 0 then s else Call(After(s, words, m - 1), words[m - 1])
  }

  /** What call number m (from zero) returns. */
  function Output(s: State, words: seq<nat>, m: nat): int32
    requires s.Valid() && m < |words|
  {
    CallOutput(After(s, words, m), words[m])
  }

  lemma {:induction false} StreamAt(words: seq<nat>, m: nat, i: nat)
    requires m < |words| && i < STRIDE
    ensures STRIDE * m + i < |Stream(words)|
    ensures Stream(words)[STRIDE * m + i] == WordSamples(words[m], STRIDE)[i]
  {
    var last := |words| - 1;
    var front, back := Stream(words[..last]), WordSamples(words[last], STRIDE);
    assert Stream(words) == front + back && |front| == STRIDE * last;
    if m < last {
      StreamAt(words[..last], m, i);
      assert Stream(words)[STRIDE * m + i] == front[STRIDE * m + i];
    } else {
      assert Stream(words)[STRIDE * m + i] == back[i];
    }
  }

  lemma StreamSlice(words: seq<nat>, m: nat)
    requires m < |words|
    ensures Stream(words)[STRIDE * m..STRIDE * (m + 1)] == WordSamples(words[m], STRIDE)
  {
    var slice, word := Stream(words)[STRIDE * m..STRIDE * (m + 1)], WordSamples(words[m], STRIDE);
    forall i: nat | i < STRIDE ensures slice[i] == word[i] {
      StreamAt(words, m, i);
    }
  }

  // ---------- the wrapping registers shadow the exact sums ----------

  /** Register k holds the exact (k+1)-fold sum, wrapped. */
  predicate Shadows(ints: seq<int32>, a: seq<int>, x: seq<int>, n: nat)
    requires |ints| == |a| == 4
  {
    forall k | 0 <= k < 4 :: ints[k] == Wrap(Sum(k + 1, a, x, n))
  }

  lemma IntegrateWrapped(s0: int, s1: int, s2: int, s3: int, x: int)
    ensures IntegrateOne([Wrap(s0), Wrap(s1), Wrap(s2), Wrap(s3)], x)
            == [Wrap(s0 + x), Wrap(s1 + (s0 + x)), Wrap(s2 + (s1 + (s0 + x))), Wrap(s3 + (s2 + (s1 + (s0 + x))))]
  {
    WrapOfSum(s0, x);
    WrapOfSum(s1, s0 + x);
    WrapOfSum(s2, s1 + (s0 + x));
    WrapOfSum(s3, s2 + (s1 + (s0 + x)));
  }

  lemma ShadowStep(ints: seq<int32>, a: seq<int>, x: seq<int>, n: nat)
    requires |ints| == |a| == 4 && n < |x|
    requires Shadows(ints, a, x, n)
    ensures Shadows(IntegrateOne(ints, x[n]), a, x, n + 1)
  {
    var s0, s1, s2, s3 := Sum(1, a, x, n), Sum(2, a, x, n), Sum(3, a, x, n), Sum(4, a, x, n);
    assert ints == [Wrap(s0), Wrap(s1), Wrap(s2), Wrap(s3)];
    IntegrateWrapped(s0, s1, s2, s3, x[n]);
    SumsUnrolled(a, x, n);
  }

  lemma SumsUnrolled(a: seq<int>, x: seq<int>, n: nat)
    requires |a| == 4 && n < |x|
    ensures Sum(1, a, x, n + 1) == Sum(1, a, x, n) + x[n]
    ensures Sum(2, a, x, n + 1) == Sum(2, a, x, n) + Sum(1, a, x, n + 1)
    ensures Sum(3, a, x, n + 1) == Sum(3, a, x, n) + Sum(2, a, x, n + 1)
    ensures Sum(4, a, x, n + 1) == Sum(4, a, x, n) + Sum(3, a, x, n + 1)
  {
    assert Sum(0, a, x, n + 1) == x[n];
  }

  lemma {:induction false} ShadowRun(ints: seq<int32>, a: seq<int>, x: seq<int>, n: nat, end: nat)
    requires |ints| == |a| == 4 && n <= end <= |x|
    requires Shadows(ints, a, x, n)
    ensures Shadows(Integrate(ints, x[n..end]), a, x, end)
    decreases end - n
  {
    if n == end {
    } else {
      ShadowStep(ints, a, x, n);
      ShadowRun(IntegrateOne(ints, x[n]), a, x, n + 1, end);
      assert x[n..end][1..] == x[n + 1..end];
    }
  }

  /** Before call m the combs hold the differences of the previous calls' last integrator values:
      comb j from call j + 1 on, and from the first call when the run starts cold (all zeros). */
  predicate Tracks(s: State, a: seq<int>, x: seq<int>, m: nat, cold: bool)
    requires s.Valid() && |a| == 4
  {
    && Shadows(s.ints, a, x, STRIDE * m)
    && forall j | 0 <= j < 4 && (m > j || cold) :: s.combs[j] == Wrap(Diff(j, 4, a, x, STRIDE * m))
  }

  lemma {:induction false} DiffBeforeStart(j: nat, a: seq<int>, x: seq<int>, n: int)
    requires |a| == 4 && Zero(a) && n <= 0
    ensures Diff(j, 4, a, x, n) == 0
  {
    if j == 0 {
      SumBeforeStart(4, a, x, n);
    } else {
      DiffBeforeStart(j - 1, a, x, n);
      DiffBeforeStart(j - 1, a, x, n - STRIDE);
    }
  }

  lemma {:induction false} CombTracks(s: State, a: seq<int>, x: seq<int>, m: nat, cold: bool, v: int32, j: nat)
    requires s.Valid() && |a| == 4 && Tracks(s, a, x, m, cold) && j <= 4
    requires m >= j || cold
    requires v == Wrap(Sum(4, a, x, STRIDE * (m + 1)))
    ensures CombInput(s.combs, v, j) == Wrap(Diff(j, 4, a, x, STRIDE * (m + 1)))
  {
    if j == 0 {
    } else {
      CombTracks(s, a, x, m, cold, v, j - 1);
      var n := STRIDE * (m + 1);
      WrapOfDifference(Diff(j - 1, 4, a, x, n), Diff(j - 1, 4, a, x, n - STRIDE));
      assert n - STRIDE == STRIDE * m;
    }
  }

  lemma {:induction false} TracksAfter(s: State, words: seq<nat>, m: nat, cold: bool)
    requires s.Valid() && m <= |words|
    requires cold ==> s == ZERO_STATE
    ensures Tracks(After(s, words, m), s.ints, Stream(words), m, cold)
  {
    var a, x := s.ints, Stream(words);
    if m == 0 {
      if cold {
        forall j | 0 <= j < 4 ensures s.combs[j] == Wrap(Diff(j, 4, a, x, 0)) {
          DiffBeforeStart(j, a, x, 0);
        }
      }
    } else {
      TracksAfter(s, words, m - 1, cold);
      var p, q := After(s, words, m - 1), After(s, words, m);
      CallShadows(p, a, words, m - 1);
      forall j | 0 <= j < 4 && (m > j || cold) ensures q.combs[j] == Wrap(Diff(j, 4, a, x, STRIDE * m)) {
        CombTracks(p, a, x, m - 1, cold, q.ints[3], j);
      }
    }
  }

  lemma CallShadows(p: State, a: seq<int>, words: seq<nat>, m: nat)
    requires p.Valid() && |a| == 4 && m < |words|
    requires Shadows(p.ints, a, Stream(words), STRIDE * m)
    ensures Shadows(Integrate(p.ints, WordSamples(words[m], STRIDE)), a, Stream(words), STRIDE * (m + 1))
  {
    var x, n, end := Stream(words), STRIDE * m, STRIDE * (m + 1);
    assert n <= end <= |x|;
    ShadowRun(p.ints, a, x, n, end);
    assert x[n..end] == WordSamples(words[m], STRIDE) by { StreamSlice(words, m); }
  }

  // ---------- main results ----------

  /** Four boxcars convolved: the impulse response, 253 taps long. */
  const RESPONSE: seq<int> := Kernel(4)

  /** Every output of a run is the exact 4-fold boxcar FIR of the bit stream, over the integers
      and within 2^24, however often the integrators have overflowed. From a zeroed state this
      holds from the first call. From any other contents it holds from the fifth call on. */
  lemma OutputIsFir(s: State, words: seq<nat>, m: nat)
    requires s.Valid() && m < |words|
    requires s == ZERO_STATE || m >= 4
    ensures Output(s, words, m) == Convolve(RESPONSE, Stream(words), STRIDE * (m + 1))
    ensures -0x100_0000 <= Output(s, words, m) <= 0x100_0000
  {
    var a, x, n, cold := s.ints, Stream(words), STRIDE * (m + 1), s == ZERO_STATE;
    var p := After(s, words, m);
    TracksAfter(s, words, m, cold);
    CallShadows(p, a, words, m);
    CombTracks(p, a, x, m, cold, Integrate(p.ints, WordSamples(words[m], STRIDE))[3], 4);
    DiffIsFold(4, a, x, n);
    FoldIsConvolution(4, x, n);
    FoldBound(4, x, n);
    FourthPower();
    WrapIsIdentityInRange(Fold(4, x, n));
  }

  lemma FourthPower()
    ensures Power64(4) == 0x100_0000
  {
    assert Power64(1) == 64;
    assert Power64(2) == 4096;
    assert Power64(3) == 262144;
  }

  /** Self-synchronisation: two filters fed the same words agree from the fifth call on, whatever
      their registers held before. */
  lemma Synchronises(s: State, t: State, words: seq<nat>, m: nat)
    requires s.Valid() && t.Valid() && 4 <= m < |words|
    ensures Output(s, words, m) == Output(t, words, m)
  {
    OutputIsFir(s, words, m);
    OutputIsFir(t, words, m);
  }

  /** The bound 2^24 is reached: four words of ones in a row give exactly the DC gain. */
  lemma FullScale(s: State, words: seq<nat>, m: nat)
    requires s.Valid() && 3 <= m < |words|
    requires s == ZERO_STATE || m >= 4
    requires forall i | m - 3 <= i <= m :: AllSet(words[i], STRIDE)
    ensures Output(s, words, m) == 0x100_0000
  {
    var x, n := Stream(words), STRIDE * (m + 1);
    forall i | n - 253 <= i < n ensures x[i] == 1 {
      StreamAt(words, i / 64, i % 64);
      AllSetSample(words[i / 64], STRIDE, i % 64);
    }
    OutputIsFir(s, words, m);
    FoldIsConvolution(4, x, n);
    FoldOfOnes(4, x, n);
    FourthPower();
  }

  /** The k low bits of the word are all set. */
  predicate AllSet(data: nat, k: nat) {
    k == 0 || (data % 2 == 1 && AllSet(data / 2, k - 1))
  }

  lemma {:induction false} AllSetSample(data: nat, k: nat, i: nat)
    requires i < k && AllSet(data, k)
    ensures WordSamples(data, k)[i] == 1
  {
    if i == 0 {
    } else {
      AllSetSample(data / 2, k - 1, i - 1);
    }
  }

  // ---------- four calls do not synchronise ----------

  /** combs t differ from combs s by d, mod 2^32. */
  predicate Offset(s: seq<int32>, t: seq<int32>, d: seq<int>)
    requires |s| == |t| == |d| == 4
  {
    forall j | 0 <= j < 4 :: t[j] == Wrap(s[j] + d[j])
  }

  /** How an offset in the comb registers appears at the input of comb j. */
  function OffsetAt(d: seq<int>, j: nat): int
    requires |d| == 4 && j <= 4
  {
    if j == 0 then 0 else OffsetAt(d, j - 1) - d[j - 1]
  }

  lemma {:induction false} OffsetMoves(s: seq<int32>, t: seq<int32>, d: seq<int>, v: int32, j: nat)
    requires |s| == |t| == |d| == 4 && Offset(s, t, d) && j <= 4
    ensures CombInput(t, v, j) == Wrap(CombInput(s, v, j) + OffsetAt(d, j))
  {
    if j == 0 {
    } else {
      OffsetMoves(s, t, d, v, j - 1);
      WrapOfOffsets(CombInput(s, v, j - 1), OffsetAt(d, j - 1), s[j - 1], d[j - 1]);
    }
  }

  lemma OffsetComb(s: seq<int32>, t: seq<int32>, d: seq<int>, v: int32)
    requires |s| == |t| == |d| == 4 && Offset(s, t, d)
    ensures Offset(Comb(s, v), Comb(t, v), seq(4, j requires 0 <= j < 4 => OffsetAt(d, j)))
  {
    forall j | 0 <= j < 4 ensures CombInput(t, v, j) == Wrap(CombInput(s, v, j) + OffsetAt(d, j)) {
      OffsetMoves(s, t, d, v, j);
    }
  }

  lemma OffsetCall(s: State, t: State, d: seq<int>, data: nat)
    requires s.Valid() && t.Valid() && |d| == 4 && s.ints == t.ints && Offset(s.combs, t.combs, d)
    ensures Offset(Call(s, data).combs, Call(t, data).combs, [0, -d[0], -d[0] - d[1], -d[0] - d[1] - d[2]])
    ensures Call(s, data).ints == Call(t, data).ints
    ensures CallOutput(t, data) == Wrap(CallOutput(s, data) - d[0] - d[1] - d[2] - d[3])
  {
    var v := Integrate(s.ints, WordSamples(data, STRIDE))[3];
    OffsetsUnrolled(d);
    OffsetMoves(s.combs, t.combs, d, v, 4);
    OffsetComb(s.combs, t.combs, d, v);
    assert [0, -d[0], -d[0] - d[1], -d[0] - d[1] - d[2]] == seq(4, j requires 0 <= j < 4 => OffsetAt(d, j));
  }

  lemma OffsetsUnrolled(d: seq<int>)
    requires |d| == 4
    ensures OffsetAt(d, 1) == -d[0] && OffsetAt(d, 2) == -d[0] - d[1]
    ensures OffsetAt(d, 3) == -d[0] - d[1] - d[2] && OffsetAt(d, 4) == -d[0] - d[1] - d[2] - d[3]
  {
    assert OffsetAt(d, 2) == OffsetAt(d, 1) - d[1];
    assert OffsetAt(d, 3) == OffsetAt(d, 2) - d[2];
  }

  /** After m calls the integrators agree and the comb registers differ by a, b, c and d. */
  predicate Apart(s: State, t: State, words: seq<nat>, m: nat, a: int, b: int, c: int, d: int)
    requires s.Valid() && t.Valid() && m <= |words|
  {
    && After(s, words, m).ints == After(t, words, m).ints
    && Offset(After(s, words, m).combs, After(t, words, m).combs, [a, b, c, d])
  }

  lemma OffsetAfter(s: State, t: State, words: seq<nat>, m: nat, a: int, b: int, c: int, d: int)
    requires s.Valid() && t.Valid() && m < |words| && Apart(s, t, words, m, a, b, c, d)
    ensures Apart(s, t, words, m + 1, 0, -a, -a - b, -a - b - c)
    ensures Output(t, words, m) == Wrap(Output(s, words, m) - a - b - c - d)
  {
    OffsetCall(After(s, words, m), After(t, words, m), [a, b, c, d], words[m]);
  }

  /** A change in the first comb register, four calls later. */
  lemma FourCallsLater(s: State, t: State, words: seq<nat>, m: nat)
    requires s.Valid() && t.Valid() && m + 4 <= |words|
    requires Apart(s, t, words, m, 1, 0, 0, 0)
    ensures Output(t, words, m + 3) == Wrap(Output(s, words, m + 3) + 1)
  {
    OffsetAfter(s, t, words, m, 1, 0, 0, 0);
    OffsetAfter(s, t, words, m + 1, 0, -1, -1, -1);
    OffsetAfter(s, t, words, m + 2, 0, 0, 1, 2);
    OffsetAfter(s, t, words, m + 3, 0, 0, 0, -1);
  }

  /** Four calls are not enough to forget the start: on every input, the fourth output still
      shows a change of 1 in the first comb register. */
  lemma FourthOutputRemembers(s: State, t: State, words: seq<nat>)
    requires s.Valid() && t.Valid() && |words| >= 4
    requires s.ints == t.ints && Offset(s.combs, t.combs, [1, 0, 0, 0])
    ensures Output(t, words, 3) == Wrap(Output(s, words, 3) + 1) != Output(s, words, 3)
  {
    FourCallsLater(s, t, words, 0);
    WrapMoves(Output(s, words, 3));
  }

  lemma WrapMoves(x: int32)
    ensures Wrap(x + 1) != x
  {}
}
