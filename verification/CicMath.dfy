/** Integer signals and the two descriptions of a cascaded integrator-comb filter that the
    filter proof connects: running sums and stride-64 differences on one side, a finite
    convolution on the other. Nothing here overflows: these are unbounded integers. */
module CicMath {
  /** Samples per filter call, the decimation factor. */
  const STRIDE: nat := 64

  /** The n-th sample of x, counting from 1; zero before the stream starts and after it ends. */
  function At(x: seq<int>, n: int): int {
    if 1 <= n <= |x| then x[n - 1] else 0
  }

  // ---------- k-fold running sums, and their j-fold stride-64 differences ----------

  /** Value of the k-th integrator after n samples, starting from the contents a. */
  function Sum(k: nat, a: seq<int>, x: seq<int>, n: int): int
    requires k <= |a|
    decreases k, if n <= 0 then 0 else n
  {
    if k == 0 then At(x, n)
    else if n <= 0 then a[k - 1]
    else Sum(k, a, x, n - 1) + Sum(k - 1, a, x, n)
  }

  function Diff(j: nat, k: nat, a: seq<int>, x: seq<int>, n: int): int
    requires k <= |a|
  {
    if j == 0 then Sum(k, a, x, n)
    else Diff(j - 1, k, a, x, n) - Diff(j - 1, k, a, x, n - STRIDE)
  }

  predicate Zero(a: seq<int>) {
    forall i | 0 <= i < |a| :: a[i] == 0
  }

  lemma {:induction false} SumBeforeStart(k: nat, a: seq<int>, x: seq<int>, n: int)
    requires k <= |a| && Zero(a) && n <= 0
    ensures Sum(k, a, x, n) == 0
  {}

  /** Differencing keeps the integrator recurrence, as long as it looks back no further than
      the start, or the integrators started at zero. */
  lemma {:induction false} DiffRecurrence(j: nat, k: nat, a: seq<int>, x: seq<int>, n: int)
    requires k < |a|
    requires n >= j * STRIDE + 1 || Zero(a)
    ensures Diff(j, k + 1, a, x, n) - Diff(j, k + 1, a, x, n - 1) == Diff(j, k, a, x, n)
  {
    if j == 0 {
      if n <= 0 { SumBeforeStart(k + 1, a, x, n); SumBeforeStart(k + 1, a, x, n - 1); SumBeforeStart(k, a, x, n); }
    } else {
      DiffRecurrence(j - 1, k, a, x, n);
      DiffRecurrence(j - 1, k, a, x, n - STRIDE);
    }
  }

  // ---------- moving sums ----------

  /** The j-fold moving sum of 64 samples: Fold(0) is the stream itself. */
  function Fold(j: nat, x: seq<int>, n: int): int
    decreases j, 0, 0
  {
    if j == 0 then At(x, n) else Window(j - 1, x, n, STRIDE)
  }

  /** Sum of the `width` latest values of Fold(j), ending at n. */
  function Window(j: nat, x: seq<int>, n: int, width: nat): int
    decreases j, 1, width
  {
    if width == 0 then 0 else Fold(j, x, n) + Window(j, x, n - 1, width - 1)
  }

  /** Telescoping: one difference and one sum cancel into a moving sum. */
  lemma {:induction false} Telescope(j: nat, a: seq<int>, x: seq<int>, n: int, width: nat)
    requires j < |a| && width <= STRIDE
    requires n >= j * STRIDE + width || Zero(a)
    ensures Diff(j, j + 1, a, x, n) - Diff(j, j + 1, a, x, n - width) == Window(j, x, n, width)
    decreases j, 1, width
  {
    if width == 0 {
    } else {
      DiffRecurrence(j, j, a, x, n);
      DiffIsFold(j, a, x, n);
      Telescope(j, a, x, n - 1, width - 1);
    }
  }

  /** Hogenauer's identity: j differences of the j-th integrator are a j-fold moving sum, with
      no trace of the integrators' starting contents once the look-back clears the start. */
  lemma {:induction false} DiffIsFold(j: nat, a: seq<int>, x: seq<int>, n: int)
    requires j <= |a|
    requires n >= j * STRIDE || Zero(a)
    ensures Diff(j, j, a, x, n) == Fold(j, x, n)
    decreases j, 0, 0
  {
    if j == 0 {
    } else {
      Telescope(j - 1, a, x, n, STRIDE);
    }
  }

  // ---------- convolution ----------

  /** Convolution of the kernel h with the stream, read at n: the sum of h[i] * x(n - i). */
  function Convolve(h: seq<int>, x: seq<int>, n: int): int {
    if h == [] then 0 else h[0] * At(x, n) + Convolve(h[1..], x, n - 1)
  }

  function Scale(c: int, h: seq<int>): (r: seq<int>)
    ensures |r| == |h|
  {
    if h == [] then [] else [c * h[0]] + Scale(c, h[1..])
  }

  function Add(g: seq<int>, h: seq<int>): (r: seq<int>)
    ensures |r| == if |g| >= |h| then |g| else |h|
  {
    if g == [] then h else if h == [] then g else [g[0] + h[0]] + Add(g[1..], h[1..])
  }

  /** Convolution of two finite kernels: the product of two polynomials. */
  function Product(g: seq<int>, h: seq<int>): (r: seq<int>)
    ensures |g| > 0 && |h| > 0 ==> |r| == |g| + |h| - 1
  {
    if g == [] then [] else Add(Scale(g[0], h), if |g| == 1 then [] else [0] + Product(g[1..], h))
  }

  function Boxcar(width: nat): (r: seq<int>)
    ensures |r| == width
  {
    if width == 0 then [] else [1] + Boxcar(width - 1)
  }

  /** The j-fold self-convolution of the length-64 boxcar. */
  function Kernel(j: nat): (r: seq<int>)
    ensures |r| == 63 * j + 1
  {
    if j == 0 then [1] else Product(Boxcar(STRIDE), Kernel(j - 1))
  }

  lemma {:induction false} ConvolveScale(c: int, h: seq<int>, x: seq<int>, n: int)
    ensures Convolve(Scale(c, h), x, n) == c * Convolve(h, x, n)
  {
    if h == [] {
    } else {
      ConvolveScale(c, h[1..], x, n - 1);
      var s, t, u := h[0], At(x, n), Convolve(h[1..], x, n - 1);
      assert (c * s) * t + c * u == c * (s * t + u);
    }
  }

  lemma {:induction false} ConvolveAdd(g: seq<int>, h: seq<int>, x: seq<int>, n: int)
    ensures Convolve(Add(g, h), x, n) == Convolve(g, x, n) + Convolve(h, x, n)
  {
    if g != [] && h != [] {
      ConvolveAdd(g[1..], h[1..], x, n - 1);
      assert (g[0] + h[0]) * At(x, n) == g[0] * At(x, n) + h[0] * At(x, n);
    }
  }

  lemma {:induction false} WindowIsConvolution(j: nat, x: seq<int>, n: int, width: nat)
    ensures Window(j, x, n, width) == Convolve(Product(Boxcar(width), Kernel(j)), x, n)
    decreases j, 1, width
  {
    if width == 0 {
    } else {
      var h := Kernel(j);
      var rest := Product(Boxcar(width - 1), h);
      FoldIsConvolution(j, x, n);
      WindowIsConvolution(j, x, n - 1, width - 1);
      ConvolveLongerBox(width, h, rest, x, n);
    }
  }

  /** One more tap in the boxcar adds one more copy of the kernel. */
  lemma ConvolveLongerBox(width: nat, h: seq<int>, rest: seq<int>, x: seq<int>, n: int)
    requires width > 0 && rest == Product(Boxcar(width - 1), h)
    ensures Convolve(Product(Boxcar(width), h), x, n) == Convolve(h, x, n) + Convolve(rest, x, n - 1)
  {
    assert Boxcar(width)[1..] == Boxcar(width - 1);
    var tail := if width == 1 then [] else [0] + rest;
    assert Product(Boxcar(width), h) == Add(Scale(1, h), tail);
    ConvolveAdd(Scale(1, h), tail, x, n);
    ConvolveScale(1, h, x, n);
    if width > 1 { assert tail[1..] == rest; }
  }

  /** The j-fold moving sum is the convolution with the j-fold boxcar. */
  lemma {:induction false} FoldIsConvolution(j: nat, x: seq<int>, n: int)
    ensures Fold(j, x, n) == Convolve(Kernel(j), x, n)
    decreases j, 0, 0
  {
    if j == 0 {
      assert Convolve([1][1..], x, n - 1) == 0;
    } else {
      WindowIsConvolution(j - 1, x, n, STRIDE);
    }
  }

  // ---------- magnitude ----------

  function Power64(j: nat): nat {
    if j == 0 then 1 else 64 * Power64(j - 1)
  }

  predicate UnitSamples(x: seq<int>) {
    forall i | 0 <= i < |x| :: -1 <= x[i] <= 1
  }

  lemma {:induction false} WindowBound(j: nat, x: seq<int>, n: int, width: nat)
    requires UnitSamples(x)
    ensures -(width * Power64(j)) <= Window(j, x, n, width) <= width * Power64(j)
    decreases j, 1, width
  {
    if width == 0 {
    } else {
      FoldBound(j, x, n);
      WindowBound(j, x, n - 1, width - 1);
      assert width * Power64(j) == (width - 1) * Power64(j) + Power64(j);
    }
  }

  lemma {:induction false} FoldBound(j: nat, x: seq<int>, n: int)
    requires UnitSamples(x)
    ensures 0 - Power64(j) <= Fold(j, x, n) <= Power64(j)
    decreases j, 0, 0
  {
    if j == 0 {
    } else {
      WindowBound(j - 1, x, n, STRIDE);
    }
  }

  /** The bound is attained: on a constant +1 stretch the j-fold sum is exactly 64^j. */
  lemma {:induction false} FoldOfOnes(j: nat, x: seq<int>, n: int)
    requires 63 * j + 1 <= n <= |x|
    requires forall i | n - 63 * j - 1 <= i < n :: x[i] == 1
    ensures Fold(j, x, n) == Power64(j)
    decreases j, 0, 0
  {
    if j == 0 {
    } else {
      WindowOfOnes(j - 1, x, n, STRIDE);
    }
  }

  lemma {:induction false} WindowOfOnes(j: nat, x: seq<int>, n: int, width: nat)
    requires 63 * j + width <= n <= |x|
    requires forall i | n - 63 * j - width <= i < n :: x[i] == 1
    ensures Window(j, x, n, width) == width * Power64(j)
    decreases j, 1, width
  {
    if width == 0 {
    } else {
      FoldOfOnes(j, x, n);
      WindowOfOnes(j, x, n - 1, width - 1);
      assert width * Power64(j) == (width - 1) * Power64(j) + Power64(j);
    }
  }
}
