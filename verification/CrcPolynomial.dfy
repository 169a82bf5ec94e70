/** What the bit-serial register computes: the remainder of polynomial division over GF(2). */
module CrcPolynomial {
  import opened BitWords
  import opened Lfsr

  /** A polynomial over GF(2), as the set of exponents with coefficient one. */
  type Poly = set<nat>

  function Plus(a: Poly, b: Poly): (r: Poly)
    ensures forall e: nat :: e in r <==> ((e in a) != (e in b))
  {
    (a - b) + (b - a)
  }

  /** Multiplication by x^k. */
  function Up(a: Poly, k: nat): (r: Poly)
    ensures forall e: nat :: e in r <==> e >= k && e - k in a
  {
    var r := set e | e in a :: e + k;
    assert forall e: nat | e >= k && e - k in a :: e in r by {
      forall e: nat | e >= k && e - k in a ensures e in r { assert e == (e - k) + k; }
    }
    r
  }

  /** One coefficient, as a constant polynomial. */
  function Constant(b: bool): Poly {
    if b then {0} else {}
  }

  /** The polynomial whose coefficients are the bits, highest power first. */
  function PolyOfBits(bits: seq<bool>): Poly
    decreases |bits|
  {
    if bits == [] then {}
    else var n := |bits| - 1; Plus(Up(PolyOfBits(bits[..n]), 1), Constant(bits[n]))
  }

  /** The register as a polynomial of degree below 32. */
  function PolyOfWord(c: Word): (r: Poly)
    ensures forall e: nat :: e in r <==> e < 32 && c[e]
  {
    set e: nat | e < 32 && c[e]
  }

  /** x^32 + x^26 + x^23 + ... + x + 1. */
  function GeneratorPoly(): (g: Poly)
    ensures forall e: nat :: e in g <==> e == 32 || (e < 32 && Generator()[e])
  {
    PolyOfWord(Generator()) + {32}
  }

  /** g when the coefficient is one. */
  function Scaled(b: bool, g: Poly): Poly {
    if b then g else {}
  }

  /** The product of g with the polynomial of the bits, by Horner's rule. */
  function Times(bits: seq<bool>, g: Poly): Poly
    decreases |bits|
  {
    if bits == [] then {}
    else var n := |bits| - 1; Plus(Up(Times(bits[..n], g), 1), Scaled(bits[n], g))
  }

  /** What is divided: init * x^k + M * x^32 for a message M of k bits. */
  function Dividend(init: Word, bits: seq<bool>): Poly {
    Plus(Up(PolyOfWord(init), |bits|), Up(PolyOfBits(bits), 32))
  }

  /** The feedback bits are the quotient. */
  function Quotient(init: Word, bits: seq<bool>): (q: seq<bool>)
    ensures |q| == |bits|
    decreases |bits|
  {
    if bits == [] then []
    else var n := |bits| - 1; Quotient(init, bits[..n]) + [Run(init, bits[..n])[31] != bits[n]]
  }

  /** Division by the generator: r has degree below 32 and differs from p by a multiple. */
  ghost predicate IsRemainder(p: Poly, r: Poly) {
    && (forall e | e in r :: e < 32)
    && exists q: seq<bool> :: p == Plus(Times(q, GeneratorPoly()), r)
  }

  lemma RunLast(c: Word, bits: seq<bool>)
    requires bits != []
    ensures var n := |bits| - 1; Run(c, bits) == Step(Run(c, bits[..n]), bits[n])
  {
    var n := |bits| - 1;
    RunConcat(c, bits[..n], [bits[n]]);
    assert bits == bits[..n] + [bits[n]];
    assert Run(Run(c, bits[..n]), [bits[n]]) == Step(Run(c, bits[..n]), bits[n]) by {
      assert [bits[n]][1..] == [];
    }
  }

  lemma StepBit(c: Word, d: bool, e: nat)
    requires e < 32
    ensures Step(c, d)[e] == ((e > 0 && c[e - 1]) != (c[31] != d && Generator()[e]))
  {}

  /** One step is multiplication by x, addition of d * x^32, and reduction. */
  lemma StepReduces(c: Word, d: bool)
    ensures Plus(Up(PolyOfWord(c), 1), Up(Constant(d), 32))
            == Plus(Scaled(c[31] != d, GeneratorPoly()), PolyOfWord(Step(c, d)))
  {
    var l := Plus(Up(PolyOfWord(c), 1), Up(Constant(d), 32));
    var r := Plus(Scaled(c[31] != d, GeneratorPoly()), PolyOfWord(Step(c, d)));
    var f := c[31] != d;
    forall e: nat ensures e in l <==> e in r {
      assert e in l <==> (e > 0 && e - 1 < 32 && c[e - 1]) != (e == 32 && d);
      if e < 32 {
        StepBit(c, d, e);
        assert e in r <==> (f && Generator()[e]) != Step(c, d)[e];
      } else {
        assert e in r <==> (f && e == 32);
      }
    }
  }

  lemma DividendLast(init: Word, bits: seq<bool>)
    requires bits != []
    ensures var n := |bits| - 1;
            Dividend(init, bits) == Plus(Up(Dividend(init, bits[..n]), 1), Up(Constant(bits[n]), 32))
  {
    var n := |bits| - 1;
    var d, front := Dividend(init, bits), Dividend(init, bits[..n]);
    var r := Plus(Up(front, 1), Up(Constant(bits[n]), 32));
    forall e: nat ensures e in d <==> e in r {}
  }

  lemma {:induction false} RunDivides(init: Word, bits: seq<bool>)
    ensures Dividend(init, bits) == Plus(Times(Quotient(init, bits), GeneratorPoly()), PolyOfWord(Run(init, bits)))
    decreases |bits|
  {
    if bits == [] {
      assert Dividend(init, []) == PolyOfWord(init);
    } else {
      var n := |bits| - 1;
      var q, r := Quotient(init, bits[..n]), Run(init, bits[..n]);
      RunDivides(init, bits[..n]);
      DividendLast(init, bits);
      RunLast(init, bits);
      StepReduces(r, bits[n]);
      assert Quotient(init, bits)[..n] == q;
      DivisionStep(Times(q, GeneratorPoly()), PolyOfWord(r), Up(Constant(bits[n]), 32),
                   Scaled(r[31] != bits[n], GeneratorPoly()), PolyOfWord(Run(init, bits)));
    }
  }

  lemma DivisionStep(m: Poly, r: Poly, d: Poly, g: Poly, next: Poly)
    requires Plus(Up(r, 1), d) == Plus(g, next)
    ensures Plus(Up(Plus(m, r), 1), d) == Plus(Plus(Up(m, 1), g), next)
  {
    var a, b := Plus(Up(Plus(m, r), 1), d), Plus(Plus(Up(m, 1), g), next);
    forall e: nat ensures e in a <==> e in b {
      assert (e in Plus(Up(r, 1), d)) == (e in Plus(g, next));
    }
  }

  // ---------- remainders are unique ----------

  ghost predicate Degree32(g: Poly) {
    32 in g && forall e | e in g :: e <= 32
  }

  lemma LargerTerm(m: Poly, f: nat, b: bool, g: Poly)
    requires f >= 32 && f in m && Degree32(g)
    ensures f + 1 in Plus(Up(m, 1), Scaled(b, g))
  {
    assert f + 1 in Up(m, 1);
  }

  lemma ZeroPrefix(q: seq<bool>, j: nat, g: Poly)
    requires j <= |q| && forall i | 0 <= i < j :: !q[i]
    ensures Times(q[..j], g) == {}
  {
    ZeroMultiple(q[..j], g);
  }

  lemma ZeroAlgebra(g: Poly)
    ensures Plus(Up({}, 1), g) == g
  {
    forall e: nat ensures e in Plus(Up({}, 1), g) <==> e in g {}
  }

  /** The leading term of a product is the product of the leading terms. */
  lemma {:induction false} LeadingTerm(q: seq<bool>, j: nat, g: Poly, top: nat)
    requires j < |q| && q[j] && forall i | 0 <= i < j :: !q[i]
    requires Degree32(g)
    requires top == |q| + 31 - j
    ensures top in Times(q, g)
    decreases |q|
  {
    var n := |q| - 1;
    var front := q[..n];
    HornerStep(q, g);
    if j < n {
      LeadingTerm(front, j, g, top - 1);
      LargerTerm(Times(front, g), top - 1, q[n], g);
    } else {
      ZeroPrefix(q, j, g);
      ZeroAlgebra(g);
    }
  }

  lemma HornerStep(q: seq<bool>, g: Poly)
    requires q != []
    ensures Times(q, g) == Plus(Up(Times(q[..|q| - 1], g), 1), Scaled(q[|q| - 1], g))
  {}

  lemma {:induction false} FirstTrue(q: seq<bool>) returns (j: nat)
    requires true in q
    ensures j < |q| && q[j] && forall i | 0 <= i < j :: !q[i]
  {
    j := 0;
    while !q[j]
      invariant j < |q| && forall i | 0 <= i < j :: !q[i]
      decreases |q| - j
    {
      j := j + 1;
    }
  }

  lemma {:induction false} ZeroMultiple(q: seq<bool>, g: Poly)
    requires true !in q
    ensures Times(q, g) == {}
    decreases |q|
  {
    if q == [] {
    } else {
      ZeroMultiple(q[..|q| - 1], g);
      assert q[|q| - 1] in q;
      ZeroAlgebra({});
    }
  }

  /** (x a + f g) + (x b + h g) = x (a + b) + (f + h) g. */
  lemma HornerLinear(a: Poly, b: Poly, f: bool, h: bool, g: Poly)
    ensures Plus(Plus(Up(a, 1), Scaled(f, g)), Plus(Up(b, 1), Scaled(h, g)))
            == Plus(Up(Plus(a, b), 1), Scaled(f != h, g))
  {
    var l := Plus(Plus(Up(a, 1), Scaled(f, g)), Plus(Up(b, 1), Scaled(h, g)));
    var r := Plus(Up(Plus(a, b), 1), Scaled(f != h, g));
    forall e: nat ensures e in l <==> e in r {}
  }

  lemma {:induction false} TimesLinear(p: seq<bool>, q: seq<bool>, g: Poly)
    requires |p| == |q|
    ensures Times(XorSeq(p, q), g) == Plus(Times(p, g), Times(q, g))
    decreases |p|
  {
    if p == [] {
    } else {
      var n := |p| - 1;
      TimesLinear(p[..n], q[..n], g);
      assert XorSeq(p, q)[..n] == XorSeq(p[..n], q[..n]);
      HornerLinear(Times(p[..n], g), Times(q[..n], g), p[n], q[n], g);
    }
  }

  function Padded(q: seq<bool>, n: nat): (r: seq<bool>)
    ensures |r| == n + |q|
  {
    seq(n, _ => false) + q
  }

  lemma {:induction false} PaddedTimes(q: seq<bool>, n: nat, g: Poly)
    ensures Times(Padded(q, n), g) == Times(q, g)
    decreases |q|
  {
    var p := Padded(q, n);
    if q == [] {
      ZeroMultiple(p, g);
    } else {
      var last := |q| - 1;
      PaddedTimes(q[..last], n, g);
      assert p[..|p| - 1] == Padded(q[..last], n);
      assert p[|p| - 1] == q[last];
    }
  }

  /** Two remainders differ by a multiple of the generator. */
  lemma DifferenceIsMultiple(p: Poly, r: Poly, s: Poly) returns (z: seq<bool>)
    requires IsRemainder(p, r) && IsRemainder(p, s)
    ensures Times(z, GeneratorPoly()) == Plus(r, s)
  {
    var g := GeneratorPoly();
    var q: seq<bool> :| p == Plus(Times(q, g), r);
    var t: seq<bool> :| p == Plus(Times(t, g), s);
    var q', t' := Padded(q, |t|), Padded(t, |q|);
    PaddedTimes(q, |t|, g);
    PaddedTimes(t, |q|, g);
    TimesLinear(q', t', g);
    z := XorSeq(q', t');
    Cancel(Times(q, g), r, Times(t, g), s);
  }

  /** A multiple of the generator below its degree is zero. */
  lemma SmallMultiple(z: seq<bool>)
    requires forall e | e in Times(z, GeneratorPoly()) :: e < 32
    ensures Times(z, GeneratorPoly()) == {}
  {
    var g := GeneratorPoly();
    if true in z {
      var j := FirstTrue(z);
      LeadingTerm(z, j, g, |z| + 31 - j);
      assert false;
    }
    ZeroMultiple(z, g);
  }

  /** Division by the generator has only one remainder. */
  lemma RemainderUnique(p: Poly, r: Poly, s: Poly)
    requires IsRemainder(p, r) && IsRemainder(p, s)
    ensures r == s
  {
    var z := DifferenceIsMultiple(p, r, s);
    SmallMultiple(z);
    forall e: nat ensures e in r <==> e in s {
      assert e !in Plus(r, s);
    }
  }

  lemma Cancel(a: Poly, r: Poly, b: Poly, s: Poly)
    requires Plus(a, r) == Plus(b, s)
    ensures Plus(a, b) == Plus(r, s)
  {
    forall e: nat ensures e in Plus(a, b) <==> e in Plus(r, s) {
      assert (e in Plus(a, r)) == (e in Plus(b, s));
    }
  }

  /** The register after a run is the one and only remainder of init * x^k + M * x^32. */
  lemma RunIsRemainder(init: Word, bits: seq<bool>, r: Poly)
    ensures IsRemainder(Dividend(init, bits), r) <==> r == PolyOfWord(Run(init, bits))
  {
    RunDivides(init, bits);
    assert IsRemainder(Dividend(init, bits), PolyOfWord(Run(init, bits)));
    if IsRemainder(Dividend(init, bits), r) {
      RemainderUnique(Dividend(init, bits), r, PolyOfWord(Run(init, bits)));
    }
  }
}
