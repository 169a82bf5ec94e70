/** Products, quotients and remainders of natural numbers. */
module NatArithmetic {
  lemma UniqueDivision(den: nat, q: nat, r: nat, n: nat)
    requires den > 0 && r < den && n == den * q + r
    ensures n / den == q && n % den == r
  {
    var d, m := n / den, n % den;
    assert n == den * d + m && m < den;
    if d < q {
      StrictlyMore(den, d, q);
      assert false;
    } else if d > q {
      StrictlyMore(den, q, d);
      assert false;
    }
  }

  lemma RemainderOfSum(den: nat, x: nat, y: nat)
    requires den > 0
    ensures (x % den + y) % den == (x + y) % den
  {
    var t := x % den + y;
    var p, q := x / den, t / den;
    assert x == den * p + x % den && t == den * q + t % den;
    assert den * (p + q) == den * p + den * q;
    UniqueDivision(den, p + q, t % den, x + y);
  }

  lemma StrictlyMore(p: nat, a: nat, b: nat)
    requires a < b
    ensures p * a + p <= p * b
  {
    Product(p, b - a - 1);
    assert p * b == p * a + p + p * (b - a - 1);
  }

  lemma Product(a: nat, b: nat)
    ensures a * b >= 0
  {}

  lemma CancelFactor(p: nat, a: nat, b: nat)
    requires p > 0 && p * a <= p * b
    ensures a <= b
  {
    if b < a { StrictlyMore(p, b, a); }
  }

  lemma CancelStrict(p: nat, a: nat, b: nat)
    requires p * a < p * b
    ensures a < b
  {
    if b <= a { LessOrEqualProduct(p, b, a); }
  }

  lemma LessOrEqualProduct(p: nat, a: nat, b: nat)
    requires a <= b
    ensures p * a <= p * b
  {
    Product(p, b - a);
    assert p * b == p * a + p * (b - a);
  }

  lemma LessProduct(a: nat, b: nat, c: nat, d: nat)
    requires a < c && b < d
    ensures a * b < c * d
  {
    LessOrEqualProduct(b, a, c);
    StrictlyMore(c, b, d);
    assert b * a == a * b && b * c == c * b;
  }

  function Min(a: nat, b: nat): nat {
    if a < b then a else b
  }

  lemma Reassociate(a: nat, b: nat, c: nat)
    ensures a * (b * c) == b * (a * c) == a * c * b
  {
    assert a * (b * c) == a * b * c == b * a * c == b * (a * c);
  }

  /** n * size, in the form that counting loops use it. */
  function Offset(n: nat, size: nat): (r: nat)
    ensures n > 0 ==> r >= size
  {
    if n == 0 then 0 else Offset(n - 1, size) + size
  }

  lemma {:induction false} OffsetMonotone(i: nat, j: nat, size: nat)
    requires i <= j
    ensures Offset(i, size) <= Offset(j, size)
    ensures i < j ==> Offset(i, size) + size <= Offset(j, size)
    decreases j
  {
    if i == j {
    } else {
      OffsetMonotone(i, j - 1, size);
    }
  }

  lemma {:induction false} OffsetIsProduct(n: nat, size: nat)
    ensures Offset(n, size) == n * size
  {
    if n == 0 {
    } else {
      OffsetIsProduct(n - 1, size);
    }
  }

  lemma {:induction false} OffsetAdds(a: nat, b: nat, size: nat)
    ensures Offset(a + b, size) == Offset(a, size) + Offset(b, size)
  {
    if b == 0 {
    } else {
      OffsetAdds(a, b - 1, size);
    }
  }
}
