/** Facts about products, quotients and powers of two that the solver does not find by itself. */
module Arith {

  lemma MulMono(a: nat, b: int, c: int)
    requires b <= c
    ensures a * b <= a * c
  {
  }

  lemma MulAtLeast(a: nat, b: int)
    requires b >= 1
    ensures a * b >= a
  {
    MulMono(a, 1, b);
  }

  lemma Distribute(a: int, b: int, c: int)
    ensures a * (b + c) == a * b + a * c
    ensures a * (b - c) == a * b - a * c
    ensures (b + c) * a == b * a + c * a
    ensures (b - c) * a == b * a - c * a
  {
  }

  lemma MulSucc(k: int, a: int)
    ensures (k + 1) * a == k * a + a
  {
  }

  /** Multiplication by repeated addition: for products the solver is better off not looking into. */
  function Summed(a: nat, b: nat): nat {
    if b == 0 then 0 else Summed(a, b - 1) + a
  }

  lemma {:induction false} SummedIs(a: nat, b: nat)
    ensures Summed(a, b) == a * b
  {
    if b > 0 {
      SummedIs(a, b - 1);
      MulSucc(b - 1, a);
    }
  }

  /** A comparison of multiples survives multiplication. */
  lemma Scale(m: int, a: int, n: int, b: int, c: nat)
    requires m * a <= n * b
    ensures m * (a * c) <= n * (b * c)
  {
    MulMono(c, m * a, n * b);
    assert m * (a * c) == c * (m * a);
    assert n * (b * c) == c * (n * b);
  }

  /** Quotient and remainder are the only pair that recombine. */
  lemma DivModUnique(x: int, d: int, q: int, r: int)
    requires 0 <= r < d && x == d * q + r
    ensures x / d == q && x % d == r
  {
    var q', r' := x / d, x % d;
    assert x == d * q' + r';
    Distribute(d, q, q');
    if q > q' {
      MulAtLeast(d, q - q');
      assert false;
    }
    if q < q' {
      Distribute(d, q', q);
      MulAtLeast(d, q' - q);
      assert false;
    }
  }

  // --- Powers ---

  function Pow(b: nat, n: nat): (r: nat)
    ensures b > 0 ==> r > 0
  {
    if n == 0 then 1 else
      var below := Pow(b, n - 1);
      assert b > 0 ==> b * below > 0;
      b * below
  }

  lemma MulAssoc(a: int, b: int, c: int)
    ensures a * (b * c) == (a * b) * c
  {
  }

  lemma {:induction false} PowAdd(b: nat, m: nat, n: nat)
    ensures Pow(b, m + n) == Pow(b, m) * Pow(b, n)
  {
    hide Pow;
    if m == 0 {
      PowZero(b);
    } else {
      PowAdd(b, m - 1, n);
      PowNext(b, m - 1);
      PowNext(b, m - 1 + n);
      MulAssoc(b, Pow(b, m - 1), Pow(b, n));
    }
  }

  lemma PowZero(b: nat)
    ensures Pow(b, 0) == 1
  {
  }

  lemma PowNext(b: nat, n: nat)
    ensures Pow(b, n + 1) == b * Pow(b, n)
  {
  }

  lemma PowMono(b: nat, m: nat, n: nat)
    requires b > 0 && m <= n
    ensures 0 < Pow(b, m) <= Pow(b, n)
  {
    PowAdd(b, m, n - m);
    MulAtLeast(Pow(b, m), Pow(b, n - m));
  }

  lemma {:induction false} PowPow(b: nat, m: nat, n: nat)
    ensures Pow(Pow(b, m), n) == Pow(b, m * n)
  {
    if n == 0 {
      assert m * n == 0;
    } else {
      PowPow(b, m, n - 1);
      assert m * n == m + m * (n - 1);
      PowAdd(b, m, m * (n - 1));
    }
  }

  // --- Quotients ---

  lemma DivMono(x: int, y: int, d: nat)
    requires d > 0 && x <= y
    ensures x / d <= y / d
  {
    if x / d > y / d {
      MulMono(d, y / d + 1, x / d);
      Distribute(d, y / d, 1);
    }
  }

  lemma DivBetween(x: int, d: nat, lo: int, hi: int)
    requires d > 0 && lo * d <= x < hi * d
    ensures lo <= x / d < hi
  {
    DivMono(lo * d, x, d);
    DivModUnique(lo * d, d, lo, 0);
    if x / d >= hi {
      MulMono(d, hi, x / d);
    }
  }

  lemma ModAtMost(x: nat, d: nat)
    requires d > 0
    ensures 0 <= x % d <= x && x == d * (x / d) + x % d
  {
    MulMono(d, 0, x / d);
  }

  /** The quotient is where the multiples of the divisor straddle the value. */
  lemma DivBounds(x: int, d: nat, q: int)
    requires d > 0
    ensures x / d == q <==> d * q <= x < d * q + d
  {
    if d * q <= x < d * q + d {
      DivModUnique(x, d, q, x - d * q);
    }
  }

  lemma {:induction false} DivDiv(x: nat, c: nat, d: nat)
    requires c > 0 && d > 0
    ensures c * d > 0 && x / c / d == x / (c * d)
  {
    MulAtLeast(c, d);
    DivDivStep(x, c, d, x / c, x % c, x / c / d, x / c % d);
  }

  lemma DivDivStep(x: nat, c: nat, d: nat, y: int, r: int, q: int, t: int)
    requires c > 0 && d > 0 && c * d > 0
    requires x == c * y + r && 0 <= r < c && y == d * q + t && 0 <= t < d
    ensures x / (c * d) == q
  {
    Distribute(c, d * q, t);
    assert c * (d * q) == (c * d) * q;
    MulMono(c, t, d - 1);
    MulMono(c, 0, t);
    Distribute(c, d, 1);
    DivModUnique(x, c * d, q, c * t + r);
  }

  /** A common factor of dividend and divisor changes nothing. */
  lemma DivCancel(x: nat, c: nat, d: nat)
    requires c > 0 && d > 0
    ensures c * d > 0 && (c * x) / (c * d) == x / d && (c * x) % (c * d) == c * (x % d)
  {
    MulAtLeast(c, d);
    var q, r := x / d, x % d;
    Distribute(c, d * q, r);
    assert c * (d * q) == (c * d) * q;
    MulMono(c, r, d - 1);
    Distribute(c, d, 1);
    DivModUnique(c * x, c * d, q, c * r);
  }
}
