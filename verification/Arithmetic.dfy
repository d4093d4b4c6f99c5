/** Facts about products and quotients that several modules need. */
module Arithmetic {

  /** Division of unsigned integers, named so that a proof can leave it folded. */
  function Quotient(n: nat, d: nat): (q: nat)
    requires d > 0
    ensures q <= n
  {
    QuotientBound(n, d);
    n / d
  }

  lemma QuotientBound(n: nat, d: nat)
    requires d >= 1
    ensures n / d <= n
  {
    var q := n / d;
    assert n == q * d + n % d;
    ScaledOrder(1, d, q);
    assert 1 * q == q && q * d == d * q;
  }

  function Remainder(n: nat, d: nat): nat
    requires d > 0
  {
    n % d
  }

  /** A multiple of `d` other than zero is at least `d` away from it. */
  lemma Multiples(d: int, e: int)
    requires d >= 1
    ensures e >= 1 ==> e * d >= d
    ensures e <= -1 ==> e * d <= -d
  {
  }

  lemma UniqueQuotient(n: int, d: nat, q: int, r: nat)
    requires n == q * d + r && r < d
    ensures n / d == q && n % d == r
  {
    var e := n / d - q;
    assert n == (n / d) * d + n % d;
    assert e * d == r - n % d;
    Multiples(d, e);
  }

  lemma ScaledOrder(a: nat, b: nat, d: nat)
    requires a <= b
    ensures a * d <= b * d
  {
  }

  /** The greatest common divisor, by Euclid. */
  function Gcd(a: nat, b: nat): (g: nat)
    ensures a > 0 || b > 0 ==> g > 0
    decreases b
  {
    if b == 0 then a else Gcd(b, a % b)
  }

  /** `g` divides both numbers, m and n times, and is a combination of them. */
  ghost predicate Combined(g: int, a: int, b: int, u: int, v: int, m: int, n: int)
  {
    a == m * g && b == n * g && u * a + v * b == g
  }

  lemma {:induction false} Bezout(a: nat, b: nat) returns (u: int, v: int, m: int, n: int)
    ensures Combined(Gcd(a, b), a, b, u, v, m, n)
    decreases b
  {
    if b == 0 {
      u, v, m, n := 1, 0, 1, 0;
    } else {
      u, v, m, n := Bezout(b, a % b);
      hide Combined;
      BezoutStep(a, b, a / b, a % b, Gcd(a, b), u, v, m, n);
      u, v, m, n := v, u - v * (a / b), (a / b) * m + n, m;
    }
  }

  lemma BezoutStep(a: int, b: int, q: int, r: int, g: int, u: int, v: int, m: int, n: int)
    requires Combined(g, b, r, u, v, m, n) && a == q * b + r
    ensures Combined(g, a, b, v, u - v * q, q * m + n, m)
  {
    Expand(g, q * m, n);
    assert q * (m * g) == (q * m) * g;
    Expand(v, q * b, r);
    Expand(b, u, -(v * q));
    assert v * (q * b) == (v * q) * b;
  }

  lemma Expand(a: int, b: int, c: int)
    ensures (b + c) * a == b * a + c * a
  {
  }
}
