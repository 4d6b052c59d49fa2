/** Bits of natural numbers: powers of two, bitwise and, and the top bits of a number. */
module Bits {
  function Pow2(n: nat): (r: nat)
    ensures r > 0
  {
    if n == 0 then 1 else 2 * Pow2(n - 1)
  }

  lemma {:induction false} Pow2Adds(m: nat, n: nat)
    ensures Pow2(m + n) == Pow2(m) * Pow2(n)
  {
    if m > 0 {
      Pow2Adds(m - 1, n);
      Double(Pow2(m - 1), Pow2(n));
    }
  }

  lemma Double(a: nat, b: nat)
    ensures 2 * (a * b) == 2 * a * b
  {
  }

  /** Bitwise and. */
  function And(x: nat, y: nat): nat {
    if x == 0 || y == 0 then 0 else 2 * And(x / 2, y / 2) + (if x % 2 == 1 && y % 2 == 1 then 1 else 0)
  }

  lemma {:induction false} AndOnes(x: nat, n: nat)
    requires x < Pow2(n)
    ensures And(x, Pow2(n) - 1) == x
  {
    if x > 0 {
      assert (Pow2(n) - 1) / 2 == Pow2(n - 1) - 1;
      AndOnes(x / 2, n - 1);
    }
  }

  /** An `n`-bit mask of ones above `k` zeros. */
  function Mask(n: nat, k: nat): (r: nat)
    requires k <= n
    ensures r == Pow2(n) - Pow2(k)
  {
    if k == 0 then Pow2(n) - 1 else 2 * Mask(n - 1, k - 1)
  }

  /** A mask keeps the bits from `k` up. */
  lemma {:induction false} AndMask(x: nat, n: nat, k: nat)
    requires x < Pow2(n) && k <= n
    ensures And(x, Mask(n, k)) == x / Pow2(k) * Pow2(k)
  {
    if k == 0 {
      AndOnes(x, n);
    } else {
      AndEven(x, Mask(n - 1, k - 1));
      AndMask(x / 2, n - 1, k - 1);
      MaskedHalves(x, Pow2(k - 1));
    }
  }

  lemma MaskedHalves(x: nat, d: nat)
    requires d > 0
    ensures 2 * (x / 2 / d * d) == x / (2 * d) * (2 * d)
  {
    HalfDiv(x, d);
    Regroup(x / (2 * d), d);
  }

  lemma Regroup(t: nat, d: nat)
    ensures 2 * (t * d) == t * (2 * d)
  {
  }

  lemma AndEven(x: nat, m: nat)
    ensures And(x, 2 * m) == 2 * And(x / 2, m)
  {
    assert 2 * m / 2 == m && 2 * m % 2 == 0;
  }

  lemma HalfDiv(x: nat, d: nat)
    requires d > 0
    ensures x / 2 / d == x / (2 * d)
  {
    DivDiv(x, 2, d);
  }

  /** Dividing twice is dividing by the product. */
  lemma DivDiv(x: nat, a: nat, b: nat)
    requires a > 0 && b > 0
    ensures a * b > 0 && x / a / b == x / (a * b)
  {
    var q, r := x / a / b, x / a % b;
    assert x / a == q * b + r;
    assert x == (q * b + r) * a + x % a;
    assert x == q * (a * b) + (r * a + x % a);
    assert r * a <= (b - 1) * a;
    DivUnique(x, a * b, q, r * a + x % a);
  }

  lemma DivUnique(x: int, d: int, q: int, r: int)
    requires d > 0 && x == q * d + r && 0 <= r < d
    ensures x / d == q && x % d == r
  {
    var q', r' := x / d, x % d;
    assert x == q' * d + r';
    assert (q - q') * d == r' - r;
    SmallMultiple(q - q', d);
  }

  lemma {:induction false} AtLeastOnce(e: nat, d: nat)
    requires e >= 1
    ensures e * d >= d
  {
    if e > 1 {
      AtLeastOnce(e - 1, d);
      assert e * d == (e - 1) * d + d;
    }
  }

  lemma SmallMultiple(e: int, d: int)
    requires d > 0 && -d < e * d < d
    ensures e == 0
  {
    if e > 0 {
      AtLeastOnce(e, d);
    } else if e < 0 {
      assert -e * d == -(e * d);
      AtLeastOnce(-e, d);
    }
  }

  /** The quotient by a power of two above `n`: only the high part is left. */
  lemma HighQuotient(high: nat, rest: nat, n: nat, d: nat)
    requires rest < Pow2(n) && d > 0
    ensures Pow2(n) * d > 0 && (high * Pow2(n) + rest) / (Pow2(n) * d) == high / d
  {
    DivUnique(high * Pow2(n) + rest, Pow2(n), high, rest);
    DivDiv(high * Pow2(n) + rest, Pow2(n), d);
  }

  /** The quotient by a power of two below `n`: the high part moves up, and the rest is divided. */
  lemma LowQuotient(high: nat, rest: nat, m: nat, d: nat)
    requires d > 0 && rest < m * d
    ensures (high * (m * d) + rest) / d == high * m + rest / d && 0 <= rest / d < m
  {
    var q, r := rest / d, rest % d;
    assert rest == q * d + r;
    assert high * (m * d) == high * m * d;
    assert high * (m * d) + rest == (high * m + q) * d + r;
    DivUnique(high * (m * d) + rest, d, high * m + q, r);
    QuotientBound(rest, m, d);
  }

  lemma QuotientBound(x: nat, m: nat, d: nat)
    requires d > 0 && x < m * d
    ensures x / d < m
  {
    var q := x / d;
    assert q * d <= x;
    assert (q - m) * d == q * d - m * d;
  }

  lemma SameParts(a: nat, b: nat, m: nat, v: nat, w: nat)
    requires v < m && w < m
    ensures a * m + v == b * m + w <==> a == b && v == w
  {
    if a * m + v == b * m + w {
      DivUnique(a * m + v, m, a, v);
      DivUnique(b * m + w, m, b, w);
    }
  }

  lemma SameMultiple(p: nat, q: nat, d: nat)
    requires d > 0
    ensures p * d == q * d <==> p == q
  {
    if p * d == q * d {
      assert (p - q) * d == 0;
      SmallMultiple(p - q, d);
    }
  }
}
