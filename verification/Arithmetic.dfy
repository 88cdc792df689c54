/** Integer facts about products, quotients and remainders, kept small so that the proofs that use
    them never face nonlinear arithmetic themselves. */
module Arithmetic {

  lemma QuotientNonNegative(x: int, m: int)
    requires m > 0
    ensures x >= 0 ==> x / m >= 0
  {
  }

  lemma SmallMod(x: int, m: nat)
    requires m > 0
    ensures 0 <= x < m ==> x % m == x
  {
  }

  lemma DivUnique(x: int, m: int, q: int)
    requires m > 0 && q * m <= x < (q + 1) * m
    ensures x / m == q
  {
    var r := x - q * m;
    if x / m > q {
      assert (x / m) * m >= (q + 1) * m by { MulMono(q + 1, x / m, m); }
    } else if x / m < q {
      assert (x / m + 1) * m <= q * m by { MulMono(x / m + 1, q, m); }
    }
  }

  lemma MulMono(a: int, b: int, c: int)
    requires a <= b && c >= 0
    ensures a * c <= b * c
  {
  }

  lemma DivDiv(x: nat, a: nat, b: nat)
    requires a > 0 && b > 0
    ensures a * b > 0
    ensures (x / a) / b == x / (a * b)
  {
    assert a * b > 0 by { MulMono(1, b, a); }
    var y := x / a;
    var q := y / b;
    MulMono(q * b, y, a);
    MulMono(y + 1, (q + 1) * b, a);
    assert (q * b) * a == q * (a * b);
    assert ((q + 1) * b) * a == (q + 1) * (a * b);
    DivUnique(x, a * b, q);
  }

  lemma MulDist(x: int, y: int, z: int)
    ensures x * (y + z) == x * y + x * z
    ensures (y + z) * x == y * x + z * x
  {
  }

  lemma MulAssoc(x: int, y: int, z: int)
    ensures (x * y) * z == x * (y * z)
    ensures (x * y) * z == (x * z) * y
  {
  }

  lemma CancelFactorStrict(x: int, y: int, d: int)
    requires d > 0 && x * d < y * d
    ensures x < y
  {
  }

  lemma QuotientAtMost(x: int, m: int, c: int)
    requires m > 0 && x <= c * m
    ensures x / m <= c
  {
  }

  lemma QuotientBelow(x: int, m: int, c: int)
    requires m > 0 && x < c * m
    ensures x / m < c
  {
  }

  lemma NextMultiple(x: nat, d: nat)
    requires d > 0
    ensures (x / d + 1) * d == x + (d - x % d)
  {
  }

  lemma DoubledDivision(x: nat, div: nat)
    requires div > 0
    ensures x % div < div
    ensures var q, r := 2 * (x / div), 2 * (x % div);
            if r >= div then (2 * x) / div == q + 1 && (2 * x) % div == r - div
            else (2 * x) / div == q && (2 * x) % div == r
  {
    DoubledParts(2 * x, x / div, x % div, div);
  }

  lemma DoubledParts(y: int, q: int, r: int, div: nat)
    requires 0 <= r < div && y == 2 * (q * div + r)
    ensures if 2 * r >= div then y / div == 2 * q + 1 && y % div == 2 * r - div
            else y / div == 2 * q && y % div == 2 * r
  {
    MulAssoc(2, q, div);
    if 2 * r >= div {
      MulDist(div, 2 * q, 1);
      DivModOfSum(2 * q + 1, div, 2 * r - div);
    } else {
      DivModOfSum(2 * q, div, 2 * r);
    }
  }

  lemma HalfQuotient(h: nat, d: nat)
    requires d > 1
    ensures (2 * h) / d <= h
  {
    MulMono(2, d, h);
    QuotientAtMost(2 * h, d, h);
  }

  lemma BelowSquare(a: int, b: int, x: int)
    requires 0 <= a < x && 0 <= b < x
    ensures a * b < x * x
  {
  }

  lemma DivModOfSum(x: int, m: int, r: int)
    requires 0 <= r < m
    ensures (x * m + r) / m == x && (x * m + r) % m == r
  {
    MulDist(m, x, 1);
    DivUnique(x * m + r, m, x);
  }

  lemma PairBound(x: int, n: nat, r: int, m: nat)
    requires 0 <= x < n && 0 <= r < m
    ensures 0 <= x * m + r < Product(n, m)
  {
    MulMono(x + 1, n, m);
    MulMono(0, x, m);
    MulDist(m, x, 1);
  }

  lemma SplitBound(i: int, n: nat, m: nat)
    requires m > 0 && 0 <= i < Product(n, m)
    ensures 0 <= i / m < n && 0 <= i % m < m && i == (i / m) * m + i % m
  {
  }

  lemma QuotientShrinks(x: nat, m: nat)
    requires m > 0
    ensures 0 <= x / m <= x
    ensures x - (x / m) * m == x % m
  {
    MulMono(1, m, x);
    QuotientAtMost(x, m, x);
  }

  lemma NextProduct(a: nat, b: nat)
    ensures Product(a + 1, b) == Product(a, b) + b
  {
    MulDist(b, a, 1);
  }

  /** b added up a times. */
  ghost function Repeated(a: nat, b: nat): nat
  {
    if a == 0 then 0 else Repeated(a - 1, b) + b
  }

  lemma {:induction false} RepeatedIsProduct(a: nat, b: nat)
    ensures Repeated(a, b) == Product(a, b)
  {
    if a > 0 {
      RepeatedIsProduct(a - 1, b);
      NextProduct(a - 1, b);
    }
  }

  lemma NoItems(a: nat, b: nat)
    ensures Product(a, b) > 0 <==> a > 0 && b > 0
  {
    ProductSign(a, b);
  }

  lemma ProductSign(a: nat, b: nat)
    ensures a * b >= 0
    ensures a > 0 && b > 0 ==> a * b > 0
  {
  }

  function Product(a: nat, b: nat): (r: nat)
    ensures a > 0 && b > 0 ==> r > 0
  {
    ProductSign(a, b);
    a * b
  }

  lemma MultipleAbove(x: nat, m: nat)
    requires m > 0
    ensures (x + (m - x % m)) % m == 0
  {
    NextMultiple(x, m);
    DivModOfSum(x / m + 1, m, 0);
  }

  /** When rows hold whole vectors of v elements, so does the buffer. */
  lemma WholeVectors(outer: nat, size: nat, v: nat)
    requires v > 0 && size % v == 0
    ensures Product(outer, size) % v == 0
    ensures Product(outer, size) == (Product(outer, size) / v) * v
  {
    WholeQuotient(Product(outer, size), outer, size, size / v, v);
  }

  lemma WholeQuotient(n: nat, outer: nat, size: nat, q: nat, v: nat)
    requires v > 0 && n == outer * size && size == q * v
    ensures n % v == 0 && n == (n / v) * v
  {
    MulAssoc(outer, q, v);
    DivModOfSum(outer * q, v, 0);
  }

  lemma ModStep(i: nat, m: nat)
    requires m > 0
    ensures (i + m) % m == i % m
  {
    MulDist(m, i / m, 1);
    DivModOfSum(i / m + 1, m, i % m);
  }

  /** Dividing by a product is dividing by its factors in turn. */
  lemma DivModProduct(x: nat, c: nat, m: nat)
    requires c > 0 && m > 0
    ensures Product(c, m) > 0
    ensures x / Product(c, m) == (x / m) / c
    ensures x % Product(c, m) == ((x / m) % c) * m + x % m
  {
    DivDiv(x, m, c);
    ProductSign(c, m);
    var y := x / m;
    assert x == y * m + x % m;
    assert y == (y / c) * c + y % c;
    RemainderOfProduct(x / m / c, (x / m) % c, x % m, c, m);
  }

  lemma RemainderOfProduct(q: nat, r: nat, s: nat, c: nat, m: nat)
    requires r < c && s < m
    ensures ((q * c + r) * m + s) % Product(c, m) == r * m + s
  {
    PairBound(r, c, s, m);
    MulDist(m, q * c, r);
    MulAssoc(q, c, m);
    DivModOfSum(q, Product(c, m), r * m + s);
  }
}
