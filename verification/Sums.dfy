/** Finite sums over an index range, and the laws that let an index space be rewritten
    without changing the sum: extensionality, linearity, exchange, flattening, selection. */
module Sums {
  import opened Arithmetic

  /** f(0) + ... + f(n-1) */
  ghost function Sum(n: nat, f: int -> real): real
  {
    if n == 0 then 0.0 else Sum(n - 1, f) + f(n - 1)
  }

  lemma {:induction false} SumExt(n: nat, f: int -> real, g: int -> real)
    requires forall i :: 0 <= i < n ==> f(i) == g(i)
    ensures Sum(n, f) == Sum(n, g)
  {
    if n > 0 {
      SumExt(n - 1, f, g);
    }
  }

  lemma {:induction false} SumZero(n: nat, f: int -> real)
    requires forall i :: 0 <= i < n ==> f(i) == 0.0
    ensures Sum(n, f) == 0.0
  {
    if n > 0 {
      SumZero(n - 1, f);
    }
  }

  /** Terms from m on are zero, so summation may stop at m. */
  lemma {:induction false} SumTail(m: nat, n: nat, f: int -> real)
    requires m <= n
    requires forall i :: m <= i < n ==> f(i) == 0.0
    ensures Sum(n, f) == Sum(m, f)
  {
    if m < n {
      SumTail(m, n - 1, f);
    }
  }

  lemma {:induction false} SumAdd(n: nat, f: int -> real, g: int -> real, h: int -> real)
    requires forall i :: 0 <= i < n ==> h(i) == f(i) + g(i)
    ensures Sum(n, h) == Sum(n, f) + Sum(n, g)
  {
    if n > 0 {
      SumAdd(n - 1, f, g, h);
    }
  }

  lemma {:induction false} SumScale(n: nat, c: real, f: int -> real, g: int -> real)
    requires forall i :: 0 <= i < n ==> g(i) == c * f(i)
    ensures Sum(n, g) == c * Sum(n, f)
  {
    if n > 0 {
      SumScale(n - 1, c, f, g);
    }
  }

  /** A sum with at most one nonzero term. */
  lemma {:induction false} SumDelta(n: nat, j: int, f: int -> real)
    requires forall i :: 0 <= i < n && i != j ==> f(i) == 0.0
    ensures Sum(n, f) == if 0 <= j < n then f(j) else 0.0
  {
    if n > 0 {
      if j == n - 1 {
        SumZero(n - 1, f);
      } else {
        SumDelta(n - 1, j, f);
      }
    }
  }

  lemma {:induction false} SumConcat(m: nat, n: nat, f: int -> real)
    ensures Sum(m + n, f) == Sum(m, f) + Sum(n, i => f(m + i))
  {
    if n > 0 {
      SumConcat(m, n - 1, f);
    }
  }

  /** Adding the upper half of the terms onto the lower half keeps the sum. */
  lemma SumHalves(half: nat, above: int -> real, here: int -> real)
    requires forall t :: 0 <= t < half ==> here(t) == above(t) + above(half + t)
    ensures Sum(half, here) == Sum(half + half, above)
  {
    SumConcat(half, half, above);
    SumAdd(half, above, t => above(half + t), here);
  }

  /** Exchange of two summations. */
  lemma {:induction false} SumSwap(m: nat, n: nat, f: (int, int) -> real)
    ensures Sum(m, i => Sum(n, j => f(i, j))) == Sum(n, j => Sum(m, i => f(i, j)))
  {
    if m == 0 {
      SumZero(n, j => Sum(m, i => f(i, j)));
    } else {
      SumSwap(m - 1, n, f);
      SumAdd(n, j => Sum(m - 1, i => f(i, j)), j => f(m - 1, j), j => Sum(m, i => f(i, j)));
    }
  }

  /** The terms whose index is r modulo m. */
  ghost function ResidueSum(n: nat, m: nat, r: int, f: int -> real): real
    requires m > 0
  {
    Sum(n, i => if i % m == r then f(i) else 0.0)
  }

  /** Splitting a range by residue modulo m: every index has exactly one residue. */
  lemma SumResidues(n: nat, m: nat, f: int -> real)
    requires m > 0
    ensures Sum(n, f) == Sum(m, r => ResidueSum(n, m, r, f))
  {
    var g := (i: int, r: int) => if i % m == r then f(i) else 0.0;
    forall i | 0 <= i < n
      ensures f(i) == Sum(m, r => g(i, r))
    {
      SumDelta(m, i % m, r => g(i, r));
    }
    SumExt(n, f, i => Sum(m, r => g(i, r)));
    SumSwap(n, m, g);
    forall r | 0 <= r < m
      ensures Sum(n, i => g(i, r)) == ResidueSum(n, m, r, f)
    {
      SumExt(n, i => g(i, r), i => if i % m == r then f(i) else 0.0);
    }
    SumExt(m, r => Sum(n, i => g(i, r)), r => ResidueSum(n, m, r, f));
  }

  function Min(a: int, b: int): int { if a < b then a else b }

  /** A strided loop adds the terms of its residue one stride at a time. */
  lemma ResidueStart(n: nat, m: nat, r: nat, f: int -> real)
    requires m > 0 && n <= r < m
    ensures ResidueSum(n, m, r, f) == 0.0
  {
    forall i | 0 <= i < n
      ensures i % m == i
    {
      SmallMod(i, m);
    }
    SumZero(n, i => if i % m == r then f(i) else 0.0);
  }

  lemma ResidueStep(n: nat, m: nat, r: nat, i: nat, f: int -> real)
    requires m > 0 && i < n && i % m == r
    ensures ResidueSum(Min(i + m, n), m, r, f) == ResidueSum(i, m, r, f) + f(i)
  {
    var g := k => if k % m == r then f(k) else 0.0;
    forall k | i + 1 <= k < Min(i + m, n)
      ensures g(k) == 0.0
    {
      ResidueGap(i, k, m);
    }
    SumTail(i + 1, Min(i + m, n), g);
  }

  lemma ResidueGap(i: nat, k: nat, m: nat)
    requires i < k < i + m
    ensures k % m != i % m
  {
    if k % m == i % m {
      MulDist(m, k / m, -(i / m));
      assert (k / m - i / m) * m == k - i;
      if k / m - i / m >= 1 {
        MulMono(1, k / m - i / m, m);
      } else {
        MulMono(k / m - i / m, 0, m);
      }
    }
  }

  /** Summation over the columns of a residue class commutes with another summation. */
  lemma ResidueOfSums(n: nat, m: nat, r: int, a: nat, f: (int, int) -> real)
    requires m > 0
    ensures Sum(a, k => ResidueSum(n, m, r, i => f(k, i))) == ResidueSum(n, m, r, i => Sum(a, k => f(k, i)))
  {
    var g := (k, i) => if i % m == r then f(k, i) else 0.0;
    var row := k => ResidueSum(n, m, r, i => f(k, i));
    var rowG := k => Sum(n, i => g(k, i));
    forall k | 0 <= k < a
      ensures row(k) == rowG(k)
    {
      var h := i => f(k, i);
      SumExt(n, i => if i % m == r then h(i) else 0.0, i => g(k, i));
    }
    SumExt(a, row, rowG);
    SumSwap(a, n, g);
    var col := i => Sum(a, k => f(k, i));
    var colG, colM := i => Sum(a, k => g(k, i)), i => if i % m == r then col(i) else 0.0;
    forall i | 0 <= i < n
      ensures colG(i) == colM(i)
    {
      if i % m == r {
        SumExt(a, k => g(k, i), k => f(k, i));
      } else {
        SumZero(a, k => g(k, i));
      }
    }
    SumExt(n, colG, colM);
  }

  lemma ResidueExt(n: nat, m: nat, r: int, f: int -> real, g: int -> real)
    requires m > 0 && forall i :: 0 <= i < n ==> f(i) == g(i)
    ensures ResidueSum(n, m, r, f) == ResidueSum(n, m, r, g)
  {
    SumExt(n, i => if i % m == r then f(i) else 0.0, i => if i % m == r then g(i) else 0.0);
  }

  /** Nested sums over two, three and four coordinates, the last one innermost. */
  ghost function Sum2(a: nat, b: nat, f: (int, int) -> real): real
  {
    Sum(a, i => Sum(b, j => f(i, j)))
  }

  ghost function Sum3(a: nat, b: nat, c: nat, f: (int, int, int) -> real): real
  {
    Sum2(a, b, (i, j) => Sum(c, k => f(i, j, k)))
  }

  ghost function Sum4(a: nat, b: nat, c: nat, d: nat, f: (int, int, int, int) -> real): real
  {
    Sum3(a, b, c, (i, j, k) => Sum(d, l => f(i, j, k, l)))
  }

  lemma Sum2Ext(a: nat, b: nat, f: (int, int) -> real, g: (int, int) -> real)
    requires forall i, j :: 0 <= i < a && 0 <= j < b ==> f(i, j) == g(i, j)
    ensures Sum2(a, b, f) == Sum2(a, b, g)
  {
    var rowF, rowG := i => Sum(b, j => f(i, j)), i => Sum(b, j => g(i, j));
    forall i | 0 <= i < a
      ensures rowF(i) == rowG(i)
    {
      SumExt(b, j => f(i, j), j => g(i, j));
    }
    SumExt(a, rowF, rowG);
  }

  /** Nested sums given by their partial sums. */
  lemma Sum2Nested(a: nat, b: nat, f: (int, int) -> real, row: int -> real)
    requires forall i :: 0 <= i < a ==> row(i) == Sum(b, j => f(i, j))
    ensures Sum2(a, b, f) == Sum(a, row)
  {
    SumExt(a, i => Sum(b, j => f(i, j)), row);
  }

  lemma Sum3Nested(a: nat, b: nat, c: nat, f: (int, int, int) -> real, cell: (int, int) -> real, row: int -> real)
    requires forall i, j :: 0 <= i < a && 0 <= j < b ==> cell(i, j) == Sum(c, k => f(i, j, k))
    requires forall i :: 0 <= i < a ==> row(i) == Sum(b, j => cell(i, j))
    ensures Sum3(a, b, c, f) == Sum(a, row)
  {
    Sum2Ext(a, b, (i, j) => Sum(c, k => f(i, j, k)), cell);
    Sum2Nested(a, b, cell, row);
  }

  lemma Sum3Ext(a: nat, b: nat, c: nat, f: (int, int, int) -> real, g: (int, int, int) -> real)
    requires forall i, j, k :: 0 <= i < a && 0 <= j < b && 0 <= k < c ==> f(i, j, k) == g(i, j, k)
    ensures Sum3(a, b, c, f) == Sum3(a, b, c, g)
  {
    var rowF, rowG := (i, j) => Sum(c, k => f(i, j, k)), (i, j) => Sum(c, k => g(i, j, k));
    forall i, j | 0 <= i < a && 0 <= j < b
      ensures rowF(i, j) == rowG(i, j)
    {
      SumExt(c, k => f(i, j, k), k => g(i, j, k));
    }
    Sum2Ext(a, b, rowF, rowG);
  }

  /** p enumerates rows of n indices. (A parameter, so that products stay out of the proofs.) */
  ghost predicate IsPairing(n: nat, p: (int, int) -> int)
  {
    forall i, j :: p(i, j) == i * n + j
  }

  /** A flat range of m*n indices is m rows of n. */
  lemma {:induction false} SumFlatten(m: nat, n: nat, p: (int, int) -> int, f: int -> real, g: (int, int) -> real)
    requires IsPairing(n, p)
    requires forall i, j :: 0 <= i < m && 0 <= j < n ==> g(i, j) == f(p(i, j))
    ensures m * n >= 0
    ensures Sum(m * n, f) == Sum2(m, n, g)
  {
    if m > 0 {
      SumFlatten(m - 1, n, p, f, g);
      var base := (m - 1) * n;
      assert m * n == base + n;
      SumConcat(base, n, f);
      var row, rowG := j => f(base + j), j => g(m - 1, j);
      forall j | 0 <= j < n
        ensures row(j) == rowG(j)
      {
        assert p(m - 1, j) == base + j;
      }
      SumExt(n, row, rowG);
    }
  }

  lemma Sum2Scale(a: nat, b: nat, c: real, f: (int, int) -> real, g: (int, int) -> real)
    requires forall i, j :: 0 <= i < a && 0 <= j < b ==> g(i, j) == c * f(i, j)
    ensures Sum2(a, b, g) == c * Sum2(a, b, f)
  {
    var rowF, rowG := i => Sum(b, j => f(i, j)), i => Sum(b, j => g(i, j));
    forall i | 0 <= i < a
      ensures rowG(i) == c * rowF(i)
    {
      RowScale(b, c, i, f, g);
    }
    SumScale(a, c, rowF, rowG);
  }

  lemma RowScale(b: nat, c: real, i: int, f: (int, int) -> real, g: (int, int) -> real)
    requires forall j :: 0 <= j < b ==> g(i, j) == c * f(i, j)
    ensures Sum(b, j => g(i, j)) == c * Sum(b, j => f(i, j))
  {
    var rowF, rowG := j => f(i, j), j => g(i, j);
    SumScale(b, c, rowF, rowG);
  }

  /** A triple sum may be taken with any one of its coordinates outermost. */
  lemma OutermostFirst(a: nat, b: nat, c: nat, t: (int, int, int) -> real, u: int -> real)
    requires forall i :: 0 <= i < a ==> u(i) == Sum2(b, c, (j, k) => t(i, j, k))
    ensures Sum(a, u) == Sum3(a, b, c, t)
  {
    var plane := (i, j) => Sum(c, k => t(i, j, k));
    var slab := i => Sum(b, j => plane(i, j));
    forall i | 0 <= i < a
      ensures u(i) == slab(i)
    {
      var g := (j, k) => t(i, j, k);
      var row := j => Sum(c, k => g(j, k));
      forall j | 0 <= j < b
        ensures row(j) == plane(i, j)
      {
        SumExt(c, k => g(j, k), k => t(i, j, k));
      }
      SumExt(b, row, j => plane(i, j));
    }
    SumExt(a, u, slab);
  }

  lemma OutermostSecond(a: nat, b: nat, c: nat, t: (int, int, int) -> real, u: int -> real)
    requires forall j :: 0 <= j < b ==> u(j) == Sum2(a, c, (i, k) => t(i, j, k))
    ensures Sum(b, u) == Sum3(a, b, c, t)
  {
    var plane := (i, j) => Sum(c, k => t(i, j, k));
    var slab := j => Sum(a, i => plane(i, j));
    forall j | 0 <= j < b
      ensures u(j) == slab(j)
    {
      var g := (i, k) => t(i, j, k);
      var row := i => Sum(c, k => g(i, k));
      forall i | 0 <= i < a
        ensures row(i) == plane(i, j)
      {
        SumExt(c, k => g(i, k), k => t(i, j, k));
      }
      SumExt(a, row, i => plane(i, j));
    }
    SumExt(b, u, slab);
    SumSwap(a, b, plane);
  }

  lemma OutermostThird(a: nat, b: nat, c: nat, t: (int, int, int) -> real, u: int -> real)
    requires forall k :: 0 <= k < c ==> u(k) == Sum2(a, b, (i, j) => t(i, j, k))
    ensures Sum(c, u) == Sum3(a, b, c, t)
  {
    var plane := (i, k) => Sum(b, j => t(i, j, k));
    var slab := k => Sum(a, i => plane(i, k));
    forall k | 0 <= k < c
      ensures u(k) == slab(k)
    {
      var g := (i, j) => t(i, j, k);
      var row := i => Sum(b, j => g(i, j));
      forall i | 0 <= i < a
        ensures row(i) == plane(i, k)
      {
        SumExt(b, j => g(i, j), j => t(i, j, k));
      }
      SumExt(a, row, i => plane(i, k));
    }
    SumExt(c, u, slab);
    SumSwap(a, c, plane);
    var depth := (i, j) => Sum(c, k => t(i, j, k));
    var column, column' := i => Sum(c, k => plane(i, k)), i => Sum(b, j => depth(i, j));
    forall i | 0 <= i < a
      ensures column(i) == column'(i)
    {
      var f := (j, k) => t(i, j, k);
      SumSwap(b, c, f);
      var inner := k => Sum(b, j => f(j, k));
      forall k | 0 <= k < c
        ensures inner(k) == plane(i, k)
      {
        SumExt(b, j => f(j, k), j => t(i, j, k));
      }
      SumExt(c, inner, k => plane(i, k));
      var outer := j => Sum(c, k => f(j, k));
      forall j | 0 <= j < b
        ensures outer(j) == depth(i, j)
      {
        SumExt(c, k => f(j, k), k => t(i, j, k));
      }
      SumExt(b, outer, j => depth(i, j));
    }
    SumExt(a, column, column');
  }

  /** Only the first coordinate i0 contributes. */
  lemma Sum3First(a: nat, b: nat, c: nat, i0: int, f: (int, int, int) -> real, g: (int, int) -> real)
    requires 0 <= i0 < a
    requires forall i, j, k :: 0 <= i < a && 0 <= j < b && 0 <= k < c ==> f(i, j, k) == if i == i0 then g(j, k) else 0.0
    ensures Sum3(a, b, c, f) == Sum2(b, c, g)
  {
    var row := (i, j) => Sum(c, k => f(i, j, k));
    var slab := i => Sum(b, j => row(i, j));
    forall i | 0 <= i < a && i != i0
      ensures slab(i) == 0.0
    {
      forall j | 0 <= j < b
        ensures row(i, j) == 0.0
      {
        SumZero(c, k => f(i, j, k));
      }
      SumZero(b, j => row(i, j));
    }
    SumDelta(a, i0, slab);
    var plane := j => Sum(c, k => g(j, k));
    forall j | 0 <= j < b
      ensures row(i0, j) == plane(j)
    {
      SumExt(c, k => f(i0, j, k), k => g(j, k));
    }
    SumExt(b, j => row(i0, j), plane);
  }

  lemma Sum3Last(a: nat, b: nat, c: nat, k0: int, f: (int, int, int) -> real, g: (int, int) -> real)
    requires 0 <= k0 < c
    requires forall i, j, k :: 0 <= i < a && 0 <= j < b && 0 <= k < c && k != k0 ==> f(i, j, k) == 0.0
    requires forall i, j :: 0 <= i < a && 0 <= j < b ==> g(i, j) == f(i, j, k0)
    ensures Sum3(a, b, c, f) == Sum2(a, b, g)
  {
    var row := (i, j) => Sum(c, k => f(i, j, k));
    forall i, j | 0 <= i < a && 0 <= j < b
      ensures row(i, j) == g(i, j)
    {
      SumDelta(c, k0, k => f(i, j, k));
    }
    Sum2Ext(a, b, row, g);
  }

  /** For each second coordinate at most one first coordinate, sel(j), contributes. */
  lemma SelectFirst(a: nat, b: nat, f: (int, int) -> real, sel: int -> int, h: int -> real)
    requires forall i, j :: 0 <= i < a && 0 <= j < b && i != sel(j) ==> f(i, j) == 0.0
    requires forall j :: 0 <= j < b ==> h(j) == if 0 <= sel(j) < a then f(sel(j), j) else 0.0
    ensures Sum2(a, b, f) == Sum(b, h)
  {
    SumSwap(a, b, f);
    var column := j => Sum(a, i => f(i, j));
    forall j | 0 <= j < b
      ensures column(j) == h(j)
    {
      SumDelta(a, sel(j), i => f(i, j));
    }
    SumExt(b, column, h);
  }

  lemma SelectSecond(a: nat, b: nat, f: (int, int) -> real, sel: int -> int, h: int -> real)
    requires forall i, j :: 0 <= i < a && 0 <= j < b && j != sel(i) ==> f(i, j) == 0.0
    requires forall i :: 0 <= i < a ==> h(i) == if 0 <= sel(i) < b then f(i, sel(i)) else 0.0
    ensures Sum2(a, b, f) == Sum(a, h)
  {
    var row := i => Sum(b, j => f(i, j));
    forall i | 0 <= i < a
      ensures row(i) == h(i)
    {
      SumDelta(b, sel(i), j => f(i, j));
    }
    SumExt(a, row, h);
  }

  lemma Sum4Last(a: nat, b: nat, c: nat, d: nat, l0: int, f: (int, int, int, int) -> real, g: (int, int, int) -> real)
    requires 0 <= l0 < d
    requires forall i, j, k, l :: 0 <= i < a && 0 <= j < b && 0 <= k < c && 0 <= l < d ==>
                f(i, j, k, l) == if l == l0 then g(i, j, k) else 0.0
    ensures Sum4(a, b, c, d, f) == Sum3(a, b, c, g)
  {
    var row := (i, j, k) => Sum(d, l => f(i, j, k, l));
    forall i, j, k | 0 <= i < a && 0 <= j < b && 0 <= k < c
      ensures row(i, j, k) == g(i, j, k)
    {
      SumDelta(d, l0, l => f(i, j, k, l));
    }
    Sum3Ext(a, b, c, row, g);
  }

  /** Buffer access that is total, so that it may be used under a summation. */
  ghost function At(s: seq<real>, i: int): real
  {
    if 0 <= i < |s| then s[i] else 0.0
  }

  ghost function Total(s: seq<real>): real
  {
    Sum(|s|, i => At(s, i))
  }

  ghost function Dot(a: seq<real>, b: seq<real>): real
  {
    Sum(|a|, i => At(a, i) * At(b, i))
  }
}
