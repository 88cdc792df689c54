/** Flat and multi-dimensional tensor indices. The last coordinate is the most packed. */
module TensorIndex {
  import opened Arithmetic
  import opened Sums
  import opened FastDivision

  datatype Index2 = Index2(s0: int, s1: int)
  datatype Index3 = Index3(s0: int, s1: int, s2: int)
  datatype Index4 = Index4(s0: int, s1: int, s2: int, s3: int)

  function Unflatten2(index: nat, size1: nat): Index2
    requires size1 > 0
  {
    Index2(index / size1, index % size1)
  }

  function Unflatten3(index: nat, size1: nat, size2: nat): Index3
    requires size1 > 0 && size2 > 0
  {
    var s01 := index / size2;
    Index3(s01 / size1, s01 % size1, index % size2)
  }

  function Unflatten4(index: nat, size1: nat, size2: nat, size3: nat): Index4
    requires size1 > 0 && size2 > 0 && size3 > 0
  {
    var s012 := index / size3;
    var s01 := s012 / size2;
    Index4(s01 / size1, s01 % size1, s012 % size2, index % size3)
  }

  function Flatten4(s0: int, s1: int, s2: int, s3: int, size1: nat, size2: nat, size3: nat): int
  {
    ((s0 * size1 + s1) * size2 + s2) * size3 + s3
  }

  function Size4(size0: nat, size1: nat, size2: nat, size3: nat): nat
  {
    Product(Product(Product(size0, size1), size2), size3)
  }

  lemma Flatten4Bound(s0: int, s1: int, s2: int, s3: int, size0: nat, size1: nat, size2: nat, size3: nat)
    requires 0 <= s0 < size0 && 0 <= s1 < size1 && 0 <= s2 < size2 && 0 <= s3 < size3
    ensures 0 <= Flatten4(s0, s1, s2, s3, size1, size2, size3) < Size4(size0, size1, size2, size3)
  {
    PairBound(s0, size0, s1, size1);
    PairBound(s0 * size1 + s1, Product(size0, size1), s2, size2);
    PairBound((s0 * size1 + s1) * size2 + s2, Product(Product(size0, size1), size2), s3, size3);
  }

  function Flatten3(s0: int, s1: int, s2: int, size1: nat, size2: nat): int
  {
    (s0 * size1 + s1) * size2 + s2
  }

  lemma Flatten3Bound(s0: int, s1: int, s2: int, size0: nat, size1: nat, size2: nat)
    requires 0 <= s0 < size0 && 0 <= s1 < size1 && 0 <= s2 < size2
    ensures 0 <= Flatten3(s0, s1, s2, size1, size2) < Product(Product(size0, size1), size2)
  {
    PairBound(s0, size0, s1, size1);
    PairBound(s0 * size1 + s1, Product(size0, size1), s2, size2);
  }

  lemma UnflattenOfFlatten3(s0: int, s1: int, s2: int, size1: nat, size2: nat)
    requires 0 <= s0 && 0 <= s1 < size1 && 0 <= s2 < size2
    ensures Flatten3(s0, s1, s2, size1, size2) >= 0
    ensures Unflatten3(Flatten3(s0, s1, s2, size1, size2), size1, size2) == Index3(s0, s1, s2)
  {
    Flatten3Bound(s0, s1, s2, s0 + 1, size1, size2);
    DivModOfSum(s0, size1, s1);
    DivModOfSum(s0 * size1 + s1, size2, s2);
  }

  lemma FlattenOfUnflatten3(index: nat, size0: nat, size1: nat, size2: nat)
    requires size1 > 0 && size2 > 0
    requires index < Product(Product(size0, size1), size2)
    ensures var t := Unflatten3(index, size1, size2);
            && 0 <= t.s0 < size0 && 0 <= t.s1 < size1 && 0 <= t.s2 < size2
            && Flatten3(t.s0, t.s1, t.s2, size1, size2) == index
  {
    SplitBound(index, Product(size0, size1), size2);
    SplitBound(index / size2, size0, size1);
  }

  /** Unflattening undoes flattening of coordinates that are in range. */
  lemma UnflattenOfFlatten4(s0: int, s1: int, s2: int, s3: int, size1: nat, size2: nat, size3: nat)
    requires 0 <= s0 && 0 <= s1 < size1 && 0 <= s2 < size2 && 0 <= s3 < size3
    ensures Flatten4(s0, s1, s2, s3, size1, size2, size3) >= 0
    ensures Unflatten4(Flatten4(s0, s1, s2, s3, size1, size2, size3), size1, size2, size3) == Index4(s0, s1, s2, s3)
  {
    Flatten4Bound(s0, s1, s2, s3, s0 + 1, size1, size2, size3);
    DivModOfSum(s0, size1, s1);
    DivModOfSum(s0 * size1 + s1, size2, s2);
    DivModOfSum((s0 * size1 + s1) * size2 + s2, size3, s3);
  }

  /** Flattening undoes unflattening, and every coordinate is in range. */
  lemma FlattenOfUnflatten4(index: nat, size0: nat, size1: nat, size2: nat, size3: nat)
    requires size1 > 0 && size2 > 0 && size3 > 0
    requires index < Size4(size0, size1, size2, size3)
    ensures var t := Unflatten4(index, size1, size2, size3);
            && 0 <= t.s0 < size0 && 0 <= t.s1 < size1 && 0 <= t.s2 < size2 && 0 <= t.s3 < size3
            && Flatten4(t.s0, t.s1, t.s2, t.s3, size1, size2, size3) == index
  {
    SplitBound(index, Product(Product(size0, size1), size2), size3);
    SplitBound(index / size3, Product(size0, size1), size2);
    SplitBound(index / size3 / size2, size0, size1);
  }

  /** Running offsets: how a flat index moves when one coordinate does. */
  lemma FlattenStep(s0: int, s1: int, s2: int, s3: int, size1: nat, size2: nat, size3: nat, k: int)
    ensures Flatten4(s0, s1 + k, s2, s3, size1, size2, size3) ==
            Flatten4(s0, s1, s2, s3, size1, size2, size3) + k * size2 * size3
    ensures Flatten4(s0, s1, s2 + k, s3, size1, size2, size3) ==
            Flatten4(s0, s1, s2, s3, size1, size2, size3) + k * size3
    ensures Flatten4(s0, s1, s2, s3 + k, size1, size2, size3) == Flatten4(s0, s1, s2, s3, size1, size2, size3) + k
  {
  }

  lemma FlattenStep3(s0: int, s1: int, s2: int, size1: nat, size2: nat, k: int)
    ensures Flatten3(s0 + k, s1, s2, size1, size2) == Flatten3(s0, s1, s2, size1, size2) + k * size1 * size2
    ensures Flatten3(s0, s1 + k, s2, size1, size2) == Flatten3(s0, s1, s2, size1, size2) + k * size2
    ensures Flatten3(s0, s1, s2 + k, size1, size2) == Flatten3(s0, s1, s2, size1, size2) + k
  {
  }

  /** The offset of a batch, however its factors are ordered. */
  lemma FlattenBatch(s0: int, s3: int, size1: nat, size2: nat, size3: nat)
    ensures Flatten4(s0, 0, 0, s3, size1, size2, size3) == s0 * size1 * size2 * size3 + s3
    ensures Flatten4(s0, 0, 0, s3, size1, size2, size3) == s0 * size2 * size1 * size3 + s3
  {
  }

  /** Lane l of a work-item on vectors of v innermost elements. */
  lemma LaneOfItem(index: nat, v: nat, l: nat, size0: nat, size1: nat, size2: nat, size3: nat)
    requires v > 0 && size3 % v == 0 && size1 > 0 && size2 > 0 && size3 > 0 && l < v
    requires index < Size4(size0, size1, size2, size3) / v
    ensures size3 / v > 0
    ensures index * v + l < Size4(size0, size1, size2, size3)
    ensures var t := Unflatten4(index, size1, size2, size3 / v);
            && 0 <= t.s0 < size0 && 0 <= t.s1 < size1 && 0 <= t.s2 < size2 && 0 <= t.s3 && 0 <= t.s3 * v + l < size3
            && Unflatten4(index * v + l, size1, size2, size3) == Index4(t.s0, t.s1, t.s2, t.s3 * v + l)
  {
    var q := size3 / v;
    assert size3 == q * v;
    var outer := Product(Product(size0, size1), size2);
    var n := Size4(size0, size1, size2, size3);
    assert n == (outer * q) * v by { MulAssoc(outer, q, v); }
    DivModOfSum(outer * q, v, 0);
    assert index < Size4(size0, size1, size2, q);
    FlattenOfUnflatten4(index, size0, size1, size2, q);
    var t := Unflatten4(index, size1, size2, q);
    PairBound(t.s3, q, l, v);
    var x := (t.s0 * size1 + t.s1) * size2 + t.s2;
    assert index * v == x * size3 + t.s3 * v by {
      MulDist(v, x * q, t.s3);
      MulAssoc(x, q, v);
    }
    assert Flatten4(t.s0, t.s1, t.s2, t.s3 * v + l, size1, size2, size3) == index * v + l;
    Flatten4Bound(t.s0, t.s1, t.s2, t.s3 * v + l, size0, size1, size2, size3);
    UnflattenOfFlatten4(t.s0, t.s1, t.s2, t.s3 * v + l, size1, size2, size3);
  }

  /** The fast variants divide by multiply and shift and recover the remainder by subtraction;
      they agree with the plain ones on every non-negative representable index. */
  method UnflattenFast2(index: nat, div1: FastDiv, size1: nat) returns (t: Index2)
    requires div1.Divides(size1) && index < Pow2(div1.w - 1)
    ensures t == Unflatten2(index, size1)
  {
    QuotientShrinks(index, size1);
    var s0 := div1.Divide(index, size1);
    t := Index2(s0, index - s0 * size1);
  }

  method UnflattenFast3(index: nat, div1: FastDiv, size1: nat, div2: FastDiv, size2: nat) returns (t: Index3)
    requires div1.Divides(size1) && div2.Divides(size2)
    requires div1.w == div2.w && index < Pow2(div1.w - 1)
    ensures t == Unflatten3(index, size1, size2)
  {
    QuotientShrinks(index, size2);
    var s01 := div2.Divide(index, size2);
    QuotientShrinks(s01, size1);
    var s0 := div1.Divide(s01, size1);
    t := Index3(s0, s01 - s0 * size1, index - s01 * size2);
  }

  method UnflattenFast4(index: nat, div1: FastDiv, size1: nat, div2: FastDiv, size2: nat, div3: FastDiv, size3: nat)
    returns (t: Index4)
    requires div1.Divides(size1) && div2.Divides(size2) && div3.Divides(size3)
    requires div1.w == div2.w == div3.w && index < Pow2(div1.w - 1)
    ensures t == Unflatten4(index, size1, size2, size3)
  {
    QuotientShrinks(index, size3);
    var s012 := div3.Divide(index, size3);
    QuotientShrinks(s012, size2);
    var s01 := div2.Divide(s012, size2);
    QuotientShrinks(s01, size1);
    var s0 := div1.Divide(s01, size1);
    t := Index4(s0, s01 - s0 * size1, s012 - s01 * size2, index - s012 * size3);
  }

  lemma SumPairings3(a: nat, b: nat, c: nat, p: (int, int) -> int, q: (int, int) -> int,
                    f: int -> real, g: (int, int, int) -> real)
    requires IsPairing(b, p) && IsPairing(c, q)
    requires forall i, j, k :: 0 <= i < a && 0 <= j < b && 0 <= k < c ==> g(i, j, k) == f(q(p(i, j), k))
    ensures Sum(Product(Product(a, b), c), f) == Sum3(a, b, c, g)
  {
    var h := (x, k) => f(q(x, k));
    var row := x => Sum(c, k => h(x, k));
    var rowG := (i, j) => Sum(c, k => g(i, j, k));
    SumFlatten(Product(a, b), c, q, f, h);
    forall i, j | 0 <= i < a && 0 <= j < b
      ensures rowG(i, j) == row(p(i, j))
    {
      SumExt(c, k => g(i, j, k), k => h(p(i, j), k));
    }
    SumFlatten(a, b, p, row, rowG);
  }

  lemma SumFlatten3(a: nat, b: nat, c: nat, f: int -> real, g: (int, int, int) -> real)
    requires forall i, j, k :: 0 <= i < a && 0 <= j < b && 0 <= k < c ==> g(i, j, k) == f(Flatten3(i, j, k, b, c))
    ensures Sum(Product(Product(a, b), c), f) == Sum3(a, b, c, g)
  {
    SumPairings3(a, b, c, (x, y) => x * b + y, (x, y) => x * c + y, f, g);
  }

  /** A flat sum to which a single innermost coordinate contributes. */
  lemma SumFlatten3Last(a: nat, b: nat, c: nat, k0: int, f: int -> real, g: (int, int) -> real)
    requires 0 <= k0 < c
    requires forall i, j, k :: 0 <= i < a && 0 <= j < b && 0 <= k < c ==>
                f(Flatten3(i, j, k, b, c)) == if k == k0 then g(i, j) else 0.0
    ensures Sum(Product(Product(a, b), c), f) == Sum2(a, b, g)
  {
    var f3 := (i, j, k) => f(Flatten3(i, j, k, b, c));
    SumFlatten3(a, b, c, f, f3);
    Sum3Last(a, b, c, k0, f3, g);
  }

  /** The sum of row x of a table. */
  ghost function TableRow(d: nat, h: (int, int) -> real, x: int): real
  {
    Sum(d, l => h(x, l))
  }

  ghost function CellTotal(d: nat, g: (int, int, int, int) -> real, i: int, j: int, k: int): real
  {
    Sum(d, l => g(i, j, k, l))
  }

  lemma SumPairings4(a: nat, b: nat, c: nat, d: nat,
                     p: (int, int) -> int, q: (int, int) -> int, r: (int, int) -> int,
                     f: int -> real, g: (int, int, int, int) -> real)
    requires IsPairing(b, p) && IsPairing(c, q) && IsPairing(d, r)
    requires forall i, j, k, l :: 0 <= i < a && 0 <= j < b && 0 <= k < c && 0 <= l < d ==>
                g(i, j, k, l) == f(r(q(p(i, j), k), l))
    ensures Sum(Size4(a, b, c, d), f) == Sum4(a, b, c, d, g)
  {
    var h := (x, l) => f(r(x, l));
    var row, cell := x => TableRow(d, h, x), (i, j, k) => CellTotal(d, g, i, j, k);
    SumRows(Product(Product(a, b), c), d, r, f, h, row);
    forall i, j, k | 0 <= i < a && 0 <= j < b && 0 <= k < c
      ensures cell(i, j, k) == row(q(p(i, j), k))
    {
      RowOfPairing(d, q(p(i, j), k), i, j, k, h, g);
    }
    SumPairings3(a, b, c, p, q, row, cell);
    CellsOfSum4(a, b, c, d, g, cell);
  }

  lemma SumRows(m: nat, d: nat, r: (int, int) -> int, f: int -> real, h: (int, int) -> real, row: int -> real)
    requires IsPairing(d, r) && forall x, l :: h(x, l) == f(r(x, l))
    requires forall x :: row(x) == TableRow(d, h, x)
    ensures Sum(Product(m, d), f) == Sum(m, row)
  {
    SumFlatten(m, d, r, f, h);
    Sum2Nested(m, d, h, row);
  }

  lemma RowOfPairing(d: nat, x: int, i: int, j: int, k: int, h: (int, int) -> real, g: (int, int, int, int) -> real)
    requires forall l :: 0 <= l < d ==> g(i, j, k, l) == h(x, l)
    ensures CellTotal(d, g, i, j, k) == TableRow(d, h, x)
  {
    SumExt(d, l => g(i, j, k, l), l => h(x, l));
  }

  lemma CellsOfSum4(a: nat, b: nat, c: nat, d: nat, g: (int, int, int, int) -> real, cell: (int, int, int) -> real)
    requires forall i, j, k :: cell(i, j, k) == CellTotal(d, g, i, j, k)
    ensures Sum4(a, b, c, d, g) == Sum3(a, b, c, cell)
  {
    Sum3Ext(a, b, c, (i, j, k) => Sum(d, l => g(i, j, k, l)), cell);
  }

  /** Summing over flat indices is summing over all four coordinates. */
  lemma SumFlatten4(a: nat, b: nat, c: nat, d: nat, f: int -> real, g: (int, int, int, int) -> real)
    requires forall i, j, k, l :: 0 <= i < a && 0 <= j < b && 0 <= k < c && 0 <= l < d ==>
                g(i, j, k, l) == f(Flatten4(i, j, k, l, b, c, d))
    ensures Sum(Size4(a, b, c, d), f) == Sum4(a, b, c, d, g)
  {
    SumPairings4(a, b, c, d, (x, y) => x * b + y, (x, y) => x * c + y, (x, y) => x * d + y, f, g);
  }

  lemma SumFlatten4Last(a: nat, b: nat, c: nat, d: nat, l0: int, f: int -> real, g: (int, int, int) -> real)
    requires 0 <= l0 < d
    requires forall i, j, k, l :: 0 <= i < a && 0 <= j < b && 0 <= k < c && 0 <= l < d ==>
                f(Flatten4(i, j, k, l, b, c, d)) == if l == l0 then g(i, j, k) else 0.0
    ensures Sum(Size4(a, b, c, d), f) == Sum3(a, b, c, g)
  {
    var f4 := (i, j, k, l) => f(Flatten4(i, j, k, l, b, c, d));
    SumFlatten4(a, b, c, d, f, f4);
    Sum4Last(a, b, c, d, l0, f4, g);
  }

  /** A sum to which only the block of m indices l0*m, ..., l0*m + m-1 contributes. */
  lemma SumBlock(c: nat, m: nat, l0: int, f: int -> real, g: int -> real)
    requires m > 0 && 0 <= l0 < c
    requires forall l :: 0 <= l < Product(c, m) ==> f(l) == if l / m == l0 then g(l % m) else 0.0
    ensures Sum(Product(c, m), f) == Sum(m, g)
  {
    var h := (i, j) => if i == l0 then g(j) else 0.0;
    var p := (x, y) => x * m + y;
    forall i, j | 0 <= i < c && 0 <= j < m
      ensures h(i, j) == f(p(i, j))
    {
      PairBound(i, c, j, m);
      DivModOfSum(i, m, j);
    }
    SumFlatten(c, m, p, f, h);
    var row := i => Sum(m, j => h(i, j));
    forall i | 0 <= i < c
      ensures row(i) == if i == l0 then Sum(m, g) else 0.0
    {
      if i == l0 {
        SumExt(m, j => h(i, j), g);
      } else {
        SumZero(m, j => h(i, j));
      }
    }
    SumDelta(c, l0, row);
  }

  lemma Sum4Block(a: nat, b: nat, c: nat, d: nat, m: nat, i0: int, l0: int,
                  f: (int, int, int, int) -> real, g: (int, int, int) -> real)
    requires m > 0 && 0 <= i0 < a && 0 <= l0 < d
    requires forall i, j, k, l :: 0 <= i < a && 0 <= j < b && 0 <= k < c && 0 <= l < Product(d, m) ==>
                f(i, j, k, l) == if i == i0 && l / m == l0 then g(j, k, l % m) else 0.0
    ensures Sum4(a, b, c, Product(d, m), f) == Sum3(b, c, m, g)
  {
    var n := Product(d, m);
    var row := (i, j, k) => Sum(n, l => f(i, j, k, l));
    var plane := (j, k) => Sum(m, l => g(j, k, l));
    forall i, j, k | 0 <= i < a && 0 <= j < b && 0 <= k < c
      ensures row(i, j, k) == if i == i0 then plane(j, k) else 0.0
    {
      if i == i0 {
        SumBlock(d, m, l0, l => f(i, j, k, l), l => g(j, k, l));
      } else {
        SumZero(n, l => f(i, j, k, l));
      }
    }
    Sum3First(a, b, c, i0, row, plane);
  }

  /** Only first coordinate i0 and the innermost block l0 contribute. */
  lemma SumFlatten4Block(a: nat, b: nat, c: nat, d: nat, m: nat, i0: int, l0: int,
                         f: int -> real, g: (int, int, int) -> real)
    requires m > 0 && 0 <= i0 < a && 0 <= l0 < d
    requires forall i, j, k, l :: 0 <= i < a && 0 <= j < b && 0 <= k < c && 0 <= l < Product(d, m) ==>
                f(Flatten4(i, j, k, l, b, c, Product(d, m))) == if i == i0 && l / m == l0 then g(j, k, l % m) else 0.0
    ensures Sum(Size4(a, b, c, Product(d, m)), f) == Sum3(b, c, m, g)
  {
    var n := Product(d, m);
    var f4 := (i, j, k, l) => f(Flatten4(i, j, k, l, b, c, n));
    SumFlatten4(a, b, c, n, f, f4);
    Sum4Block(a, b, c, d, m, i0, l0, f4, g);
  }
}
