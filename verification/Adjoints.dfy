/** The three linear maps that a ternary relation between index sets defines, and their adjointness. */
module Adjoints {
  import opened Arithmetic
  import opened Sums

  type Relation = (int, int, int) -> bool

  ghost function Masked(on: bool, v: real): real
  {
    if on then v else 0.0
  }

  /** Products of elements, named so that sums of them can be compared term by term. */
  function Times(a: real, b: real): real
  {
    a * b
  }

  ghost function Triple(a: real, b: real, c: real): (r: real)
    ensures r == c * Times(a, b) == b * Times(a, c) == a * Times(b, c)
  {
    a * b * c
  }

  /** Element i of the first result: all b[j]*c[k] that the relation ties to i. */
  ghost function MapFirst(rel: Relation, nb: nat, nc: nat, b: seq<real>, c: seq<real>, i: int): real
  {
    Sum2(nb, nc, (j, k) => Masked(rel(i, j, k), Times(At(b, j), At(c, k))))
  }

  ghost function MapSecond(rel: Relation, na: nat, nc: nat, a: seq<real>, c: seq<real>, j: int): real
  {
    Sum2(na, nc, (i, k) => Masked(rel(i, j, k), Times(At(a, i), At(c, k))))
  }

  ghost function MapThird(rel: Relation, na: nat, nb: nat, a: seq<real>, b: seq<real>, k: int): real
  {
    Sum2(na, nb, (i, j) => Masked(rel(i, j, k), Times(At(a, i), At(b, j))))
  }

  ghost function Trilinear(rel: Relation, a: seq<real>, b: seq<real>, c: seq<real>): real
  {
    Sum3(|a|, |b|, |c|, (i, j, k) => Masked(rel(i, j, k), Triple(At(a, i), At(b, j), At(c, k))))
  }

  lemma MaskedScale(on: bool, c: real, u: real, v: real)
    requires v == c * u
    ensures Masked(on, v) == c * Masked(on, u)
  {
  }

  lemma FirstDot(rel: Relation, a: seq<real>, b: seq<real>, c: seq<real>, r: seq<real>)
    requires |r| == |a| && forall i :: 0 <= i < |a| ==> r[i] == MapFirst(rel, |b|, |c|, b, c, i)
    ensures Dot(a, r) == Trilinear(rel, a, b, c)
  {
    var t := (i, j, k) => Masked(rel(i, j, k), Triple(At(a, i), At(b, j), At(c, k)));
    forall i | 0 <= i < |a|
      ensures At(a, i) * At(r, i) == Sum2(|b|, |c|, (j, k) => t(i, j, k))
    {
      var g, h := (j, k) => Masked(rel(i, j, k), Times(At(b, j), At(c, k))), (j, k) => t(i, j, k);
      forall j, k | 0 <= j < |b| && 0 <= k < |c|
        ensures h(j, k) == At(a, i) * g(j, k)
      {
        MaskedScale(rel(i, j, k), At(a, i), Times(At(b, j), At(c, k)), Triple(At(a, i), At(b, j), At(c, k)));
      }
      Sum2Scale(|b|, |c|, At(a, i), g, h);
    }
    OutermostFirst(|a|, |b|, |c|, t, i => At(a, i) * At(r, i));
  }

  lemma SecondDot(rel: Relation, a: seq<real>, b: seq<real>, c: seq<real>, r: seq<real>)
    requires |r| == |b| && forall j :: 0 <= j < |b| ==> r[j] == MapSecond(rel, |a|, |c|, a, c, j)
    ensures Dot(b, r) == Trilinear(rel, a, b, c)
  {
    var t := (i, j, k) => Masked(rel(i, j, k), Triple(At(a, i), At(b, j), At(c, k)));
    forall j | 0 <= j < |b|
      ensures At(b, j) * At(r, j) == Sum2(|a|, |c|, (i, k) => t(i, j, k))
    {
      var g, h := (i, k) => Masked(rel(i, j, k), Times(At(a, i), At(c, k))), (i, k) => t(i, j, k);
      forall i, k | 0 <= i < |a| && 0 <= k < |c|
        ensures h(i, k) == At(b, j) * g(i, k)
      {
        MaskedScale(rel(i, j, k), At(b, j), Times(At(a, i), At(c, k)), Triple(At(a, i), At(b, j), At(c, k)));
      }
      Sum2Scale(|a|, |c|, At(b, j), g, h);
    }
    OutermostSecond(|a|, |b|, |c|, t, j => At(b, j) * At(r, j));
  }

  lemma ThirdDot(rel: Relation, a: seq<real>, b: seq<real>, c: seq<real>, r: seq<real>)
    requires |r| == |c| && forall k :: 0 <= k < |c| ==> r[k] == MapThird(rel, |a|, |b|, a, b, k)
    ensures Dot(c, r) == Trilinear(rel, a, b, c)
  {
    var t := (i, j, k) => Masked(rel(i, j, k), Triple(At(a, i), At(b, j), At(c, k)));
    forall k | 0 <= k < |c|
      ensures At(c, k) * At(r, k) == Sum2(|a|, |b|, (i, j) => t(i, j, k))
    {
      var g, h := (i, j) => Masked(rel(i, j, k), Times(At(a, i), At(b, j))), (i, j) => t(i, j, k);
      forall i, j | 0 <= i < |a| && 0 <= j < |b|
        ensures h(i, j) == At(c, k) * g(i, j)
      {
        MaskedScale(rel(i, j, k), At(c, k), Times(At(a, i), At(b, j)), Triple(At(a, i), At(b, j), At(c, k)));
      }
      Sum2Scale(|a|, |b|, At(c, k), g, h);
    }
    OutermostThird(|a|, |b|, |c|, t, k => At(c, k) * At(r, k));
  }

  /** When the relation determines one index from the other two, the map is a single sum.
      sel gives the determined index, or a negative number when there is none. */
  ghost function SelectedTerm(b: seq<real>, c: seq<real>, s: int, k: int): real
  {
    Masked(s >= 0, Times(At(b, s), At(c, k)))
  }

  lemma FirstSelectsSecond(rel: Relation, nb: nat, nc: nat, b: seq<real>, c: seq<real>, i: int, sel: int -> int)
    requires forall k :: 0 <= k < nc ==> sel(k) < nb
    requires forall j, k :: 0 <= j < nb && 0 <= k < nc ==> (rel(i, j, k) <==> j == sel(k))
    ensures MapFirst(rel, nb, nc, b, c, i) == Sum(nc, k => SelectedTerm(b, c, sel(k), k))
  {
    var f := (j, k) => Masked(rel(i, j, k), Times(At(b, j), At(c, k)));
    SelectFirst(nb, nc, f, sel, k => SelectedTerm(b, c, sel(k), k));
  }

  lemma SecondSelectsThird(rel: Relation, na: nat, nc: nat, a: seq<real>, c: seq<real>, j: int, sel: int -> int)
    requires forall i :: 0 <= i < na ==> sel(i) < nc
    requires forall i, k :: 0 <= i < na && 0 <= k < nc ==> (rel(i, j, k) <==> k == sel(i))
    ensures MapSecond(rel, na, nc, a, c, j) == Sum(na, i => SelectedTerm(c, a, sel(i), i))
  {
    var f := (i, k) => Masked(rel(i, j, k), Times(At(a, i), At(c, k)));
    SelectSecond(na, nc, f, sel, i => SelectedTerm(c, a, sel(i), i));
  }

  lemma ThirdSelectsSecond(rel: Relation, na: nat, nb: nat, a: seq<real>, b: seq<real>, k: int, sel: int -> int)
    requires forall i :: 0 <= i < na ==> sel(i) < nb
    requires forall i, j :: 0 <= i < na && 0 <= j < nb ==> (rel(i, j, k) <==> j == sel(i))
    ensures MapThird(rel, na, nb, a, b, k) == Sum(na, i => SelectedTerm(b, a, sel(i), i))
  {
    var f := (i, j) => Masked(rel(i, j, k), Times(At(a, i), At(b, j)));
    SelectSecond(na, nb, f, sel, i => SelectedTerm(b, a, sel(i), i));
  }

  type Weights = (int, int) -> real

  /** Row k of the matrix w times x. */
  ghost function MatVec(w: Weights, n: nat, x: seq<real>, k: int): real
  {
    Sum(n, i => Times(w(k, i), At(x, i)))
  }

  /** e times column i of the matrix w. */
  ghost function VecMat(w: Weights, n: nat, e: seq<real>, i: int): real
  {
    Sum(n, k => Times(w(k, i), At(e, k)))
  }

  lemma RowDotted(w: Weights, x: seq<real>, c: real, k: int)
    ensures MatVec(w, |x|, x, k) * c == Sum(|x|, i => Triple(w(k, i), At(x, i), c))
  {
    var f, g := i => Times(w(k, i), At(x, i)), i => Triple(w(k, i), At(x, i), c);
    forall i | 0 <= i < |x|
      ensures g(i) == c * f(i)
    {
      assert Triple(w(k, i), At(x, i), c) == c * Times(w(k, i), At(x, i));
    }
    SumScale(|x|, c, f, g);
  }

  lemma ColumnDotted(w: Weights, e: seq<real>, c: real, i: int)
    ensures c * VecMat(w, |e|, e, i) == Sum(|e|, k => Triple(w(k, i), c, At(e, k)))
  {
    var f, g := k => Times(w(k, i), At(e, k)), k => Triple(w(k, i), c, At(e, k));
    forall k | 0 <= k < |e|
      ensures g(k) == c * f(k)
    {
      assert Triple(w(k, i), c, At(e, k)) == c * Times(w(k, i), At(e, k));
    }
    SumScale(|e|, c, f, g);
  }

  /** Multiplying by a matrix and by its transpose are adjoint. */
  lemma TransposeIsAdjoint(w: Weights, x: seq<real>, e: seq<real>, y: seq<real>, g: seq<real>)
    requires |y| == |e| && forall k :: 0 <= k < |e| ==> y[k] == MatVec(w, |x|, x, k)
    requires |g| == |x| && forall i :: 0 <= i < |x| ==> g[i] == VecMat(w, |e|, e, i)
    ensures Dot(y, e) == Dot(x, g)
  {
    var t := (k, i) => Triple(w(k, i), At(x, i), At(e, k));
    var lhs, rhs := k => At(y, k) * At(e, k), i => At(x, i) * At(g, i);
    forall k | 0 <= k < |e|
      ensures lhs(k) == Sum(|x|, i => t(k, i))
    {
      RowDotted(w, x, At(e, k), k);
      SumExt(|x|, i => Triple(w(k, i), At(x, i), At(e, k)), i => t(k, i));
    }
    forall i | 0 <= i < |x|
      ensures rhs(i) == Sum(|e|, k => t(k, i))
    {
      ColumnDotted(w, e, At(x, i), i);
      SumExt(|e|, k => Triple(w(k, i), At(x, i), At(e, k)), k => t(k, i));
    }
    SumExt(|e|, lhs, k => Sum(|x|, i => t(k, i)));
    SumExt(|x|, rhs, i => Sum(|e|, k => t(k, i)));
    SumSwap(|e|, |x|, t);
  }

  ghost function RowTotal(w: Weights, n: nat, k: int): real
  {
    Sum(n, i => w(k, i))
  }

  lemma RowScaled(w: Weights, n: nat, c: real, k: int)
    ensures Sum(n, i => Times(w(k, i), c)) == Times(RowTotal(w, n, k), c)
  {
    var f, g := i => w(k, i), i => Times(w(k, i), c);
    forall i | 0 <= i < n
      ensures g(i) == c * f(i)
    {
      assert Times(w(k, i), c) == c * w(k, i);
    }
    SumScale(n, c, f, g);
  }

  /** The total that the transpose delivers: each element of e, times the total of its row. */
  lemma TransposeTotal(w: Weights, n: nat, e: seq<real>, g: seq<real>, delivered: int -> real)
    requires |g| == n && forall i :: 0 <= i < n ==> g[i] == VecMat(w, |e|, e, i)
    requires forall k :: 0 <= k < |e| ==> delivered(k) == Times(RowTotal(w, n, k), At(e, k))
    ensures Total(g) == Sum(|e|, delivered)
  {
    var t := (k, i) => Times(w(k, i), At(e, k));
    var column := i => Sum(|e|, k => t(k, i));
    forall i | 0 <= i < n
      ensures At(g, i) == column(i)
    {
      SumExt(|e|, k => Times(w(k, i), At(e, k)), k => t(k, i));
    }
    SumExt(n, i => At(g, i), column);
    SumSwap(|e|, n, t);
    var row := k => Sum(n, i => t(k, i));
    forall k | 0 <= k < |e|
      ensures row(k) == delivered(k)
    {
      RowScaled(w, n, At(e, k), k);
      SumExt(n, i => t(k, i), i => Times(w(k, i), At(e, k)));
    }
    SumExt(|e|, row, delivered);
  }

  lemma MaskedUnit(on: bool, v: real)
    ensures Times(Masked(on, 1.0), v) == Masked(on, v)
  {
  }

  /** A matrix row with a single one selects an element. */
  lemma OneSelected(n: nat, row: int -> real, x: int -> real, j: nat)
    requires j < n && forall i :: 0 <= i < n ==> row(i) == if i == j then 1.0 else 0.0
    ensures Sum(n, row) == 1.0
    ensures Sum(n, i => Times(row(i), x(i))) == x(j)
  {
    SumDelta(n, j, row);
    SumDelta(n, j, i => Times(row(i), x(i)));
  }

  /** Weighting the selected elements by 1/c divides their sum by c. */
  lemma MaskedMean(n: nat, on: int -> bool, c: real, x: int -> real, row: int -> real)
    requires c != 0.0 && forall i :: 0 <= i < n ==> row(i) == Times(Masked(on(i), 1.0 / c), x(i))
    ensures Sum(n, row) == Sum(n, i => Masked(on(i), x(i))) / c
  {
  }

  /** A count of c elements weighted by 1/c each. */
  lemma MaskedOnes(n: nat, on: int -> bool, c: real, row: int -> real)
    requires c != 0.0 && Sum(n, i => Masked(on(i), 1.0)) == c
    requires forall i :: 0 <= i < n ==> row(i) == Masked(on(i), 1.0 / c)
    ensures Sum(n, row) == 1.0
  {
    var f := i => Masked(on(i), 1.0);
    forall i | 0 <= i < n
      ensures row(i) == (1.0 / c) * f(i)
    {
      Reciprocal(on(i), c, 1.0);
    }
    SumScale(n, 1.0 / c, f, row);
  }

  lemma Reciprocal(on: bool, c: real, v: real)
    requires c != 0.0
    ensures Times(Masked(on, 1.0 / c), v) == (1.0 / c) * Masked(on, v) == Masked(on, v / c)
  {
  }

  /** The number of pairs is the product of the numbers of rows and columns. */
  lemma MaskedPairs(a: nat, b: nat, rows: int -> bool, cols: int -> bool, nr: nat, nc: nat, h: (int, int) -> real)
    requires forall i, j :: 0 <= i < a && 0 <= j < b ==> h(i, j) == Masked(rows(i) && cols(j), 1.0)
    requires Sum(a, i => Masked(rows(i), 1.0)) == nr as real && Sum(b, j => Masked(cols(j), 1.0)) == nc as real
    ensures Sum2(a, b, h) == Product(nr, nc) as real
  {
    var f, g := i => Masked(rows(i), 1.0), j => Masked(cols(j), 1.0);
    var row := i => Sum(b, j => h(i, j));
    forall i | 0 <= i < a
      ensures row(i) == nc as real * f(i)
    {
      if rows(i) {
        SumExt(b, j => h(i, j), g);
      } else {
        SumZero(b, j => h(i, j));
      }
    }
    SumScale(a, nc as real, f, row);
  }
}
