/** The transpose flags of the matrix multiply mean what the transpose operation does: multiplying with a
    flag set is multiplying the transposed tensor with the flag clear. */
module MatmulTranspose {
  import opened Sums
  import opened Adjoints
  import opened TensorIndex
  import opened Shapes
  import opened Transpose
  import opened Matmul

  lemma RavelThree(n0: nat, n1: nat, n2: nat, i: int, j: int, k: int)
    ensures Ravel([n0, n1, n2], [i, j, k]) == Flatten3(i, j, k, n1, n2)
  {
    assert [n0, n1, n2][..2] == [n0, n1] && [i, j, k][..2] == [i, j];
    assert [n0, n1][..1] == [n0] && [i, j][..1] == [i];
    assert [n0][..0] == [] && [i][..0] == [];
    assert Ravel([n0], [i]) == i;
    assert Ravel([n0, n1], [i, j]) == i * n1 + j;
  }

  /** Element (i, k, j) of a tensor whose last two dimensions have been exchanged. */
  lemma ExchangedElement(n0: nat, n1: nat, n2: nat, x: seq<real>, y: seq<real>, i: int, j: int, k: int)
    requires n0 > 0 && n1 > 0 && n2 > 0 && 0 <= i < n0 && 0 <= j < n1 && 0 <= k < n2
    requires IsRequest([n0, n1, n2], [0, 2, 1]) && IsTransposed([n0, n1, n2], [0, 2, 1], x, y)
    ensures At(y, Flatten3(i, k, j, n2, n1)) == At(x, Flatten3(i, j, k, n1, n2))
  {
    var dims, perm, id := [n0, n1, n2], [0, 2, 1], [i, j, k];
    CoordinatesPermuted(dims, perm, x, y, id);
    assert Permuted(dims, perm) == [n0, n2, n1] && Permuted(id, perm) == [i, k, j];
    RavelThree(n0, n1, n2, i, j, k);
    RavelThree(n0, n2, n1, i, k, j);
  }

  ghost predicate Exchanges(n0: nat, n1: nat, n2: nat, x: seq<real>, y: seq<real>)
  {
    IsRequest([n0, n1, n2], [0, 2, 1]) && IsTransposed([n0, n1, n2], [0, 2, 1], x, y)
  }

  lemma TransposedLhs(p: Params, lhs: seq<real>, lhsT: seq<real>, rhs: seq<real>, b: int, r: int, c: int)
    requires !p.transLhs && InOutput(p, b, r, c) && Exchanges(p.batches, p.m, p.k, lhs, lhsT)
    ensures Partial(p.(transLhs := true), lhsT, rhs, b, r, c, p.k) == Partial(p, lhs, rhs, b, r, c, p.k)
  {
    var q := p.(transLhs := true);
    var f := a => Times(At(lhsT, q.LhsIndex(b, r, a)), At(rhs, q.RhsIndex(b, a, c)));
    var g := a => Times(At(lhs, p.LhsIndex(b, r, a)), At(rhs, p.RhsIndex(b, a, c)));
    forall a | 0 <= a < p.k
      ensures f(a) == g(a)
    {
      ExchangedElement(p.batches, p.m, p.k, lhs, lhsT, b, r, a);
    }
    SumExt(p.k, f, g);
  }

  lemma TransposedRhs(p: Params, lhs: seq<real>, rhs: seq<real>, rhsT: seq<real>, b: int, r: int, c: int)
    requires !p.transRhs && InOutput(p, b, r, c) && Exchanges(p.batches, p.k, p.n, rhs, rhsT)
    ensures Partial(p.(transRhs := true), lhs, rhsT, b, r, c, p.k) == Partial(p, lhs, rhs, b, r, c, p.k)
  {
    var q := p.(transRhs := true);
    var f := a => Times(At(lhs, q.LhsIndex(b, r, a)), At(rhsT, q.RhsIndex(b, a, c)));
    var g := a => Times(At(lhs, p.LhsIndex(b, r, a)), At(rhs, p.RhsIndex(b, a, c)));
    forall a | 0 <= a < p.k
      ensures f(a) == g(a)
    {
      ExchangedElement(p.batches, p.k, p.n, rhs, rhsT, b, a, c);
    }
    SumExt(p.k, f, g);
  }
}
