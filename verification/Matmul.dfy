/** Batched matrix multiply by register tiles, against the textbook sum. */
module Matmul {
  import opened Arithmetic
  import opened Sums
  import opened Adjoints
  import opened VectorIO
  import opened WindowIndex
  import opened TensorIndex
  import opened MatmulBlocks

  /** output = beta * output + lhs * rhs, each operand stored plain or transposed. */
  datatype Params = Params(batches: nat, m: nat, k: nat, n: nat, transLhs: bool, transRhs: bool, beta: real) {
    function LhsSize(): nat { Product(Product(batches, m), k) }
    function RhsSize(): nat { Product(Product(batches, k), n) }
    function OutSize(): nat { Product(Product(batches, m), n) }

    /** Where row r, column a of the left operand is stored. */
    function LhsIndex(b: int, r: int, a: int): int
    {
      if transLhs then Flatten3(b, a, r, k, m) else Flatten3(b, r, a, m, k)
    }

    function RhsIndex(b: int, a: int, c: int): int
    {
      if transRhs then Flatten3(b, c, a, n, k) else Flatten3(b, a, c, k, n)
    }

    function OutIndex(b: int, r: int, c: int): int
    {
      Flatten3(b, r, c, m, n)
    }

    function LhsLd(): nat { if transLhs then m else k }
    function RhsLd(): nat { if transRhs then k else n }
  }

  datatype TileSizes = TileSizes(row: nat, acc: nat, col: nat) {
    predicate Valid() { row > 0 && acc > 0 && col > 0 }
  }

  /** The part of the output that one work-item computes. */
  datatype Tile = Tile(b: nat, row: nat, col: nat, nr: nat, nc: nat) {
    predicate Inside(p: Params)
    {
      b < p.batches && nr > 0 && nc > 0 && row + nr <= p.m && col + nc <= p.n
    }
  }

  /** The first `count` terms of the inner product for element (r, c). */
  ghost function Partial(p: Params, lhs: seq<real>, rhs: seq<real>, b: int, r: int, c: int, count: nat): real
  {
    Sum(count, a => Times(At(lhs, p.LhsIndex(b, r, a)), At(rhs, p.RhsIndex(b, a, c))))
  }

  /** The textbook result for one element. */
  ghost function Expected(p: Params, lhs: seq<real>, rhs: seq<real>, before: real, b: int, r: int, c: int): real
  {
    Times(before, p.beta) + Partial(p, lhs, rhs, b, r, c, p.k)
  }

  /** Theorem: the whole sum is the inner product of row r of the left operand and column c of the right one, in
      tensors batches x rows x columns, or batches x columns x rows if transposed. */
  lemma InnerProduct(p: Params, lhs: seq<real>, rhs: seq<real>, b: int, r: int, c: int)
    ensures Partial(p, lhs, rhs, b, r, c, p.k) ==
            Sum(p.k, a => At(lhs, if p.transLhs then Flatten3(b, a, r, p.k, p.m) else Flatten3(b, r, a, p.m, p.k))
                          * At(rhs, if p.transRhs then Flatten3(b, c, a, p.n, p.k) else Flatten3(b, a, c, p.k, p.n)))
  {
    SumExt(p.k, a => Times(At(lhs, p.LhsIndex(b, r, a)), At(rhs, p.RhsIndex(b, a, c))), a =>
             At(lhs, if p.transLhs then Flatten3(b, a, r, p.k, p.m) else Flatten3(b, r, a, p.m, p.k))
             * At(rhs, if p.transRhs then Flatten3(b, c, a, p.n, p.k) else Flatten3(b, a, c, p.k, p.n)));
  }

  ghost predicate IsZero(x: seq<real>)
  {
    forall i :: 0 <= i < |x| ==> x[i] == 0.0
  }

  /** Theorem: an operand of zeros, or no terms at all, contributes nothing: the old value is only scaled. */
  lemma ZeroOperand(p: Params, lhs: seq<real>, rhs: seq<real>, before: real, b: int, r: int, c: int)
    requires p.k == 0 || IsZero(lhs) || IsZero(rhs)
    ensures Times(before, p.beta) + Partial(p, lhs, rhs, b, r, c, p.k) == before * p.beta
  {
    SumZero(p.k, a => Times(At(lhs, p.LhsIndex(b, r, a)), At(rhs, p.RhsIndex(b, a, c))));
  }

  /** Theorem: multiplying by the identity matrix from either side gives the other operand. */
  lemma IdentityLhs(p: Params, lhs: seq<real>, rhs: seq<real>, b: int, r: int, c: int)
    requires p.m == p.k && InOutput(p, b, r, c)
    requires forall i, a :: 0 <= i < p.m && 0 <= a < p.k ==> At(lhs, p.LhsIndex(b, i, a)) == if i == a then 1.0 else 0.0
    ensures Partial(p, lhs, rhs, b, r, c, p.k)
            == At(rhs, if p.transRhs then Flatten3(b, c, r, p.n, p.k) else Flatten3(b, r, c, p.k, p.n))
  {
    SumDelta(p.k, r, a => Times(At(lhs, p.LhsIndex(b, r, a)), At(rhs, p.RhsIndex(b, a, c))));
  }

  lemma IdentityRhs(p: Params, lhs: seq<real>, rhs: seq<real>, b: int, r: int, c: int)
    requires p.n == p.k && InOutput(p, b, r, c)
    requires forall a, j :: 0 <= a < p.k && 0 <= j < p.n ==> At(rhs, p.RhsIndex(b, a, j)) == if a == j then 1.0 else 0.0
    ensures Partial(p, lhs, rhs, b, r, c, p.k)
            == At(lhs, if p.transLhs then Flatten3(b, c, r, p.k, p.m) else Flatten3(b, r, c, p.m, p.k))
  {
    SumDelta(p.k, c, a => Times(At(lhs, p.LhsIndex(b, r, a)), At(rhs, p.RhsIndex(b, a, c))));
  }

  ghost predicate InOutput(p: Params, b: int, r: int, c: int)
  {
    0 <= b < p.batches && 0 <= r < p.m && 0 <= c < p.n
  }

  lemma OutIndexBound(p: Params, b: int, r: int, c: int)
    requires InOutput(p, b, r, c)
    ensures 0 <= p.OutIndex(b, r, c) < p.OutSize()
  {
    Flatten3Bound(b, r, c, p.batches, p.m, p.n);
  }

  lemma OutIndexInjective(p: Params, b: int, r: int, c: int, b': int, r': int, c': int)
    requires InOutput(p, b, r, c) && InOutput(p, b', r', c') && p.OutIndex(b, r, c) == p.OutIndex(b', r', c')
    ensures b == b' && r == r' && c == c'
  {
    UnflattenOfFlatten3(b, r, c, p.m, p.n);
    UnflattenOfFlatten3(b', r', c', p.m, p.n);
  }

  /** Every output position is the position of one element. */
  lemma EveryPositionIsAnElement(p: Params, i: nat)
    requires i < p.OutSize()
    ensures p.m > 0 && p.n > 0
    ensures var t := Unflatten3(i, p.m, p.n); InOutput(p, t.s0, t.s1, t.s2) && p.OutIndex(t.s0, t.s1, t.s2) == i
  {
    assert p.m > 0 && p.n > 0;
    FlattenOfUnflatten3(i, p.batches, p.m, p.n);
  }

  lemma LhsElement(p: Params, b: int, row: int, acc: int, i: int, a: int)
    ensures ElementAt(p.transLhs, p.LhsIndex(b, row, acc), p.LhsLd(), i, a) == p.LhsIndex(b, row + i, acc + a)
  {
  }

  lemma RhsElement(p: Params, b: int, acc: int, col: int, a: int, j: int)
    ensures ElementAt(p.transRhs, p.RhsIndex(b, acc, col), p.RhsLd(), a, j) == p.RhsIndex(b, acc + a, col + j)
  {
  }

  lemma LhsIndexBound(p: Params, b: int, r: int, a: int)
    requires 0 <= b < p.batches && 0 <= r < p.m && 0 <= a < p.k
    ensures 0 <= p.LhsIndex(b, r, a) < p.LhsSize()
  {
    if p.transLhs {
      Flatten3Bound(b, a, r, p.batches, p.k, p.m);
      MulAssoc(p.batches, p.k, p.m);
    } else {
      Flatten3Bound(b, r, a, p.batches, p.m, p.k);
    }
  }

  lemma RhsIndexBound(p: Params, b: int, a: int, c: int)
    requires 0 <= b < p.batches && 0 <= a < p.k && 0 <= c < p.n
    ensures 0 <= p.RhsIndex(b, a, c) < p.RhsSize()
  {
    if p.transRhs {
      Flatten3Bound(b, c, a, p.batches, p.n, p.k);
      MulAssoc(p.batches, p.n, p.k);
    } else {
      Flatten3Bound(b, a, c, p.batches, p.k, p.n);
    }
  }

  /** The loads of one step stay inside the left operand. */
  lemma LhsFits(p: Params, t: Tile, acc: nat, na: nat)
    requires t.Inside(p) && na > 0 && acc + na <= p.k
    ensures FitsFor(p.transLhs, p.LhsSize(), p.LhsIndex(t.b, t.row, acc), p.LhsLd(), t.nr, na)
  {
    var input := p.LhsIndex(t.b, t.row, acc);
    if p.transLhs {
      forall a | 0 <= a < na
        ensures 0 <= RowStart(input, p.m, a) && RowStart(input, p.m, a) + t.nr <= p.LhsSize()
      {
        LhsElement(p, t.b, t.row, acc, 0, a);
        LhsElement(p, t.b, t.row, acc, t.nr - 1, a);
        LhsIndexBound(p, t.b, t.row, acc + a);
        LhsIndexBound(p, t.b, t.row + t.nr - 1, acc + a);
      }
    } else {
      forall i | 0 <= i < t.nr
        ensures 0 <= RowStart(input, p.k, i) && RowStart(input, p.k, i) + na <= p.LhsSize()
      {
        LhsElement(p, t.b, t.row, acc, i, 0);
        LhsElement(p, t.b, t.row, acc, i, na - 1);
        LhsIndexBound(p, t.b, t.row + i, acc);
        LhsIndexBound(p, t.b, t.row + i, acc + na - 1);
      }
    }
  }

  lemma RhsFits(p: Params, t: Tile, acc: nat, na: nat)
    requires t.Inside(p) && na > 0 && acc + na <= p.k
    ensures FitsFor(p.transRhs, p.RhsSize(), p.RhsIndex(t.b, acc, t.col), p.RhsLd(), na, t.nc)
  {
    var input := p.RhsIndex(t.b, acc, t.col);
    if p.transRhs {
      forall j | 0 <= j < t.nc
        ensures 0 <= RowStart(input, p.k, j) && RowStart(input, p.k, j) + na <= p.RhsSize()
      {
        RhsElement(p, t.b, acc, t.col, 0, j);
        RhsElement(p, t.b, acc, t.col, na - 1, j);
        RhsIndexBound(p, t.b, acc, t.col + j);
        RhsIndexBound(p, t.b, acc + na - 1, t.col + j);
      }
    } else {
      forall a | 0 <= a < na
        ensures 0 <= RowStart(input, p.n, a) && RowStart(input, p.n, a) + t.nc <= p.RhsSize()
      {
        RhsElement(p, t.b, acc, t.col, a, 0);
        RhsElement(p, t.b, acc, t.col, a, t.nc - 1);
        RhsIndexBound(p, t.b, acc + a, t.col);
        RhsIndexBound(p, t.b, acc + a, t.col + t.nc - 1);
      }
    }
  }

  lemma OutFits(p: Params, t: Tile)
    requires t.Inside(p)
    ensures Fits(p.OutSize(), p.OutIndex(t.b, t.row, t.col), p.n, t.nr, t.nc)
  {
    var output := p.OutIndex(t.b, t.row, t.col);
    forall i | 0 <= i < t.nr
      ensures 0 <= RowStart(output, p.n, i) && RowStart(output, p.n, i) + t.nc <= p.OutSize()
    {
      OutElement(p, t, i, 0);
      OutElement(p, t, i, t.nc - 1);
      OutIndexBound(p, t.b, t.row + i, t.col);
      OutIndexBound(p, t.b, t.row + i, t.col + t.nc - 1);
    }
  }

  lemma OutElement(p: Params, t: Tile, i: int, j: int)
    ensures RowStart(p.OutIndex(t.b, t.row, t.col), p.n, i) + j == p.OutIndex(t.b, t.row + i, t.col + j)
  {
  }

  /** The accumulator holds its initial contents plus the first `count` terms of every valid element. */
  ghost predicate Holds(p: Params, lhs: seq<real>, rhs: seq<real>, t: Tile, init: seq<seq<real>>, block: seq<seq<real>>,
                        count: nat)
  {
    forall i, j :: 0 <= i < t.nr && 0 <= j < t.nc ==>
      Cell(block, i, j) == Cell(init, i, j) + Partial(p, lhs, rhs, t.b, t.row + i, t.col + j, count)
  }

  lemma HoldsAtStart(p: Params, lhs: seq<real>, rhs: seq<real>, t: Tile, init: seq<seq<real>>)
    ensures Holds(p, lhs, rhs, t, init, init, 0)
  {
    forall r, c
      ensures Partial(p, lhs, rhs, t.b, r, c, 0) == 0.0
    {
    }
  }

  /** The row of lhs and the column of rhs that a step loaded, zero beyond na. */
  ghost predicate LoadedLhs(p: Params, lhs: seq<real>, t: Tile, block: seq<seq<real>>, acc: nat, accs: nat, na: nat)
  {
    forall i, a :: 0 <= i < t.nr && 0 <= a < accs ==>
      Cell(block, i, a) == if a < na then At(lhs, p.LhsIndex(t.b, t.row + i, acc + a)) else 0.0
  }

  ghost predicate LoadedRhs(p: Params, rhs: seq<real>, t: Tile, block: seq<seq<real>>, acc: nat, accs: nat, na: nat)
  {
    forall a, j :: 0 <= a < accs && 0 <= j < t.nc ==>
      Cell(block, a, j) == if a < na then At(rhs, p.RhsIndex(t.b, acc + a, t.col + j)) else 0.0
  }

  lemma PartialStep(p: Params, lhs: seq<real>, rhs: seq<real>, t: Tile, lb: seq<seq<real>>, rb: seq<seq<real>>,
                    acc: nat, accs: nat, na: nat, i: nat, j: nat)
    requires na <= accs && i < t.nr && j < t.nc && i < |lb|
    requires LoadedLhs(p, lhs, t, lb, acc, accs, na) && LoadedRhs(p, rhs, t, rb, acc, accs, na)
    ensures Partial(p, lhs, rhs, t.b, t.row + i, t.col + j, acc) + RowDot(lb[i], rb, j, accs)
            == Partial(p, lhs, rhs, t.b, t.row + i, t.col + j, acc + na)
  {
    var r, c := t.row + i, t.col + j;
    var f := a => Times(At(lhs, p.LhsIndex(t.b, r, a)), At(rhs, p.RhsIndex(t.b, a, c)));
    var g := a => Times(At(lb[i], a), Cell(rb, a, j));
    var h := a => f(acc + a);
    forall a | 0 <= a < na
      ensures g(a) == h(a)
    {
      assert Cell(lb, i, a) == At(lhs, p.LhsIndex(t.b, r, acc + a));
      assert Cell(rb, a, j) == At(rhs, p.RhsIndex(t.b, acc + a, c));
    }
    forall a | na <= a < accs
      ensures g(a) == 0.0
    {
      assert Cell(lb, i, a) == 0.0;
    }
    SumTail(na, accs, g);
    SumExt(na, g, h);
    SumConcat(acc, na, f);
  }

  /** One step of the main loop, or the tail. */
  lemma HoldsStep(p: Params, lhs: seq<real>, rhs: seq<real>, t: Tile, init: seq<seq<real>>, before: seq<seq<real>>,
                  after: seq<seq<real>>, lb: seq<seq<real>>, rb: seq<seq<real>>, acc: nat, accs: nat, na: nat)
    requires na <= accs && t.nr <= |lb|
    requires Holds(p, lhs, rhs, t, init, before, acc)
    requires LoadedLhs(p, lhs, t, lb, acc, accs, na) && LoadedRhs(p, rhs, t, rb, acc, accs, na)
    requires forall i, j :: 0 <= i < t.nr && 0 <= j < t.nc ==>
             Cell(after, i, j) == Cell(before, i, j) + RowDot(lb[i], rb, j, accs)
    ensures Holds(p, lhs, rhs, t, init, after, acc + na)
  {
    forall i, j | 0 <= i < t.nr && 0 <= j < t.nc
      ensures Cell(after, i, j) == Cell(init, i, j) + Partial(p, lhs, rhs, t.b, t.row + i, t.col + j, acc + na)
    {
      PartialStep(p, lhs, rhs, t, lb, rb, acc, accs, na, i, j);
    }
  }

  ghost predicate ProblemSizes(p: Params, lhs: seq<real>, rhs: seq<real>)
  {
    |lhs| == p.LhsSize() && |rhs| == p.RhsSize()
  }

  /** The multiply-accumulate of one step, whichever way the two blocks were loaded. */
  method MultiplyStep(p: Params, s: TileSizes, ghost t: Tile, ghost lhs: seq<real>, ghost rhs: seq<real>,
                      lhsBlock: array<seq<real>>, rhsBlock: array<seq<real>>, outBlock: array<seq<real>>,
                      ghost init: seq<seq<real>>, ghost acc: nat, ghost na: nat)
    requires na <= s.acc && t.nr <= s.row && t.nc <= s.col
    requires IsBlock(lhsBlock, s.row, s.acc) && IsBlock(rhsBlock, s.acc, s.col) && IsBlock(outBlock, s.row, s.col)
    requires outBlock != lhsBlock && outBlock != rhsBlock
    requires LoadedLhs(p, lhs, t, lhsBlock[..], acc, s.acc, na) && LoadedRhs(p, rhs, t, rhsBlock[..], acc, s.acc, na)
    requires Holds(p, lhs, rhs, t, init, outBlock[..], acc)
    modifies outBlock
    ensures IsBlock(outBlock, s.row, s.col)
    ensures Holds(p, lhs, rhs, t, init, outBlock[..], acc + na)
  {
    ghost var before, lb, rb := outBlock[..], lhsBlock[..], rhsBlock[..];
    BlockMmacc(lhsBlock, rhsBlock, outBlock, s.row, s.acc, s.col);
    forall i, j | 0 <= i < t.nr && 0 <= j < t.nc
      ensures Cell(outBlock[..], i, j) == Cell(before, i, j) + RowDot(lb[i], rb, j, s.acc)
    {
      assert outBlock[i][j] == before[i][j] + RowDot(lhsBlock[i], rb, j, s.acc);
    }
    HoldsStep(p, lhs, rhs, t, init, before, outBlock[..], lb, rb, acc, s.acc, na);
  }

  /** A step with masked loads. */
  method AccumulateBlock(p: Params, s: TileSizes, ghost t: Tile, lhs: seq<real>, rhs: seq<real>, lhsPtr: int,
                         rhsPtr: int,
                         validRow: seq<bool>, validCol: seq<bool>, validAcc: seq<bool>, outBlock: array<seq<real>>,
                         ghost init: seq<seq<real>>, ghost acc: nat, ghost na: nat)
    requires ProblemSizes(p, lhs, rhs) && s.Valid() && t.Inside(p) && na > 0 && acc + na <= p.k
    requires IsMask(validRow, s.row, t.nr) && IsMask(validCol, s.col, t.nc) && IsMask(validAcc, s.acc, na)
    requires lhsPtr == p.LhsIndex(t.b, t.row, acc) && rhsPtr == p.RhsIndex(t.b, acc, t.col)
    requires IsBlock(outBlock, s.row, s.col) && Holds(p, lhs, rhs, t, init, outBlock[..], acc)
    modifies outBlock
    ensures IsBlock(outBlock, s.row, s.col) && Holds(p, lhs, rhs, t, init, outBlock[..], acc + na)
  {
    LhsFits(p, t, acc, na);
    RhsFits(p, t, acc, na);
    var lhsBlock := LoadMasked(p.transLhs, lhs, lhsPtr, p.LhsLd(), s.row, s.acc, validRow, validAcc, t.nr, na);
    var rhsBlock := LoadMasked(p.transRhs, rhs, rhsPtr, p.RhsLd(), s.acc, s.col, validAcc, validCol, na, t.nc);
    forall i, a | 0 <= i < t.nr && 0 <= a < s.acc
      ensures Cell(lhsBlock[..], i, a) == if a < na then At(lhs, p.LhsIndex(t.b, t.row + i, acc + a)) else 0.0
    {
      LhsElement(p, t.b, t.row, acc, i, a);
      assert Cell(lhsBlock[..], i, a) == lhsBlock[i][a];
    }
    forall a, j | 0 <= a < s.acc && 0 <= j < t.nc
      ensures Cell(rhsBlock[..], a, j) == if a < na then At(rhs, p.RhsIndex(t.b, acc + a, t.col + j)) else 0.0
    {
      RhsElement(p, t.b, acc, t.col, a, j);
      assert Cell(rhsBlock[..], a, j) == rhsBlock[a][j];
    }
    MultiplyStep(p, s, t, lhs, rhs, lhsBlock, rhsBlock, outBlock, init, acc, na);
  }

  /** A step that loads whole blocks. */
  method AccumulateInternal(p: Params, s: TileSizes, ghost t: Tile, lhs: seq<real>, rhs: seq<real>, lhsPtr: int,
                            rhsPtr: int, outBlock: array<seq<real>>, ghost init: seq<seq<real>>, ghost acc: nat)
    requires ProblemSizes(p, lhs, rhs) && s.Valid() && t.Inside(p) && acc + s.acc <= p.k && t.nr == s.row
    requires t.nc == s.col
    requires lhsPtr == p.LhsIndex(t.b, t.row, acc) && rhsPtr == p.RhsIndex(t.b, acc, t.col)
    requires IsBlock(outBlock, s.row, s.col) && Holds(p, lhs, rhs, t, init, outBlock[..], acc)
    modifies outBlock
    ensures IsBlock(outBlock, s.row, s.col) && Holds(p, lhs, rhs, t, init, outBlock[..], acc + s.acc)
  {
    LhsFits(p, t, acc, s.acc);
    RhsFits(p, t, acc, s.acc);
    var lhsBlock := LoadUnmasked(p.transLhs, lhs, lhsPtr, p.LhsLd(), s.row, s.acc);
    var rhsBlock := LoadUnmasked(p.transRhs, rhs, rhsPtr, p.RhsLd(), s.acc, s.col);
    forall i, a | 0 <= i < t.nr && 0 <= a < s.acc
      ensures Cell(lhsBlock[..], i, a) == At(lhs, p.LhsIndex(t.b, t.row + i, acc + a))
    {
      LhsElement(p, t.b, t.row, acc, i, a);
      assert Cell(lhsBlock[..], i, a) == lhsBlock[i][a];
    }
    forall a, j | 0 <= a < s.acc && 0 <= j < t.nc
      ensures Cell(rhsBlock[..], a, j) == At(rhs, p.RhsIndex(t.b, acc + a, t.col + j))
    {
      RhsElement(p, t.b, acc, t.col, a, j);
      assert Cell(rhsBlock[..], a, j) == rhsBlock[a][j];
    }
    MultiplyStep(p, s, t, lhs, rhs, lhsBlock, rhsBlock, outBlock, init, acc, s.acc);
  }

  /** The tile of a work-item, cut off at the matrix edges. */
  function TileOf(p: Params, s: TileSizes, b: nat, row: nat, col: nat): Tile
    requires row < p.m && col < p.n
  {
    Tile(b, row, col, Min(s.row, p.m - row), Min(s.col, p.n - col))
  }

  function Mask(size: nat, start: nat, bound: nat): (mask: seq<bool>)
    ensures |mask| == size && forall i :: 0 <= i < size ==> (mask[i] <==> start + i < bound)
  {
    seq(size, i => start + i < bound)
  }

  /** Tiles that divide the matrix never stick out. */
  lemma WholeTile(id: nat, tile: nat, bound: nat)
    requires tile > 0 && bound % tile == 0 && id * tile < bound
    ensures id * tile + tile <= bound
  {
    CancelFactorStrict(id, bound / tile, tile);
    MulMono(id + 1, bound / tile, tile);
    MulDist(tile, id, 1);
  }

  lemma SameMultiple(x: nat, y: nat, d: nat)
    requires d > 0 && x % d == 0 && y % d == 0 && x <= y < x + d
    ensures x == y
  {
    if x < y {
      ResidueGap(x, y, d);
    }
  }

  /** The accumulator's initial contents: zero, or beta times what the output holds. */
  method InitialBlock(p: Params, s: TileSizes, ghost t: Tile, outPtr: int, validRow: seq<bool>, validCol: seq<bool>,
                      output: array<real>)
    returns (outBlock: array<seq<real>>)
    requires s.Valid() && t.Inside(p) && IsMask(validRow, s.row, t.nr) && IsMask(validCol, s.col, t.nc)
    requires output.Length == p.OutSize() && outPtr == p.OutIndex(t.b, t.row, t.col)
    ensures fresh(outBlock) && IsBlock(outBlock, s.row, s.col)
    ensures forall i, j :: 0 <= i < t.nr && 0 <= j < t.nc ==>
              Cell(outBlock[..], i, j) == Times(At(output[..], p.OutIndex(t.b, t.row + i, t.col + j)), p.beta)
  {
    if p.beta != 0.0 {
      OutFits(p, t);
      outBlock := LoadBlockMasked(output[..], outPtr, p.n, s.row, s.col, validRow, validCol, t.nr, t.nc);
      ghost var loaded := outBlock[..];
      ScalarMultiply(outBlock, s.row, s.col, p.beta);
      forall i, j | 0 <= i < t.nr && 0 <= j < t.nc
        ensures Cell(outBlock[..], i, j) == Times(At(output[..], p.OutIndex(t.b, t.row + i, t.col + j)), p.beta)
      {
        OutElement(p, t, i, j);
        assert outBlock[i][j] == Times(loaded[i][j], p.beta);
      }
    } else {
      outBlock := new seq<real>[s.row](_ => Splat(0.0, s.col));
    }
  }

  /** The accumulation loops of one work-item: the unchecked one, then the checked one and its tail. */
  method AccumulateTile(p: Params, s: TileSizes, checkBounds: bool, ghost t: Tile, lhsStart: int, rhsStart: int,
                        validRow: seq<bool>, validCol: seq<bool>, lhs: seq<real>, rhs: seq<real>,
                          outBlock: array<seq<real>>)
    requires ProblemSizes(p, lhs, rhs) && s.Valid() && t.Inside(p)
    requires lhsStart == p.LhsIndex(t.b, t.row, 0) && rhsStart == p.RhsIndex(t.b, 0, t.col)
    requires IsMask(validRow, s.row, t.nr) && IsMask(validCol, s.col, t.nc)
    requires !checkBounds ==> t.nr == s.row && t.nc == s.col && p.k % s.acc == 0
    requires IsBlock(outBlock, s.row, s.col)
    modifies outBlock
    ensures IsBlock(outBlock, s.row, s.col)
    ensures Holds(p, lhs, rhs, t, old(outBlock[..]), outBlock[..], p.k)
  {
    var internal := validRow[s.row - 1] && validCol[s.col - 1];
    var lhsStep := (if p.transLhs then p.m else 1) * s.acc;
    var rhsStep := (if p.transRhs then 1 else p.n) * s.acc;
    ghost var init := outBlock[..];
    HoldsAtStart(p, lhs, rhs, t, init);
    var lhsPtr, rhsPtr, accIdx := lhsStart, rhsStart, 0;
    if !checkBounds || internal {
      while accIdx < p.k - s.acc + 1
        invariant accIdx <= p.k && accIdx % s.acc == 0
        invariant lhsPtr == p.LhsIndex(t.b, t.row, accIdx) && rhsPtr == p.RhsIndex(t.b, accIdx, t.col)
        invariant IsBlock(outBlock, s.row, s.col) && true == Holds(p, lhs, rhs, t, init, outBlock[..], accIdx)
      {
        AccumulateInternal(p, s, t, lhs, rhs, lhsPtr, rhsPtr, outBlock, init, accIdx);
        NextPointers(p, t, accIdx, s.acc);
        ModStep(accIdx, s.acc);
        lhsPtr, rhsPtr, accIdx := lhsPtr + lhsStep, rhsPtr + rhsStep, accIdx + s.acc;
      }
    }
    if checkBounds {
      while accIdx < p.k - s.acc + 1
        invariant accIdx <= p.k
        invariant lhsPtr == p.LhsIndex(t.b, t.row, accIdx) && rhsPtr == p.RhsIndex(t.b, accIdx, t.col)
        invariant IsBlock(outBlock, s.row, s.col) && true == Holds(p, lhs, rhs, t, init, outBlock[..], accIdx)
      {
        AccumulateBlock(p, s, t, lhs, rhs, lhsPtr, rhsPtr, validRow, validCol, Splat(true, s.acc), outBlock, init,
                        accIdx, s.acc);
        NextPointers(p, t, accIdx, s.acc);
        lhsPtr, rhsPtr, accIdx := lhsPtr + lhsStep, rhsPtr + rhsStep, accIdx + s.acc;
      }
      if accIdx < p.k {
        AccumulateBlock(p, s, t, lhs, rhs, lhsPtr, rhsPtr, validRow, validCol, Mask(s.acc, accIdx, p.k), outBlock, init,
                        accIdx, p.k - accIdx);
      }
    } else {
      SameMultiple(accIdx, p.k, s.acc);
    }
  }

  /** The finished block of one work-item. */
  method ComputeTile(p: Params, s: TileSizes, checkBounds: bool, ghost t: Tile, lhsStart: int, rhsStart: int,
                     outPtr: int,
                     validRow: seq<bool>, validCol: seq<bool>, lhs: seq<real>, rhs: seq<real>, output: array<real>)
    returns (outBlock: array<seq<real>>)
    requires ProblemSizes(p, lhs, rhs) && output.Length == p.OutSize() && s.Valid() && t.Inside(p)
    requires lhsStart == p.LhsIndex(t.b, t.row, 0) && rhsStart == p.RhsIndex(t.b, 0, t.col)
    requires outPtr == p.OutIndex(t.b, t.row, t.col)
    requires IsMask(validRow, s.row, t.nr) && IsMask(validCol, s.col, t.nc)
    requires !checkBounds ==> t.nr == s.row && t.nc == s.col && p.k % s.acc == 0
    ensures fresh(outBlock) && IsBlock(outBlock, s.row, s.col)
    ensures forall i, j :: 0 <= i < t.nr && 0 <= j < t.nc ==>
              Cell(outBlock[..], i, j)
              == Expected(p, lhs, rhs, At(output[..], p.OutIndex(t.b, t.row + i, t.col + j)), t.b, t.row + i, t.col + j)
  {
    outBlock := InitialBlock(p, s, t, outPtr, validRow, validCol, output);
    AccumulateTile(p, s, checkBounds, t, lhsStart, rhsStart, validRow, validCol, lhs, rhs, outBlock);
  }

  lemma NextPointers(p: Params, t: Tile, acc: nat, accs: nat)
    ensures p.LhsIndex(t.b, t.row, acc) + (if p.transLhs then p.m else 1) * accs == p.LhsIndex(t.b, t.row, acc + accs)
    ensures p.RhsIndex(t.b, acc, t.col) + (if p.transRhs then 1 else p.n) * accs == p.RhsIndex(t.b, acc + accs, t.col)
  {
  }

  lemma StartPointers(p: Params, b: nat, row: nat, col: nat)
    ensures b * p.m * p.k + (if p.transLhs then row else p.k * row) == p.LhsIndex(b, row, 0)
    ensures b * p.k * p.n + (if p.transRhs then col * p.k else col) == p.RhsIndex(b, 0, col)
    ensures b * p.m * p.n + (p.n * row + col) == p.OutIndex(b, row, col)
  {
  }

  /** The elements of tile t. */
  ghost predicate InTile(t: Tile, b: int, r: int, c: int)
  {
    b == t.b && t.row <= r < t.row + t.nr && t.col <= c < t.col + t.nc
  }

  /** The elements that `done` selects hold their results, the others are as before. */
  ghost predicate Progress(p: Params, lhs: seq<real>, rhs: seq<real>, before: seq<real>, after: seq<real>,
                           done: (int, int, int) -> bool)
  {
    && |after| == |before|
    && forall b, r, c :: InOutput(p, b, r, c) ==>
         At(after, p.OutIndex(b, r, c)) ==
         if done(b, r, c) then Expected(p, lhs, rhs, At(before, p.OutIndex(b, r, c)), b, r, c)
           else At(before, p.OutIndex(b, r, c))
  }

  /** Storing a tile changes its own elements and no other. */
  lemma StoredIsProgress(p: Params, lhs: seq<real>, rhs: seq<real>, t: Tile, block: seq<seq<real>>, before: seq<real>,
                         after: seq<real>)
    requires t.Inside(p) && |before| == p.OutSize()
    requires Stored(block, before, after, p.OutIndex(t.b, t.row, t.col), p.n, t.nr, t.nc)
    requires forall i, j :: 0 <= i < t.nr && 0 <= j < t.nc ==>
               Cell(block, i, j)
                 == Expected(p, lhs, rhs, At(before, p.OutIndex(t.b, t.row + i, t.col + j)), t.b, t.row + i, t.col + j)
    ensures Progress(p, lhs, rhs, before, after, (b, r, c) => InTile(t, b, r, c))
  {
    forall b, r, c | InOutput(p, b, r, c)
      ensures At(after, p.OutIndex(b, r, c)) ==
              if InTile(t, b, r, c) then Expected(p, lhs, rhs, At(before, p.OutIndex(b, r, c)), b, r, c)
                else At(before, p.OutIndex(b, r, c))
    {
      OutIndexBound(p, b, r, c);
      if InTile(t, b, r, c) {
        OutElement(p, t, r - t.row, c - t.col);
        assert At(after, RowStart(p.OutIndex(t.b, t.row, t.col), p.n, r - t.row) + (c - t.col))
          == Cell(block, r - t.row, c - t.col);
      } else {
        NotCovered(p, t, b, r, c);
      }
    }
  }

  lemma NotCovered(p: Params, t: Tile, b: int, r: int, c: int)
    requires t.Inside(p) && InOutput(p, b, r, c) && !InTile(t, b, r, c)
    ensures !Covers(p.OutIndex(t.b, t.row, t.col), p.n, t.nr, t.nc, p.OutIndex(b, r, c))
  {
    var output, k := p.OutIndex(t.b, t.row, t.col), p.OutIndex(b, r, c);
    if i :| 0 <= i < t.nr && RowStart(output, p.n, i) <= k < RowStart(output, p.n, i) + t.nc {
      var j := k - RowStart(output, p.n, i);
      OutElement(p, t, i, j);
      OutIndexInjective(p, b, r, c, t.b, t.row + i, t.col + j);
    }
  }

  datatype Item = Item(b: nat, row: nat, col: nat)

  /** The elements work-item `id` is responsible for. */
  ghost predicate Responsible(s: TileSizes, id: Item, b: int, r: int, c: int)
  {
    b == id.b && Owns(id.row, s.row, r) && Owns(id.col, s.col, c)
  }

  /** One work-item of the kernel. */
  method MatmulItem(p: Params, s: TileSizes, checkBounds: bool, id: Item, lhs: seq<real>, rhs: seq<real>,
                    output: array<real>)
    requires ProblemSizes(p, lhs, rhs) && output.Length == p.OutSize() && s.Valid() && id.b < p.batches
    requires !checkBounds ==> p.m % s.row == 0 && p.k % s.acc == 0 && p.n % s.col == 0
    modifies output
    ensures Progress(p, lhs, rhs, old(output[..]), output[..], (b, r, c) => Responsible(s, id, b, r, c))
  {
    ProductSign(id.row, s.row);
    ProductSign(id.col, s.col);
    var row, col := id.row * s.row, id.col * s.col;
    ghost var responsible := (b, r, c) => Responsible(s, id, b, r, c);
    if row < p.m && col < p.n {
      var lhsPtr := id.b * p.m * p.k + (if p.transLhs then row else p.k * row);
      var rhsPtr := id.b * p.k * p.n + (if p.transRhs then col * p.k else col);
      var outPtr := id.b * p.m * p.n + (p.n * row + col);
      StartPointers(p, id.b, row, col);
      var validRow, validCol := Mask(s.row, row, p.m), Mask(s.col, col, p.n);
      ghost var t := TileOf(p, s, id.b, row, col);
      if !checkBounds {
        WholeTile(id.row, s.row, p.m);
        WholeTile(id.col, s.col, p.n);
      }
      var outBlock := ComputeTile(p, s, checkBounds, t, lhsPtr, rhsPtr, outPtr, validRow, validCol, lhs, rhs, output);
      OutFits(p, t);
      if !checkBounds || (validRow[s.row - 1] && validCol[s.col - 1]) {
        StoreBlock(outBlock, s.row, s.col, output, outPtr, p.n);
      } else {
        StoreBlockMasked(outBlock, s.row, s.col, output, outPtr, p.n, validRow, validCol, t.nr, t.nc);
      }
      StoredIsProgress(p, lhs, rhs, t, outBlock[..], old(output[..]), output[..]);
    }
  }

  /** An execution order of a three-dimensional range: every work-item occurs, and occurs once. */
  ghost predicate IsGridSchedule(order: seq<Item>, batches: nat, rows: nat, cols: nat)
  {
    && (forall i :: 0 <= i < |order| ==> order[i].b < batches && order[i].row < rows && order[i].col < cols)
    && (forall id: Item :: id.b < batches && id.row < rows && id.col < cols ==> id in order)
    && (forall i, j :: 0 <= i < j < |order| ==> order[i] != order[j])
  }

  ghost predicate Visited(s: TileSizes, order: seq<Item>, n: nat, b: int, r: int, c: int)
  {
    exists i :: 0 <= i < n && i < |order| && Responsible(s, order[i], b, r, c)
  }

  lemma OneResponsible(s: TileSizes, id: Item, id': Item, b: int, r: nat, c: nat)
    requires s.Valid() && Responsible(s, id, b, r, c) && Responsible(s, id', b, r, c)
    ensures id == id'
  {
    OwnerIsQuotient(id.row, s.row, r);
    OwnerIsQuotient(id'.row, s.row, r);
    OwnerIsQuotient(id.col, s.col, c);
    OwnerIsQuotient(id'.col, s.col, c);
  }

  /** Running one more work-item: its elements had not been touched before. */
  lemma VisitNext(p: Params, s: TileSizes, order: seq<Item>, n: nat, lhs: seq<real>, rhs: seq<real>,
                  start: seq<real>, before: seq<real>, after: seq<real>)
    requires s.Valid() && n < |order| && forall i, j :: 0 <= i < j < |order| ==> order[i] != order[j]
    requires Progress(p, lhs, rhs, start, before, (b, r, c) => Visited(s, order, n, b, r, c))
    requires Progress(p, lhs, rhs, before, after, (b, r, c) => Responsible(s, order[n], b, r, c))
    ensures Progress(p, lhs, rhs, start, after, (b, r, c) => Visited(s, order, n + 1, b, r, c))
  {
    forall b, r, c | InOutput(p, b, r, c)
      ensures At(after, p.OutIndex(b, r, c)) ==
              if Visited(s, order, n + 1, b, r, c) then Expected(p, lhs, rhs, At(start, p.OutIndex(b, r, c)), b, r, c)
              else At(start, p.OutIndex(b, r, c))
    {
      if Responsible(s, order[n], b, r, c) && Visited(s, order, n, b, r, c) {
        var i :| 0 <= i < n && Responsible(s, order[i], b, r, c);
        OneResponsible(s, order[i], order[n], b, r, c);
      }
    }
  }

  /** The grid has a work-item for every element. */
  lemma EveryElementVisited(p: Params, s: TileSizes, order: seq<Item>, batches: nat, rows: nat, cols: nat, b: int,
                            r: int, c: int)
    requires s.Valid() && InOutput(p, b, r, c) && IsGridSchedule(order, batches, rows, cols)
    requires batches >= p.batches && rows >= RoundRatioUp(p.m, s.row) && cols >= RoundRatioUp(p.n, s.col)
    ensures Visited(s, order, |order|, b, r, c)
  {
    QuotientShrinks(r, s.row);
    QuotientShrinks(c, s.col);
    QuotientBelow(r, s.row, rows) by { MulMono(RoundRatioUp(p.m, s.row), rows, s.row); }
    QuotientBelow(c, s.col, cols) by { MulMono(RoundRatioUp(p.n, s.col), cols, s.col); }
    var id := Item(b, r / s.row, c / s.col);
    OwnerIsQuotient(id.row, s.row, r);
    OwnerIsQuotient(id.col, s.col, c);
    assert id in order;
  }

  /** Theorem: in any order of the work-items, every output element receives beta times its old value
      plus its inner product, exactly once. Batches are not guarded in the kernel, so they must fill
      their work-groups. */
  method LaunchMatmul(p: Params, s: TileSizes, wgRow: nat, wgCol: nat, wgBatch: nat, order: seq<Item>,
                      lhs: seq<real>, rhs: seq<real>, output: array<real>)
    requires ProblemSizes(p, lhs, rhs) && output.Length == p.OutSize() && s.Valid()
    requires wgRow > 0 && wgCol > 0 && wgBatch > 0 && p.batches % wgBatch == 0
    requires IsGridSchedule(order, RoundUpToNearestMultiple(p.batches, wgBatch),
                            RoundUpToNearestMultiple(RoundRatioUp(p.m, s.row), wgRow),
                            RoundUpToNearestMultiple(RoundRatioUp(p.n, s.col), wgCol))
    modifies output
    ensures forall b, r, c :: InOutput(p, b, r, c) ==>
              At(output[..], Flatten3(b, r, c, p.m, p.n))
                == Times(At(old(output[..]), Flatten3(b, r, c, p.m, p.n)), p.beta) + Partial(p, lhs, rhs, b, r, c, p.k)
  {
    var checkBounds := !(p.m % s.row == 0 && p.k % s.acc == 0 && p.n % s.col == 0);
    ghost var start := output[..];
    for n := 0 to |order|
      invariant true == Progress(p, lhs, rhs, start, output[..], (b, r, c) => Visited(s, order, n, b, r, c))
    {
      ghost var before := output[..];
      MatmulItem(p, s, checkBounds, order[n], lhs, rhs, output);
      VisitNext(p, s, order, n, lhs, rhs, start, before, output[..]);
    }
    forall b, r, c | InOutput(p, b, r, c)
      ensures At(output[..], Flatten3(b, r, c, p.m, p.n))
              == Times(At(start, Flatten3(b, r, c, p.m, p.n)), p.beta) + Partial(p, lhs, rhs, b, r, c, p.k)
    {
      EveryElementVisited(p, s, order, RoundUpToNearestMultiple(p.batches, wgBatch),
                          RoundUpToNearestMultiple(RoundRatioUp(p.m, s.row), wgRow),
                          RoundUpToNearestMultiple(RoundRatioUp(p.n, s.col), wgCol), b, r, c);
    }
  }

  /** The launched range has a work-item that starts past the output exactly when the batches do not
      fill their work-groups. */
  lemma BatchesMustFillGroups(p: Params, wgBatch: nat)
    requires p.m > 0 && p.n > 0 && wgBatch > 0
    ensures (exists b: nat :: b < RoundUpToNearestMultiple(p.batches, wgBatch) && p.OutIndex(b, 0, 0) >= p.OutSize())
            <==> p.batches % wgBatch != 0
  {
    assert p.OutIndex(p.batches, 0, 0) == p.OutSize();
    forall b: nat | b < p.batches
      ensures p.OutIndex(b, 0, 0) < p.OutSize()
    {
      OutIndexBound(p, b, 0, 0);
    }
  }
}
