/** The binary-operation launcher: prepares the dimensions, picks a kernel and a width, and runs it. */
module BinaryOpLaunch {
  import opened Arithmetic
  import opened Shapes
  import opened VectorIO
  import opened BinaryOp
  import opened BinaryOpKernels

  datatype Status = OK | InvalidParameter

  /** The widest of 4, 2 and 1 that divides the last output dimension. */
  function VectorWidth(last: nat): (v: nat)
    ensures (v == 1 || v == 2 || v == 4) && last % v == 0
    ensures forall u :: (u == 2 || u == 4) && last % u == 0 ==> u <= v
  {
    if last % 4 == 0 then 4 else if last % 2 == 0 then 2 else 1
  }

  function VecKernel(rank: nat, bcastLhs: bool, v: nat): Kernel
  {
    if rank == 1 then Vec(v) else if rank == 2 then Bcast2D(bcastLhs, v) else Bcast3D(bcastLhs, v)
  }

  /** The kernel for folded dimensions with at most one broadcast. */
  function PickVec(f: Folded, bcastLhs: bool): Kernel
    requires |f.out| > 0
  {
    VecKernel(|f.lhs|, bcastLhs, VectorWidth(f.out[|f.out| - 1]))
  }

  lemma NormalSuits(f: Folded, bcastLhs: bool)
    requires Normal(f, bcastLhs)
    ensures Suits(PickVec(f, bcastLhs), f)
  {
  }

  lemma UnbroadcastSuits(f: Folded, bs: seq<Broadcast>)
    requires f.Valid() && |f.out| > 0 && ListsBroadcasts(f, |f.out|, bs) && |bs| == 0
    ensures Suits(PickVec(f, false), f)
  {
    FoldedShape(f, bs);
    assert f.lhs == f.rhs == f.out;
  }

  lemma OneBroadcastSuits(f: Folded, b: Broadcast)
    requires f.Valid() && |f.out| > 0 && ListsBroadcasts(f, |f.out|, [b])
    ensures var g := Normalised(f, b.dim == 0);
            && |g.out| > 0 && Suits(PickVec(g, b.lhs), g)
            && SameOperands(f.lhs, f.rhs, f.out, g)
  {
    NormalisedShape(f, b);
    NormalisedOperands(f, b);
    NormalSuits(Normalised(f, b.dim == 0), b.lhs);
  }

  /** Folds the padded dimensions. */
  method PrepareFold(lhsDims: Dims, rhsDims: Dims, outDims: Dims) returns (f: Folded)
    requires Compatible(lhsDims, rhsDims, outDims) && |outDims| > 0
    ensures f.Valid() && |f.out| == Runs(Padded(lhsDims, |outDims|), Padded(rhsDims, |outDims|)) > 0
    ensures SameOperands(lhsDims, rhsDims, outDims, f)
  {
    var lhs := PadDims(lhsDims, |outDims|);
    var rhs := PadDims(rhsDims, |outDims|);
    f := Fold(lhs, rhs, outDims);
    FoldDimsCorrect(lhs, rhs, outDims);
    PaddedOperands(lhsDims, rhsDims, outDims, f);
  }

  /** Theorem: the folded and normalised dimensions suit the kernel that is picked for them, and index the
      operands as the original dimensions do. */
  method Prepare(lhsDims: Dims, rhsDims: Dims, outDims: Dims) returns (k: Kernel, f: Folded)
    requires Compatible(lhsDims, rhsDims, outDims) && |outDims| > 0
    requires Runs(Padded(lhsDims, |outDims|), Padded(rhsDims, |outDims|)) <= MAX_DIMS
    ensures Suits(k, f) && SameOperands(lhsDims, rhsDims, outDims, f)
  {
    var folded := PrepareFold(lhsDims, rhsDims, outDims);
    var broadcasted := BroadcastDims(folded);
    if |broadcasted| == 0 {
      UnbroadcastSuits(folded, broadcasted);
      f := folded;
      k := PickVec(f, false);
    } else if |broadcasted| == 1 {
      assert broadcasted == [broadcasted[0]];
      OneBroadcastSuits(folded, broadcasted[0]);
      f := Normalise(folded, broadcasted[0]);
      SameOperandsTransitive(lhsDims, rhsDims, outDims, folded, f);
      k := PickVec(f, broadcasted[0].lhs);
    } else {
      f := folded;
      k := Generic;
    }
  }

  lemma PaddedOperands(lhsDims: Dims, rhsDims: Dims, outDims: Dims, f: Folded)
    requires Compatible(lhsDims, rhsDims, outDims)
    requires SameOperands(Padded(lhsDims, |outDims|), Padded(rhsDims, |outDims|), outDims, f)
    ensures SameOperands(lhsDims, rhsDims, outDims, f)
  {
    var n := |outDims|;
    PaddedIndex(lhsDims, n, outDims, 0);
    PaddedIndex(rhsDims, n, outDims, 0);
    forall x: nat
      ensures SameIndices(lhsDims, rhsDims, outDims, f, x)
    {
      assert SameIndices(Padded(lhsDims, n), Padded(rhsDims, n), outDims, f, x);
      PaddedIndex(lhsDims, n, outDims, x);
      PaddedIndex(rhsDims, n, outDims, x);
    }
  }

  /** Theorem: for compatible dimensions whose folded rank the generic kernel can hold, every output element
      is the operation applied to the elements that broadcasting of the original dimensions selects,
      whatever order the work-items run in. (schedule gives an order for each number of work-items.) */
  method LaunchBinaryop<T>(op: (T, T) -> T, lhs: seq<T>, rhs: seq<T>, lhsDims: Dims, rhsDims: Dims, outDims: Dims,
                           schedule: nat -> seq<nat>, out: array<T>)
    returns (status: Status)
    requires Compatible(lhsDims, rhsDims, outDims) && |outDims| > 0
    requires Runs(Padded(lhsDims, |outDims|), Padded(rhsDims, |outDims|)) <= MAX_DIMS
    requires forall n: nat :: IsSchedule(schedule(n), n)
    modifies out
    ensures Positive(outDims)
    ensures status == OK <==> |lhs| == Total(lhsDims) && |rhs| == Total(rhsDims) && out.Length == Total(outDims)
    ensures status == OK ==>
              forall x :: 0 <= x < out.Length ==> IsElement(op, lhs, rhs, Folded(lhsDims, rhsDims, outDims), x, out[x])
    ensures status != OK ==> out[..] == old(out[..])
  {
    if |lhs| != Total(lhsDims) || |rhs| != Total(rhsDims) || out.Length != Total(outDims) {
      return InvalidParameter;
    }
    var k, f := Prepare(lhsDims, rhsDims, outDims);
    QuotientNonNegative(Total(f.out), k.Width());
    var items := Total(f.out) / k.Width();
    Queue(k, op, schedule(items), lhs, rhs, f, out);
    SameElements(op, lhs, rhs, lhsDims, rhsDims, outDims, f, out[..]);
    return OK;
  }

  lemma SameElements<T>(op: (T, T) -> T, lhs: seq<T>, rhs: seq<T>, lhsDims: Dims, rhsDims: Dims, outDims: Dims,
                        f: Folded, vals: seq<T>)
    requires SameOperands(lhsDims, rhsDims, outDims, f)
    requires forall x :: 0 <= x < |vals| ==> IsElement(op, lhs, rhs, f, x, vals[x])
    ensures forall x :: 0 <= x < |vals| ==> IsElement(op, lhs, rhs, Folded(lhsDims, rhsDims, outDims), x, vals[x])
  {
    forall x | 0 <= x < |vals|
      ensures IsElement(op, lhs, rhs, Folded(lhsDims, rhsDims, outDims), x, vals[x])
    {
      assert SameIndices(lhsDims, rhsDims, outDims, f, x);
    }
  }

  /** Theorem: in coordinates, the output element at id is the operation applied to the left operand's element at id
      and the right one's, in this order, either with its broadcast coordinates dropped to zero. */
  lemma ElementAtCoordinates<T>(op: (T, T) -> T, lhs: seq<T>, rhs: seq<T>, lhsDims: Dims, rhsDims: Dims, outDims: Dims,
                                id: seq<int>, lhsId: seq<int>, rhsId: seq<int>, val: T)
    requires |lhsDims| <= |outDims| && |rhsDims| <= |outDims| && Positive(outDims) && InRange(outDims, id)
    requires |lhsId| == |lhsDims| && |rhsId| == |rhsDims|
    requires forall i :: 0 <= i < |lhsDims| ==>
               lhsId[i] == if lhsDims[i] == 1 then 0 else id[i + |outDims| - |lhsDims|]
    requires forall i :: 0 <= i < |rhsDims| ==>
               rhsId[i] == if rhsDims[i] == 1 then 0 else id[i + |outDims| - |rhsDims|]
    requires IsElement(op, lhs, rhs, Folded(lhsDims, rhsDims, outDims), Ravel(outDims, id), val)
    ensures 0 <= Ravel(lhsDims, lhsId) < |lhs| && 0 <= Ravel(rhsDims, rhsId) < |rhs|
    ensures val == op(lhs[Ravel(lhsDims, lhsId)], rhs[Ravel(rhsDims, rhsId)])
  {
    BroadcastCoordinates(lhsDims, outDims, id, lhsId);
    BroadcastCoordinates(rhsDims, outDims, id, rhsId);
  }

  lemma {:induction false} TotalPositive(dims: Dims)
    requires Total(dims) > 0
    ensures Positive(dims)
  {
    if dims != [] {
      var n := |dims| - 1;
      TotalLast(dims);
      if Total(dims[..n]) > 0 {
        TotalPositive(dims[..n]);
      }
    }
  }

  /** Empty dimensions stand for a scalar. */
  function AtLeastOne(dims: Dims): (r: Dims)
    ensures |r| > 0
  {
    if dims == [] then [1] else dims
  }

  /** The public entry point's checks. Theorem: it accepts the operands exactly when neither rank is too high, no
      dimension is zero, and dimensions aligned at the last one are equal unless one of them is one. It then passes
      on the dimensions as given, [1] in place of none, and the compatible output dimensions. */
  method Validate(lhsDims: Dims, rhsDims: Dims) returns (status: Status, l: Dims, r: Dims, outDims: Dims)
    ensures l == (if |lhsDims| == 0 then [1] else lhsDims) && r == if |rhsDims| == 0 then [1] else rhsDims
    ensures status == OK <==>
              && |lhsDims| <= MAX_DIMS && |rhsDims| <= MAX_DIMS
              && (forall i :: 0 <= i < |lhsDims| ==> lhsDims[i] > 0)
                 && (forall j :: 0 <= j < |rhsDims| ==> rhsDims[j] > 0)
              && forall i, j :: 0 <= i < |lhsDims| && 0 <= j < |rhsDims| && |lhsDims| - i == |rhsDims| - j ==>
                   lhsDims[i] == rhsDims[j] || lhsDims[i] == 1 || rhsDims[j] == 1
    ensures status == OK ==> Compatible(l, r, outDims) && |outDims| == if |l| <= |r| then |r| else |l|
    ensures status == OK ==> Runs(Padded(l, |outDims|), Padded(r, |outDims|)) <= MAX_DIMS
  {
    l, r, outDims := AtLeastOne(lhsDims), AtLeastOne(rhsDims), [];
    if |lhsDims| > MAX_DIMS || |rhsDims| > MAX_DIMS || Total(l) == 0 || Total(r) == 0 {
      return InvalidParameter, l, r, outDims;
    }
    TotalPositive(l);
    TotalPositive(r);
    var ok;
    ok, outDims := ComputeOutDims(l, r);
    if !ok {
      return InvalidParameter, l, r, outDims;
    }
    RunsAtMostRank(Padded(l, |outDims|), Padded(r, |outDims|));
    return OK, l, r, outDims;
  }
}
