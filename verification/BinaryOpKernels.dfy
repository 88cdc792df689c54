/** The binary-operation kernels: one work-item of each, and the launch that runs them all. */
module BinaryOpKernels {
  import opened Arithmetic
  import opened TensorIndex
  import opened Shapes
  import opened VectorIO
  import opened BinaryOp

  /** The kernel functors; v is the vector width. The 2D and 3D ones exist for either broadcast side. */
  datatype Kernel =
    | Generic
    | Vec(v: nat)
    | Bcast2D(bcastLhs: bool, v: nat)
    | Bcast3D(bcastLhs: bool, v: nat)
  {
    function Width(): nat { if Generic? then 1 else v }
  }

  /** The dimensions a kernel is written for. */
  ghost predicate Suits(k: Kernel, f: Folded)
  {
    && AllMatch(f.lhs, f.rhs, f.out) && |f.out| > 0
    && k.Width() > 0 && f.out[|f.out| - 1] % k.Width() == 0
    && match k
       case Generic => |f.out| <= MAX_DIMS
       case Vec(_) => |f.out| == 1 && f.lhs == f.rhs == f.out
       case Bcast2D(b, _) => |f.out| == 2 && Normal(f, b)
       case Bcast3D(b, _) => |f.out| == 3 && Normal(f, b)
  }

  predicate HasOperands<T>(lhs: seq<T>, rhs: seq<T>, f: Folded)
  {
    |lhs| == Total(f.lhs) && |rhs| == Total(f.rhs)
  }

  /** val is the element of the result at flat index x. */
  ghost predicate IsElement<T>(op: (T, T) -> T, lhs: seq<T>, rhs: seq<T>, f: Folded, x: int, val: T)
    requires |f.lhs| <= |f.out| && |f.rhs| <= |f.out| && Positive(f.out)
  {
    var i, j := BroadcastIndex(f.lhs, f.out, x), BroadcastIndex(f.rhs, f.out, x);
    0 <= i < |lhs| && 0 <= j < |rhs| && val == op(lhs[i], rhs[j])
  }

  function Apply<T>(op: (T, T) -> T, a: seq<T>, b: seq<T>): (r: seq<T>)
    requires |a| == |b|
    ensures |r| == |a| && forall l :: 0 <= l < |a| ==> r[l] == op(a[l], b[l])
  {
    seq(|a|, l requires 0 <= l < |a| => op(a[l], b[l]))
  }

  // ---------------------------------------------------------------- index facts

  /** An operand that is not broadcast is indexed like the output. */
  lemma {:induction false} FullIndex(dims: Dims, x: nat)
    requires Positive(dims) && x < Total(dims)
    ensures BroadcastIndex(dims, dims, x) == x
  {
    if dims != [] {
      var n := |dims| - 1;
      SplitBound(x, Total(dims[..n]), dims[n]);
      FullIndex(dims[..n], x / dims[n]);
    } else {
      assert Total(dims) == 1;
    }
  }

  lemma LastBroadcastIndex(a: nat, b: nat, x: nat)
    requires a > 0 && b > 0 && x < Total([a, b])
    ensures x / b < a
    ensures BroadcastIndex([a, 1], [a, b], x) == x / b
  {
    assert [a, b][..1] == [a] && [a, 1][..1] == [a];
    TotalLast([a, b]);
    TotalOne(a);
    QuotientBelow(x, b, a);
    QuotientShrinks(x, b);
    FullIndex([a], x / b);
  }

  lemma TotalOne(a: nat)
    ensures Total([a]) == a
  {
  }

  lemma MiddleBroadcastIndex(a: nat, b: nat, c: nat, x: nat)
    requires a > 0 && b > 0 && c > 0 && x < Total([a, b, c])
    ensures BroadcastIndex([a, 1, c], [a, b, c], x) == (x / c) / b * c + x % c
  {
    assert [a, b, c][..2] == [a, b] && [a, 1, c][..2] == [a, 1];
    TotalLast([a, b, c]);
    QuotientBelow(x, c, Total([a, b]));
    QuotientShrinks(x, c);
    LastBroadcastIndex(a, b, x / c);
  }

  lemma ElementBounds<T>(lhs: seq<T>, rhs: seq<T>, f: Folded, x: nat)
    requires AllMatch(f.lhs, f.rhs, f.out) && HasOperands(lhs, rhs, f) && x < Total(f.out)
    ensures Positive(f.out)
    ensures 0 <= BroadcastIndex(f.lhs, f.out, x) < |lhs| && 0 <= BroadcastIndex(f.rhs, f.out, x) < |rhs|
  {
    forall i | 0 <= i < |f.out|
      ensures Fits(f.lhs[i], f.out[i]) && Fits(f.rhs[i], f.out[i]) && f.lhs[i] > 0 && f.rhs[i] > 0
    {
      assert Matches(f.lhs[i], f.rhs[i], f.out[i]);
    }
    BroadcastBound(f.lhs, f.out, x);
    BroadcastBound(f.rhs, f.out, x);
  }

  // ---------------------------------------------------------------- the kernels

  /** Adds a coordinate to an operand index, unless the dimension is broadcast. */
  function ClampIndex(dim: nat, unflattenIdx: int, stride: int, idx: int): int
  {
    if unflattenIdx < dim then idx + unflattenIdx * stride else idx
  }

  /** Generic kernel: peels the coordinates off the output index, adding those of dimensions that are
      not broadcast to the operand indices. */
  method GenericIndices(lhsDims: Dims, rhsDims: Dims, outDims: Dims, outIdx: nat) returns (lhsIdx: int, rhsIdx: int)
    requires AllMatch(lhsDims, rhsDims, outDims) && |outDims| == MAX_DIMS && outIdx < Total(outDims)
    ensures Positive(outDims)
    ensures lhsIdx == BroadcastIndex(lhsDims, outDims, outIdx) && rhsIdx == BroadcastIndex(rhsDims, outDims, outIdx)
  {
    lhsIdx, rhsIdx := 0, 0;
    var cumulativeLhsStride, cumulativeRhsStride := 1, 1;
    var remainder: int := outIdx;
    var i := MAX_DIMS - 1;
    NothingPeeled(lhsDims, rhsDims, outDims, outIdx);
    while i >= 1
      invariant 0 <= i < MAX_DIMS && Positive(outDims)
      invariant true == BothPeeled(lhsDims, rhsDims, outDims, outIdx, i + 1, remainder,
                                   cumulativeLhsStride, lhsIdx, cumulativeRhsStride, rhsIdx)
    {
      PeelBoth(lhsDims, rhsDims, outDims, outIdx, i, remainder, cumulativeLhsStride, lhsIdx, cumulativeRhsStride,
               rhsIdx);
      var unflattenIdx := remainder % outDims[i];
      lhsIdx := ClampIndex(lhsDims[i], unflattenIdx, cumulativeLhsStride, lhsIdx);
      rhsIdx := ClampIndex(rhsDims[i], unflattenIdx, cumulativeRhsStride, rhsIdx);
      cumulativeLhsStride := cumulativeLhsStride * lhsDims[i];
      cumulativeRhsStride := cumulativeRhsStride * rhsDims[i];
      remainder := remainder / outDims[i];
      i := i - 1;
    }
    PeelBothLast(lhsDims, rhsDims, outDims, outIdx, remainder, cumulativeLhsStride, lhsIdx, cumulativeRhsStride,
                 rhsIdx);
    lhsIdx := ClampIndex(lhsDims[0], remainder, cumulativeLhsStride, lhsIdx);
    rhsIdx := ClampIndex(rhsDims[0], remainder, cumulativeRhsStride, rhsIdx);
  }

  /** The operand index with the dimensions from n on accounted for. */
  ghost predicate Peeled(dims: Dims, outDims: Dims, outIdx: nat, n: nat, remainder: int, stride: int, idx: int)
    requires |dims| == |outDims| && n <= |dims| && Positive(outDims)
  {
    BroadcastIndex(dims, outDims, outIdx) == BroadcastIndex(dims[..n], outDims[..n], remainder) * stride + idx
  }

  lemma PeelOne(dims: Dims, outDims: Dims, outIdx: nat, i: nat, remainder: int, stride: int, idx: int)
    requires |dims| == |outDims| && i < |dims| && Positive(outDims) && Fits(dims[i], outDims[i])
    requires 0 <= remainder < Total(outDims[..i + 1])
    requires Peeled(dims, outDims, outIdx, i + 1, remainder, stride, idx)
    ensures 0 <= remainder / outDims[i] < Total(outDims[..i])
    ensures var c := remainder % outDims[i];
            Peeled(dims, outDims, outIdx, i, remainder / outDims[i], stride * dims[i],
                   ClampIndex(dims[i], c, stride, idx))
  {
    assert dims[..i + 1][..i] == dims[..i] && outDims[..i + 1][..i] == outDims[..i];
    SplitBound(remainder, Total(outDims[..i]), outDims[i]);
    var inner := BroadcastIndex(dims[..i], outDims[..i], remainder / outDims[i]);
    var c := remainder % outDims[i];
    MulDist(stride, inner * dims[i], if c < dims[i] then c else 0);
    MulAssoc(inner, dims[i], stride);
  }

  ghost predicate BothPeeled(lhsDims: Dims, rhsDims: Dims, outDims: Dims, outIdx: nat, n: nat, remainder: int,
                             lhsStride: int, lhsIdx: int, rhsStride: int, rhsIdx: int)
    requires |lhsDims| == |rhsDims| == |outDims| && n <= |outDims| && Positive(outDims)
  {
    && 0 <= remainder < Total(outDims[..n])
    && Peeled(lhsDims, outDims, outIdx, n, remainder, lhsStride, lhsIdx)
    && Peeled(rhsDims, outDims, outIdx, n, remainder, rhsStride, rhsIdx)
  }

  lemma NothingPeeled(lhsDims: Dims, rhsDims: Dims, outDims: Dims, outIdx: nat)
    requires AllMatch(lhsDims, rhsDims, outDims) && outIdx < Total(outDims)
    ensures Positive(outDims) && BothPeeled(lhsDims, rhsDims, outDims, outIdx, |outDims|, outIdx, 1, 0, 1, 0)
  {
    assert lhsDims[..|lhsDims|] == lhsDims && rhsDims[..|rhsDims|] == rhsDims && outDims[..|outDims|] == outDims;
  }

  lemma PeelBoth(lhsDims: Dims, rhsDims: Dims, outDims: Dims, outIdx: nat, i: nat, remainder: int,
                 lhsStride: int, lhsIdx: int, rhsStride: int, rhsIdx: int)
    requires AllMatch(lhsDims, rhsDims, outDims) && i < |outDims| && Positive(outDims)
    requires BothPeeled(lhsDims, rhsDims, outDims, outIdx, i + 1, remainder, lhsStride, lhsIdx, rhsStride, rhsIdx)
    ensures var c := remainder % outDims[i];
            BothPeeled(lhsDims, rhsDims, outDims, outIdx, i, remainder / outDims[i],
                       lhsStride * lhsDims[i], ClampIndex(lhsDims[i], c, lhsStride, lhsIdx),
                       rhsStride * rhsDims[i], ClampIndex(rhsDims[i], c, rhsStride, rhsIdx))
  {
    assert Matches(lhsDims[i], rhsDims[i], outDims[i]);
    PeelOne(lhsDims, outDims, outIdx, i, remainder, lhsStride, lhsIdx);
    PeelOne(rhsDims, outDims, outIdx, i, remainder, rhsStride, rhsIdx);
  }

  lemma PeelBothLast(lhsDims: Dims, rhsDims: Dims, outDims: Dims, outIdx: nat, remainder: int,
                     lhsStride: int, lhsIdx: int, rhsStride: int, rhsIdx: int)
    requires AllMatch(lhsDims, rhsDims, outDims) && |outDims| > 0 && Positive(outDims)
    requires BothPeeled(lhsDims, rhsDims, outDims, outIdx, 1, remainder, lhsStride, lhsIdx, rhsStride, rhsIdx)
    ensures BroadcastIndex(lhsDims, outDims, outIdx) == ClampIndex(lhsDims[0], remainder, lhsStride, lhsIdx)
    ensures BroadcastIndex(rhsDims, outDims, outIdx) == ClampIndex(rhsDims[0], remainder, rhsStride, rhsIdx)
  {
    assert Matches(lhsDims[0], rhsDims[0], outDims[0]);
    PeelLast(lhsDims, outDims, outIdx, remainder, lhsStride, lhsIdx);
    PeelLast(rhsDims, outDims, outIdx, remainder, rhsStride, rhsIdx);
  }

  lemma PeelLast(dims: Dims, outDims: Dims, outIdx: nat, remainder: int, stride: int, idx: int)
    requires |dims| == |outDims| > 0 && Positive(outDims) && Fits(dims[0], outDims[0])
    requires 0 <= remainder < Total(outDims[..1])
    requires Peeled(dims, outDims, outIdx, 1, remainder, stride, idx)
    ensures BroadcastIndex(dims, outDims, outIdx) == ClampIndex(dims[0], remainder, stride, idx)
  {
    assert outDims[..1] == [outDims[0]] && dims[..1] == [dims[0]];
    OneDimension(dims[0], outDims[0], remainder);
  }

  lemma OneDimension(d: nat, o: nat, x: int)
    requires o > 0 && Fits(d, o) && 0 <= x < Total([o])
    ensures BroadcastIndex([d], [o], x) == if x < d then x else 0
  {
    TotalOne(o);
    SmallMod(x, o);
    BroadcastAppend([], [], d, o, x);
    assert [] + [d] == [d] && [] + [o] == [o];
  }

  /** The vector an item of the rank-1 kernel stores. */
  method VecVector<T>(op: (T, T) -> T, v: nat, item: nat, lhs: seq<T>, rhs: seq<T>, ghost f: Folded)
    returns (vals: seq<T>)
    requires Suits(Vec(v), f) && HasOperands(lhs, rhs, f) && item < Total(f.out) / v
    ensures IsVector(op, lhs, rhs, f, v, item, vals)
  {
    ItemRange(Total(f.out), v, item);
    assert f.out == [f.out[0]];
    TotalOne(f.out[0]);
    var idx := item * v;
    var lhsVal := Load(lhs, idx, v);
    var rhsVal := Load(rhs, idx, v);
    vals := Apply(op, lhsVal, rhsVal);
    forall l | 0 <= l < v
      ensures IsElement(op, lhs, rhs, f, item * v + l, vals[l])
    {
      FullIndex(f.out, item * v + l);
    }
  }

  /** vals is what item `item` of a width-v kernel has to store. */
  ghost predicate IsVector<T>(op: (T, T) -> T, lhs: seq<T>, rhs: seq<T>, f: Folded, v: nat, item: nat, vals: seq<T>)
    requires |f.lhs| <= |f.out| && |f.rhs| <= |f.out| && Positive(f.out)
  {
    |vals| == v && forall l :: 0 <= l < v ==> IsElement(op, lhs, rhs, f, item * v + l, vals[l])
  }

  lemma ItemRange(n: nat, v: nat, item: nat)
    requires v > 0 && item < n / v
    ensures 0 <= item * v && item * v + v <= n
  {
    MulMono(item + 1, n / v, v);
    MulDist(v, item, 1);
  }

  /** The folded shape of the 2D kernels: the broadcast operand has one element in each row. */
  ghost predicate Shape2D(f: Folded, bcastLhs: bool, a: nat, b: nat)
  {
    && a > 0 && b > 0 && f.out == [a, b]
    && if bcastLhs then f.lhs == [a, 1] && f.rhs == f.out else f.rhs == [a, 1] && f.lhs == f.out
  }

  lemma ShapeOf2D(f: Folded, bcastLhs: bool, v: nat)
    requires Suits(Bcast2D(bcastLhs, v), f)
    ensures Shape2D(f, bcastLhs, f.out[0], f.out[1])
    ensures v > 0 && f.out[1] % v == 0
  {
    assert forall i :: 0 <= i < 2 ==> Matches(f.lhs[i], f.rhs[i], f.out[i]);
  }

  /** Where a work-item of the 2D kernels reads and writes. */
  lemma Offsets2D<T>(f: Folded, bcastLhs: bool, a: nat, b: nat, v: nat, item: nat, lhs: seq<T>, rhs: seq<T>)
    requires Shape2D(f, bcastLhs, a, b) && AllMatch(f.lhs, f.rhs, f.out) && HasOperands(lhs, rhs, f)
    requires v > 0 && b % v == 0 && item < Total(f.out) / v
    ensures b / v > 0
    ensures var t := Unflatten2(item, b / v);
            var outIdx := t.s0 * b + t.s1 * v;
            && outIdx == item * v && 0 <= outIdx && 0 <= t.s0
            && t.s0 < |if bcastLhs then lhs else rhs| && outIdx + v <= |if bcastLhs then rhs else lhs|
  {
    Item2D(a, b, v, item, 0);
    ItemRange(Total(f.out), v, item);
    ElementBounds(lhs, rhs, f, item * v);
    LastBroadcastIndex(a, b, item * v);
  }

  /** The lanes a work-item computes are the elements it owns. */
  lemma Vector2D<T>(op: (T, T) -> T, f: Folded, bcastLhs: bool, a: nat, b: nat, v: nat, item: nat,
                    lhs: seq<T>, rhs: seq<T>, outIdx: int, batch: int, vals: seq<T>)
    requires Shape2D(f, bcastLhs, a, b) && v > 0 && b % v == 0 && item < Total(f.out) / v && b / v > 0
    requires outIdx == item * v && 0 <= outIdx && 0 <= batch && |vals| == v
    requires batch == Unflatten2(item, b / v).s0
    requires batch < |if bcastLhs then lhs else rhs| && outIdx + v <= |if bcastLhs then rhs else lhs|
    requires forall l :: 0 <= l < v ==>
               vals[l] == if bcastLhs then op(lhs[batch], rhs[outIdx + l]) else op(lhs[outIdx + l], rhs[batch])
    ensures |f.lhs| <= |f.out| && |f.rhs| <= |f.out| && Positive(f.out)
    ensures IsVector(op, lhs, rhs, f, v, item, vals)
  {
    forall l | 0 <= l < v
      ensures IsElement(op, lhs, rhs, f, outIdx + l, vals[l])
    {
      Element2D(op, bcastLhs, a, b, v, item, l, lhs, rhs, f, batch, outIdx + l, vals[l]);
    }
  }

  /** Items of the 2D kernels: row `batch`, vector `inner` of it. */
  lemma Item2D(a: nat, b: nat, v: nat, item: nat, l: nat)
    requires a > 0 && b > 0 && v > 0 && b % v == 0 && item < Total([a, b]) / v && l < v
    ensures b / v > 0
    ensures var t := Unflatten2(item, b / v);
            && 0 <= t.s0 < a && 0 <= t.s1
            && t.s0 * b + t.s1 * v == item * v && item * v + l < Total([a, b])
            && (item * v + l) / b == t.s0
  {
    TotalLast([a, b]);
    assert [a, b][..1] == [a];
    TotalOne(a);
    var q := b / v;
    assert b == q * v;
    ItemRange(Total([a, b]), v, item);
    WholeVectors(a, b, v);
    MulAssoc(a, q, v);
    DivModOfSum(a * q, v, 0);
    SplitBound(item, a, q);
    var t := Unflatten2(item, q);
    PairBound(t.s1, q, l, v);
    MulDist(v, t.s0 * q, t.s1);
    MulAssoc(t.s0, q, v);
    DivModOfSum(t.s0, b, t.s1 * v + l);
  }

  method Bcast2DVector<T>(op: (T, T) -> T, bcastLhs: bool, v: nat, item: nat, lhs: seq<T>, rhs: seq<T>, f: Folded)
    returns (vals: seq<T>)
    requires Suits(Bcast2D(bcastLhs, v), f) && HasOperands(lhs, rhs, f) && item < Total(f.out) / v
    ensures IsVector(op, lhs, rhs, f, v, item, vals)
  {
    ShapeOf2D(f, bcastLhs, v);
    Offsets2D(f, bcastLhs, f.out[0], f.out[1], v, item, lhs, rhs);
    var t := Unflatten2(item, f.out[1] / v);
    var batch, inner := t.s0, t.s1;
    var outIdx := batch * f.out[1] + inner * v;
    if bcastLhs {
      vals := Apply(op, Splat(lhs[batch], v), Load(rhs, outIdx, v));
    } else {
      vals := Apply(op, Load(lhs, outIdx, v), Splat(rhs[batch], v));
    }
    Vector2D(op, f, bcastLhs, f.out[0], f.out[1], v, item, lhs, rhs, outIdx, batch, vals);
  }

  /** What lane l of a 2D kernel's item computes is the element it owns. */
  lemma Element2D<T>(op: (T, T) -> T, bcastLhs: bool, a: nat, b: nat, v: nat, item: nat, l: nat,
                     lhs: seq<T>, rhs: seq<T>, f: Folded, i: int, x: int, val: T)
    requires a > 0 && b > 0 && v > 0 && b % v == 0 && item < Total([a, b]) / v && l < v
    requires f.out == [a, b]
    requires if bcastLhs then f.lhs == [a, 1] && f.rhs == f.out else f.rhs == [a, 1] && f.lhs == f.out
    requires b / v > 0 && i == Unflatten2(item, b / v).s0
    requires x == item * v + l && 0 <= x && 0 <= i
    requires if bcastLhs then i < |lhs| && x < |rhs| && val == op(lhs[i], rhs[x])
             else x < |lhs| && i < |rhs| && val == op(lhs[x], rhs[i])
    ensures IsElement(op, lhs, rhs, f, x, val)
  {
    Item2D(a, b, v, item, l);
    LastBroadcastIndex(a, b, item * v + l);
    FullIndex(f.out, item * v + l);
  }

  /** The folded shape of the 3D kernels: the broadcast operand has one row in each batch. */
  ghost predicate Shape3D(f: Folded, bcastLhs: bool, a: nat, b: nat, c: nat)
  {
    && a > 0 && b > 0 && c > 0 && f.out == [a, b, c]
    && if bcastLhs then f.lhs == [a, 1, c] && f.rhs == f.out else f.rhs == [a, 1, c] && f.lhs == f.out
  }

  lemma ShapeOf3D(f: Folded, bcastLhs: bool, v: nat)
    requires Suits(Bcast3D(bcastLhs, v), f)
    ensures Shape3D(f, bcastLhs, f.out[0], f.out[1], f.out[2])
    ensures v > 0 && f.out[2] % v == 0
  {
    assert forall i :: 0 <= i < 3 ==> Matches(f.lhs[i], f.rhs[i], f.out[i]);
  }

  /** Where a work-item of the 3D kernels reads and writes. */
  lemma Offsets3D<T>(f: Folded, bcastLhs: bool, a: nat, b: nat, c: nat, v: nat, item: nat, lhs: seq<T>, rhs: seq<T>)
    requires Shape3D(f, bcastLhs, a, b, c) && AllMatch(f.lhs, f.rhs, f.out) && HasOperands(lhs, rhs, f)
    requires v > 0 && c % v == 0 && item < Total(f.out) / v
    ensures c / v > 0
    ensures var t := Unflatten3(item, b, c / v);
            var outIdx, bcastIdx := (t.s0 * b + t.s1) * c + t.s2 * v, t.s0 * c + t.s2 * v;
            && outIdx == item * v && 0 <= outIdx && 0 <= bcastIdx
            && bcastIdx + v <= |if bcastLhs then lhs else rhs| && outIdx + v <= |if bcastLhs then rhs else lhs|
  {
    Item3D(a, b, c, v, item, 0);
    ItemRange(Total(f.out), v, item);
    BroadcastVectorBounds(a, b, c, v, item, lhs, rhs, f);
  }

  /** The lanes a work-item computes are the elements it owns. */
  lemma Vector3D<T>(op: (T, T) -> T, f: Folded, bcastLhs: bool, a: nat, b: nat, c: nat, v: nat, item: nat,
                    lhs: seq<T>, rhs: seq<T>, outIdx: int, bcastIdx: int, vals: seq<T>)
    requires Shape3D(f, bcastLhs, a, b, c) && v > 0 && c % v == 0 && item < Total(f.out) / v && c / v > 0
    requires outIdx == item * v && 0 <= outIdx && 0 <= bcastIdx && |vals| == v
    requires var t := Unflatten3(item, b, c / v); bcastIdx == t.s0 * c + t.s2 * v
    requires bcastIdx + v <= |if bcastLhs then lhs else rhs| && outIdx + v <= |if bcastLhs then rhs else lhs|
    requires forall l :: 0 <= l < v ==>
               vals[l] == if bcastLhs then op(lhs[bcastIdx + l], rhs[outIdx + l])
                 else op(lhs[outIdx + l], rhs[bcastIdx + l])
    ensures |f.lhs| <= |f.out| && |f.rhs| <= |f.out| && Positive(f.out)
    ensures IsVector(op, lhs, rhs, f, v, item, vals)
  {
    forall l | 0 <= l < v
      ensures IsElement(op, lhs, rhs, f, outIdx + l, vals[l])
    {
      Element3D(op, bcastLhs, a, b, c, v, item, l, lhs, rhs, f, bcastIdx + l, outIdx + l, vals[l]);
    }
  }

  /** Items of the 3D kernels: vector `inner` of row `outer` of `batch`. */
  lemma Item3D(a: nat, b: nat, c: nat, v: nat, item: nat, l: nat)
    requires a > 0 && b > 0 && c > 0 && v > 0 && c % v == 0 && item < Total([a, b, c]) / v && l < v
    ensures c / v > 0
    ensures var t := Unflatten3(item, b, c / v);
            && 0 <= t.s0 < a && 0 <= t.s1 < b && 0 <= t.s2
            && (t.s0 * b + t.s1) * c + t.s2 * v == item * v && item * v + l < Total([a, b, c])
            && (item * v + l) / c / b * c + (item * v + l) % c == t.s0 * c + t.s2 * v + l
  {
    TotalLast([a, b, c]);
    assert [a, b, c][..2] == [a, b];
    TotalLast([a, b]);
    assert [a, b][..1] == [a];
    TotalOne(a);
    var q := c / v;
    assert c == q * v;
    var outer := Product(a, b);
    ItemRange(Total([a, b, c]), v, item);
    MulAssoc(outer, q, v);
    DivModOfSum(outer * q, v, 0);
    FlattenOfUnflatten3(item, a, b, q);
    var t := Unflatten3(item, b, q);
    Lane3D(t.s0 * b + t.s1, q, t.s2, v, l, item);
    DivModOfSum(t.s0, b, t.s1);
  }

  lemma Lane3D(row: int, q: nat, s: int, v: nat, l: nat, item: int)
    requires item == row * q + s && 0 <= s < q && l < v
    ensures q * v > 0
    ensures item * v == row * (q * v) + s * v
    ensures (item * v + l) / (q * v) == row && (item * v + l) % (q * v) == s * v + l
  {
    PairBound(s, q, l, v);
    ProductSign(q, v);
    MulDist(v, row * q, s);
    MulAssoc(row, q, v);
    DivModOfSum(row, q * v, s * v + l);
  }

  method Bcast3DVector<T>(op: (T, T) -> T, bcastLhs: bool, v: nat, item: nat, lhs: seq<T>, rhs: seq<T>, f: Folded)
    returns (vals: seq<T>)
    requires Suits(Bcast3D(bcastLhs, v), f) && HasOperands(lhs, rhs, f) && item < Total(f.out) / v
    ensures IsVector(op, lhs, rhs, f, v, item, vals)
  {
    ShapeOf3D(f, bcastLhs, v);
    Offsets3D(f, bcastLhs, f.out[0], f.out[1], f.out[2], v, item, lhs, rhs);
    var t := Unflatten3(item, f.out[1], f.out[2] / v);
    var batch, outer, inner := t.s0, t.s1, t.s2;
    var outIdx := (batch * f.out[1] + outer) * f.out[2] + inner * v;
    var bcastIdx := batch * f.out[2] + inner * v;
    if bcastLhs {
      vals := Apply(op, Load(lhs, bcastIdx, v), Load(rhs, outIdx, v));
    } else {
      vals := Apply(op, Load(lhs, outIdx, v), Load(rhs, bcastIdx, v));
    }
    Vector3D(op, f, bcastLhs, f.out[0], f.out[1], f.out[2], v, item, lhs, rhs, outIdx, bcastIdx, vals);
  }

  /** What lane l of a 3D kernel's item computes is the element it owns. */
  lemma Element3D<T>(op: (T, T) -> T, bcastLhs: bool, a: nat, b: nat, c: nat, v: nat, item: nat, l: nat,
                     lhs: seq<T>, rhs: seq<T>, f: Folded, i: int, x: int, val: T)
    requires a > 0 && b > 0 && c > 0 && v > 0 && c % v == 0 && item < Total([a, b, c]) / v && l < v
    requires f.out == [a, b, c]
    requires (if bcastLhs then f.lhs == [a, 1, c] && f.rhs == f.out else f.rhs == [a, 1, c] && f.lhs == f.out)
    requires c / v > 0 && var t := Unflatten3(item, b, c / v); i == t.s0 * c + t.s2 * v + l
    requires x == item * v + l && 0 <= x && 0 <= i
    requires if bcastLhs then i < |lhs| && x < |rhs| && val == op(lhs[i], rhs[x])
             else x < |lhs| && i < |rhs| && val == op(lhs[x], rhs[i])
    ensures IsElement(op, lhs, rhs, f, x, val)
  {
    Indices3D(a, b, c, v, item, l);
  }

  lemma Indices3D(a: nat, b: nat, c: nat, v: nat, item: nat, l: nat)
    requires a > 0 && b > 0 && c > 0 && v > 0 && c % v == 0 && item < Total([a, b, c]) / v && l < v
    ensures c / v > 0
    ensures var t := Unflatten3(item, b, c / v);
            BroadcastIndex([a, 1, c], [a, b, c], item * v + l) == t.s0 * c + t.s2 * v + l
    ensures BroadcastIndex([a, b, c], [a, b, c], item * v + l) == item * v + l
  {
    Item3D(a, b, c, v, item, l);
    MiddleBroadcastIndex(a, b, c, item * v + l);
    FullIndex([a, b, c], item * v + l);
  }

  lemma BroadcastVectorBounds<T>(a: nat, b: nat, c: nat, v: nat, item: nat, lhs: seq<T>, rhs: seq<T>, f: Folded)
    requires a > 0 && b > 0 && c > 0 && v > 0 && c % v == 0 && item < Total([a, b, c]) / v
    requires f.out == [a, b, c] && AllMatch(f.lhs, f.rhs, f.out) && HasOperands(lhs, rhs, f)
    ensures c / v > 0
    ensures var t := Unflatten3(item, b, c / v);
            var i := t.s0 * c + t.s2 * v;
            0 <= i && (f.lhs == [a, 1, c] ==> i + v <= |lhs|) && (f.rhs == [a, 1, c] ==> i + v <= |rhs|)
  {
    Item3D(a, b, c, v, item, 0);
    Item3D(a, b, c, v, item, v - 1);
    MiddleBroadcastIndex(a, b, c, item * v);
    MiddleBroadcastIndex(a, b, c, item * v + (v - 1));
    ElementBounds(lhs, rhs, f, item * v + (v - 1));
    var t := Unflatten3(item, b, c / v);
    PairBound(t.s0, a, 0, c);
    ProductSign(t.s2, v);
  }

  lemma PaddedStep(dims: Dims, n: nat)
    requires |dims| < n
    ensures Padded(dims, n) == [1] + Padded(dims, n - 1)
  {
  }

  /** The constructor's arrays: the dimensions after as many ones as fill MAX_DIMS. */
  lemma {:induction false} PaddedBoth(dims: Dims, outDims: Dims, n: nat, x: int)
    requires |dims| == |outDims| <= n && Positive(outDims)
    ensures Positive(Padded(outDims, n))
    ensures BroadcastIndex(Padded(dims, n), Padded(outDims, n), x) == BroadcastIndex(dims, outDims, x)
    ensures Total(Padded(outDims, n)) == Total(outDims)
  {
    if n == |dims| {
      assert Padded(dims, n) == dims && Padded(outDims, n) == outDims;
    } else {
      PaddedBoth(dims, outDims, n - 1, x);
      PadFront(Padded(dims, n - 1), Padded(outDims, n - 1), x);
      PadFront(Padded(outDims, n - 1), Padded(outDims, n - 1), x);
      PaddedStep(dims, n);
      PaddedStep(outDims, n);
    }
  }

  method GenericVector<T>(op: (T, T) -> T, item: nat, lhs: seq<T>, rhs: seq<T>, f: Folded) returns (vals: seq<T>)
    requires Suits(Generic, f) && HasOperands(lhs, rhs, f) && item < Total(f.out)
    ensures IsVector(op, lhs, rhs, f, 1, item, vals)
  {
    ElementBounds(lhs, rhs, f, item);
    PaddedBoth(f.lhs, f.out, MAX_DIMS, item);
    PaddedBoth(f.rhs, f.out, MAX_DIMS, item);
    PaddedMatches(f);
    var lhsIdx, rhsIdx := GenericIndices(Padded(f.lhs, MAX_DIMS), Padded(f.rhs, MAX_DIMS), Padded(f.out, MAX_DIMS),
                                         item);
    vals := [op(lhs[lhsIdx], rhs[rhsIdx])];
  }

  lemma PaddedMatches(f: Folded)
    requires AllMatch(f.lhs, f.rhs, f.out) && |f.out| <= MAX_DIMS
    ensures AllMatch(Padded(f.lhs, MAX_DIMS), Padded(f.rhs, MAX_DIMS), Padded(f.out, MAX_DIMS))
  {
  }

  /** One work-item of the chosen kernel. */
  method RunItem<T>(k: Kernel, op: (T, T) -> T, item: nat, lhs: seq<T>, rhs: seq<T>, f: Folded, out: array<T>)
    requires Suits(k, f) && HasOperands(lhs, rhs, f) && out.Length == Total(f.out) && item < Total(f.out) / k.Width()
    modifies out
    ensures forall x :: 0 <= x < out.Length ==>
              if Owns(item, k.Width(), x) then IsElement(op, lhs, rhs, f, x, out[x]) else out[x] == old(out[x])
  {
    var vals;
    match k {
      case Generic => vals := GenericVector(op, item, lhs, rhs, f);
      case Vec(v) => vals := VecVector(op, v, item, lhs, rhs, f);
      case Bcast2D(b, v) => vals := Bcast2DVector(op, b, v, item, lhs, rhs, f);
      case Bcast3D(b, v) => vals := Bcast3DVector(op, b, v, item, lhs, rhs, f);
    }
    StoreVector(op, lhs, rhs, f, k.Width(), item, vals, out);
  }

  method StoreVector<T>(ghost op: (T, T) -> T, ghost lhs: seq<T>, ghost rhs: seq<T>, ghost f: Folded, v: nat, item: nat,
                        vals: seq<T>, out: array<T>)
    requires |f.lhs| <= |f.out| && |f.rhs| <= |f.out| && Positive(f.out) && v > 0
    requires out.Length == Total(f.out) && item < Total(f.out) / v
    requires IsVector(op, lhs, rhs, f, v, item, vals)
    modifies out
    ensures forall x :: 0 <= x < out.Length ==>
              if Owns(item, v, x) then IsElement(op, lhs, rhs, f, x, out[x]) else out[x] == old(out[x])
  {
    ItemRange(Total(f.out), v, item);
    ghost var base := item * v;
    forall x | Owns(item, v, x)
      ensures IsElement(op, lhs, rhs, f, x, vals[x - base])
    {
      assert IsElement(op, lhs, rhs, f, item * v + (x - base), vals[x - base]);
    }
    Store(out, item * v, vals);
  }

  /** All the work-items of the chosen kernel, in any order. */
  method Queue<T>(k: Kernel, op: (T, T) -> T, order: seq<nat>, lhs: seq<T>, rhs: seq<T>, f: Folded, out: array<T>)
    requires Suits(k, f) && HasOperands(lhs, rhs, f) && out.Length == Total(f.out)
    requires IsSchedule(order, Total(f.out) / k.Width())
    modifies out
    ensures forall x :: 0 <= x < out.Length ==> IsElement(op, lhs, rhs, f, x, out[x])
  {
    var v := k.Width();
    for s := 0 to |order|
      invariant forall s', x :: 0 <= s' < s && 0 <= x < out.Length && Owns(order[s'], v, x) ==>
                IsElement(op, lhs, rhs, f, x, out[x])
    {
      RunItem(k, op, order[s], lhs, rhs, f, out);
    }
    WholeVectors(Total(f.out[..|f.out| - 1]), f.out[|f.out| - 1], v);
    TotalLast(f.out);
    forall x | 0 <= x < out.Length
      ensures IsElement(op, lhs, rhs, f, x, out[x])
    {
      QuotientBelow(x, v, Total(f.out) / v);
      OwnerScheduled(order, Total(f.out) / v, v, x);
    }
  }
}
