/** Reductions over the middle dimension of batches x outer x inner elements, one work-item per result. */
module Reduction {
  import opened Arithmetic
  import opened Sums
  import opened TensorIndex

  datatype Op = Add | Mean | Max | Min

  function Finalize(op: Op, x: real, outer: nat): real
    requires outer > 0
  {
    match op
    case Mean => x / outer as real
    case _ => x
  }

  function Init(op: Op, seed: real): real
  {
    match op
    case Add | Mean => 0.0
    case Max | Min => seed
  }

  function Combine(op: Op, res: real, x: real): real
  {
    match op
    case Add | Mean => res + x
    case Max => if res < x then x else res
    case Min => if x < res then x else res
  }

  /** The k-th element to be reduced into result (b, i). */
  ghost function Element(x: seq<real>, outer: nat, inner: nat, b: int, i: int, k: int): real
  {
    At(x, Flatten3(b, k, i, outer, inner))
  }

  /** The sum of the first n of them. */
  ghost function Column(x: seq<real>, outer: nat, inner: nat, b: int, i: int, n: nat): real
  {
    Sum(n, k => Element(x, outer, inner, b, i, k))
  }

  /** The first n of them combined in order, from the start value of the operator. */
  ghost function Folded(op: Op, seed: real, x: seq<real>, outer: nat, inner: nat, b: int, i: int, n: nat): real
  {
    if n == 0 then Init(op, seed)
    else Combine(op, Folded(op, seed, x, outer, inner, b, i, n - 1), Element(x, outer, inner, b, i, n - 1))
  }

  /** Result (b, i). */
  ghost function Reduced(op: Op, seed: real, x: seq<real>, outer: nat, inner: nat, param: nat, b: int, i: int): real
    requires param > 0
  {
    Finalize(op, Folded(op, seed, x, outer, inner, b, i, outer), param)
  }

  lemma {:induction false} FoldedIsSum(op: Op, seed: real, x: seq<real>, outer: nat, inner: nat, b: int, i: int, n: nat)
    requires op.Add? || op.Mean?
    ensures Folded(op, seed, x, outer, inner, b, i, n) == Column(x, outer, inner, b, i, n)
  {
    if n > 0 {
      FoldedIsSum(op, seed, x, outer, inner, b, i, n - 1);
    }
  }

  /** v is at least as extreme as the bound: no less for Max, no greater for Min. */
  predicate AtLeast(op: Op, v: real, bound: real)
  {
    if op.Min? then v <= bound else bound <= v
  }

  /** v is the greatest (or least) element of the column. */
  ghost predicate IsExtreme(op: Op, x: seq<real>, outer: nat, inner: nat, b: int, i: int, v: real)
  {
    && (exists k :: 0 <= k < outer && Element(x, outer, inner, b, i, k) == v)
    && forall k :: 0 <= k < outer ==> AtLeast(op, v, Element(x, outer, inner, b, i, k))
  }

  lemma {:induction false} FoldedBounds(op: Op, seed: real, x: seq<real>, outer: nat, inner: nat, b: int, i: int,
                                        n: nat)
    requires op.Max? || op.Min?
    ensures var v := Folded(op, seed, x, outer, inner, b, i, n);
            && AtLeast(op, v, seed)
            && (forall k :: 0 <= k < n ==> AtLeast(op, v, Element(x, outer, inner, b, i, k)))
            && (v == seed || exists k :: 0 <= k < n && Element(x, outer, inner, b, i, k) == v)
  {
    if n > 0 {
      FoldedBounds(op, seed, x, outer, inner, b, i, n - 1);
      assert Folded(op, seed, x, outer, inner, b, i, n)
          == Combine(op, Folded(op, seed, x, outer, inner, b, i, n - 1), Element(x, outer, inner, b, i, n - 1));
    }
  }

  /** Some element of the column is at least as extreme as the bound. */
  ghost predicate Reaches(op: Op, bound: real, x: seq<real>, outer: nat, inner: nat, b: int, i: int)
  {
    exists k :: 0 <= k < outer && AtLeast(op, Element(x, outer, inner, b, i, k), bound)
  }

  /** Max and Min are not seeded with a neutral element: the result is the extreme element of the
      column exactly when some element is at least as extreme as the seed. */
  lemma ExtremeIff(op: Op, seed: real, x: seq<real>, outer: nat, inner: nat, b: int, i: int)
    requires op.Max? || op.Min?
    ensures IsExtreme(op, x, outer, inner, b, i, Folded(op, seed, x, outer, inner, b, i, outer))
            <==> Reaches(op, seed, x, outer, inner, b, i)
  {
    FoldedBounds(op, seed, x, outer, inner, b, i, outer);
    var v := Folded(op, seed, x, outer, inner, b, i, outer);
    if k :| 0 <= k < outer && AtLeast(op, Element(x, outer, inner, b, i, k), seed) {
      assert AtLeast(op, v, Element(x, outer, inner, b, i, k));
    }
  }

  /** The seed of Max is the least positive value: a column of negative values comes out as the seed. */
  lemma NegativeMaximumLost(seed: real, v: real)
    requires v < 0.0 < seed
    ensures !IsExtreme(Max, [v], 1, 1, 0, 0, Folded(Max, seed, [v], 1, 1, 0, 0, 1))
  {
  }

  /** What the results are, in elements of the batches x outer x inner tensor: Add is the sum over the middle
      dimension; Mean times the number divided by is that sum; Max and Min are the greatest (least) of the
      seed and the elements. */
  lemma ReducedValue(op: Op, seed: real, x: seq<real>, outer: nat, inner: nat, param: nat, b: int, i: int, y: real)
    requires param > 0 && y == Reduced(op, seed, x, outer, inner, param, b, i)
    ensures op == Add ==> y == Sum(outer, k => At(x, Flatten3(b, k, i, outer, inner)))
    ensures op == Mean ==> y * param as real == Sum(outer, k => At(x, Flatten3(b, k, i, outer, inner)))
    ensures op == Max ==> y >= seed && forall k :: 0 <= k < outer ==> y >= At(x, Flatten3(b, k, i, outer, inner))
    ensures op == Min ==> y <= seed && forall k :: 0 <= k < outer ==> y <= At(x, Flatten3(b, k, i, outer, inner))
    ensures op == Max || op == Min ==>
              y == seed || exists k :: 0 <= k < outer && y == At(x, Flatten3(b, k, i, outer, inner))
  {
    if op == Add || op == Mean {
      FoldedIsSum(op, seed, x, outer, inner, b, i, outer);
      SumExt(outer, k => Element(x, outer, inner, b, i, k), k => At(x, Flatten3(b, k, i, outer, inner)));
    } else {
      FoldedBounds(op, seed, x, outer, inner, b, i, outer);
      forall k | 0 <= k < outer
        ensures AtLeast(op, y, At(x, Flatten3(b, k, i, outer, inner)))
      {
        assert AtLeast(op, y, Element(x, outer, inner, b, i, k));
      }
    }
  }

  class Reducer {
    const op: Op
    var res: real

    constructor (kind: Op, seed: real)
      ensures op == kind && res == Init(kind, seed)
    {
      op, res := kind, Init(kind, seed);
    }

    method Reduce(x: real)
      modifies this
      ensures res == Combine(op, old(res), x)
    {
      res := Combine(op, res, x);
    }
  }

  datatype Item = Item(row: nat, col: nat)

  /** An execution order of a two-dimensional range: every item occurs, and occurs once. */
  ghost predicate IsSchedule(order: seq<Item>, rows: nat, cols: nat)
  {
    && (forall i :: 0 <= i < |order| ==> order[i].row < rows && order[i].col < cols)
    && (forall id: Item :: id.row < rows && id.col < cols ==> id in order)
    && (forall i, j :: 0 <= i < j < |order| ==> order[i] != order[j])
  }

  lemma SameSlot(b: nat, i: nat, b': nat, i': nat, inner: nat)
    requires i < inner && i' < inner && b * inner + i == b' * inner + i'
    ensures b == b' && i == i'
  {
    DivModOfSum(b, inner, i);
    DivModOfSum(b', inner, i');
  }

  lemma ElementOffset(b: nat, k: nat, i: nat, batches: nat, outer: nat, inner: nat)
    requires b < batches && k < outer && i < inner
    ensures 0 <= b * outer * inner + i + k * inner < Product(Product(batches, outer), inner)
    ensures b * outer * inner + i + k * inner == Flatten3(b, k, i, outer, inner)
  {
    Flatten3Bound(b, k, i, batches, outer, inner);
    MulDist(inner, b * outer, k);
  }

  /** The reduction loop of one work-item. */
  method ReduceColumn(op: Op, batches: nat, outer: nat, inner: nat, param: nat, seed: real, id: Item, input: seq<real>)
    returns (result: real)
    requires outer > 0 && inner > 0 && param > 0 && id.row < batches && id.col < inner
    requires |input| == Product(Product(batches, outer), inner)
    ensures result == Reduced(op, seed, input, outer, inner, param, id.row, id.col)
  {
    var reducer := new Reducer(op, seed);
    var start := id.row * outer * inner + id.col;
    var i := 0;
    while i < outer
      invariant i <= outer && fresh(reducer)
      invariant reducer.op == op && reducer.res == Folded(op, seed, input, outer, inner, id.row, id.col, i)
    {
      ElementOffset(id.row, i, id.col, batches, outer, inner);
      reducer.Reduce(input[start + i * inner]);
      i := i + 1;
    }
    result := Finalize(op, reducer.res, param);
  }

  /** One work-item of the single-pass kernel. */
  method ReduceKernel(op: Op, batches: nat, outer: nat, inner: nat, param: nat, seed: real, id: Item, input: seq<real>,
                      output: array<real>)
    requires outer > 0 && inner > 0 && param > 0 && id.row < batches && id.col < inner
    requires |input| == Product(Product(batches, outer), inner) && output.Length == Product(batches, inner)
    modifies output
    ensures 0 <= id.row * inner + id.col < output.Length
    ensures output[..]
            == old(output[..])[id.row * inner + id.col := Reduced(op, seed, input, outer, inner, param, id.row, id.col)]
  {
    var result := ReduceColumn(op, batches, outer, inner, param, seed, id, input);
    PairBound(id.row, batches, id.col, inner);
    output[id.row * inner + id.col] := result;
  }

  lemma ResultValues(op: Op, seed: real, x: seq<real>, outer: nat, inner: nat, param: nat, batches: nat, y: seq<real>)
    requires param > 0
    requires forall b, i :: 0 <= b < batches && 0 <= i < inner ==>
               At(y, b * inner + i) == Reduced(op, seed, x, outer, inner, param, b, i)
    ensures forall id: Item :: id.row < batches && id.col < inner ==>
              var v := At(y, id.row * inner + id.col);
              var total := Sum(outer, k => At(x, Flatten3(id.row, k, id.col, outer, inner)));
              (op == Add ==> v == total) && (op == Mean ==> v * param as real == total)
    ensures forall id: Item, k :: id.row < batches && id.col < inner && 0 <= k < outer ==>
              var v, u := At(y, id.row * inner + id.col), At(x, Flatten3(id.row, k, id.col, outer, inner));
              (op == Max ==> v >= seed && v >= u) && (op == Min ==> v <= seed && v <= u)
    ensures forall id: Item :: id.row < batches && id.col < inner && (op == Max || op == Min) ==>
              var v := At(y, id.row * inner + id.col);
              v == seed || exists k :: 0 <= k < outer && v == At(x, Flatten3(id.row, k, id.col, outer, inner))
  {
    forall id: Item | id.row < batches && id.col < inner
      ensures var v := At(y, id.row * inner + id.col);
              var total := Sum(outer, k => At(x, Flatten3(id.row, k, id.col, outer, inner)));
              (op == Add ==> v == total) && (op == Mean ==> v * param as real == total)
      ensures var v := At(y, id.row * inner + id.col);
              && (forall k :: 0 <= k < outer ==> var u := At(x, Flatten3(id.row, k, id.col, outer, inner));
                  (op == Max ==> v >= seed && v >= u) && (op == Min ==> v <= seed && v <= u))
              && (op == Max || op == Min ==>
                  v == seed || exists k :: 0 <= k < outer && v == At(x, Flatten3(id.row, k, id.col, outer, inner)))
    {
      ReducedValue(op, seed, x, outer, inner, param, id.row, id.col, At(y, id.row * inner + id.col));
    }
  }

  /** The single-pass kernel, in any order of its work-items. */
  method RunKernel(op: Op, batches: nat, outer: nat, inner: nat, param: nat, seed: real, order: seq<Item>,
                   input: seq<real>, output: array<real>)
    requires outer > 0 && inner > 0 && param > 0 && IsSchedule(order, batches, inner)
    requires |input| == Product(Product(batches, outer), inner) && output.Length == Product(batches, inner)
    modifies output
    ensures forall b, i :: 0 <= b < batches && 0 <= i < inner ==>
              At(output[..], b * inner + i) == Reduced(op, seed, input, outer, inner, param, b, i)
  {
    for s := 0 to |order|
      invariant forall s' :: 0 <= s' < s ==>
                  At(output[..], order[s'].row * inner + order[s'].col)
                  == Reduced(op, seed, input, outer, inner, param, order[s'].row, order[s'].col)
    {
      ghost var before := output[..];
      ReduceKernel(op, batches, outer, inner, param, seed, order[s], input, output);
      forall s' | 0 <= s' < s
        ensures At(output[..], order[s'].row * inner + order[s'].col)
                == At(before, order[s'].row * inner + order[s'].col)
      {
        if order[s'].row * inner + order[s'].col == order[s].row * inner + order[s].col {
          SameSlot(order[s'].row, order[s'].col, order[s].row, order[s].col, inner);
        }
      }
    }
    forall b, i | 0 <= b < batches && 0 <= i < inner
      ensures At(output[..], b * inner + i) == Reduced(op, seed, input, outer, inner, param, b, i)
    {
      assert Item(b, i) in order;
    }
  }

  /** Theorem: in any order of the work-items every result is its column, combined and finalised: the sum, the
      sum divided by param, or the extreme one of the seed and the elements. */
  method LaunchReduce(op: Op, batches: nat, outer: nat, inner: nat, param: nat, seed: real, order: seq<Item>,
                      input: seq<real>, output: array<real>)
    requires outer > 0 && inner > 0 && param > 0 && IsSchedule(order, batches, inner)
    requires |input| == Product(Product(batches, outer), inner) && output.Length == Product(batches, inner)
    modifies output
    ensures forall b, i :: 0 <= b < batches && 0 <= i < inner ==>
              At(output[..], b * inner + i) == Reduced(op, seed, input, outer, inner, param, b, i)
    ensures forall id: Item :: id.row < batches && id.col < inner ==>
              var v := At(output[..], id.row * inner + id.col);
              var total := Sum(outer, k => At(input, Flatten3(id.row, k, id.col, outer, inner)));
              (op == Add ==> v == total) && (op == Mean ==> v * param as real == total)
    ensures forall id: Item, k :: id.row < batches && id.col < inner && 0 <= k < outer ==>
              var v, u := At(output[..], id.row * inner + id.col), At(input, Flatten3(id.row, k, id.col, outer, inner));
              (op == Max ==> v >= seed && v >= u) && (op == Min ==> v <= seed && v <= u)
    ensures forall id: Item :: id.row < batches && id.col < inner && (op == Max || op == Min) ==>
              var v := At(output[..], id.row * inner + id.col);
              v == seed || exists k :: 0 <= k < outer && v == At(input, Flatten3(id.row, k, id.col, outer, inner))
  {
    RunKernel(op, batches, outer, inner, param, seed, order, input, output);
    ResultValues(op, seed, input, outer, inner, param, batches, output[..]);
  }
}
