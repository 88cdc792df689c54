/** The forward pooling kernels, in both layouts. */
module PoolingForward {
  import opened Arithmetic
  import opened Sums
  import opened Adjoints
  import opened FastDivision
  import opened TensorIndex
  import opened VectorIO
  import opened PoolingWindows
  import opened GridWalks
  import opened Pooling
  import opened MaxPooling
  import opened PoolingItems
  import opened PoolingOperators

  /** The input values under window position (r, c), one for each lane of the output vector at t. */
  method LoadLanes(p: Params, v: nat, t: Index4, r: int, c: int, input: seq<real>) returns (val: seq<real>)
    requires p.Valid() && SupportsWidth(p.In(), v) && |input| == p.In().Size()
    requires forall l :: 0 <= l < v ==> p.In().Has(Lane(Index4(t.s0, r, c, t.s3), l))
    ensures |val| == v && forall l :: 0 <= l < v ==>
            val[l] == At(input, p.In().Index(Lane(Index4(t.s0, r, c, t.s3), l)))
  {
    var feature := t.s3;
    var inputOffset := t.s0 * p.inCols * p.inRows * p.channels;
    var loc := match p.format
      case NHWC => (r * p.inCols + c) * p.channels + feature
      case NCHW => (feature * p.inRows + r) * p.inCols + c;
    LocIsIndex(p, t.s0, r, c, feature);
    LanesConsecutive(p.In(), v, Index4(t.s0, r, c, feature));
    val := Load(input, inputOffset + loc, v);
  }

  lemma LocIsIndex(p: Params, b: int, r: int, c: int, feature: int)
    ensures b * p.inCols * p.inRows * p.channels
            + (match p.format
               case NHWC => (r * p.inCols + c) * p.channels + feature
               case NCHW => (feature * p.inRows + r) * p.inCols + c)
            == p.In().Index(Index4(b, r, c, feature))
  {
  }

  /** The input values under the windows of the vector of outputs at t, lane by lane. */
  ghost function InputTerms(p: Params, x: seq<real>, t: Index4): LaneGrid
  {
    (l, r, c) => Masked(p.Row(t.s1, r) && p.Col(t.s2, c), At(x, p.In().Index(Lane(Index4(t.s0, r, c, t.s3), l))))
  }

  lemma InputTermsFramed(p: Params, x: seq<real>, v: nat, t: Index4)
    requires p.Valid() && 0 <= t.s1 < p.outRows && 0 <= t.s2 < p.outCols
    ensures var rows, cols := p.RowWindow(t.s1), p.ColWindow(t.s2);
            Framed(InputTerms(p, x, t), v, rows.begin, rows.end, cols.begin, cols.end)
  {
  }

  /** The terms of lane l add up to the sum of its window. */
  lemma InputTermsTotal(p: Params, x: seq<real>, v: nat, index: nat, t: Index4, l: nat)
    requires p.Valid() && IsVector(p.Out(), v, index, t) && l < v
    ensures 0 <= index * v + l
    ensures Sum2(p.inRows, p.inCols, LaneOf(InputTerms(p, x, t), l)) == WindowSum(p, x, index * v + l)
  {
    var k := index * v + l;
    assert p.Out().Coord(k) == Lane(t, l);
    var h := n => At(x, n);
    SumOverWindow(p, k, h);
    SumExt(p.In().Size(), n => Masked(Covers(p, k, n), h(n)), n => Masked(Covers(p, k, n), At(x, n)));
    Sum2Ext(p.inRows, p.inCols, LaneOf(InputTerms(p, x, t), l), InputPlane(p, Lane(t, l), h));
  }

  /** The grid f holds the terms of the windows at t, and nothing outside the given bounds. */
  ghost predicate AreTerms(p: Params, v: nat, x: seq<real>, t: Index4, rows: Window, cols: Window, f: LaneGrid)
  {
    && f == InputTerms(p, x, t) && rows == p.RowWindow(t.s1) && cols == p.ColWindow(t.s2)
    && Framed(f, v, rows.begin, rows.end, cols.begin, cols.end)
  }

  ghost predicate IsItem(p: Params, v: nat, t: Index4, input: seq<real>)
  {
    && p.Valid() && SupportsWidth(p.In(), v) && |input| == p.In().Size()
    && p.Out().Has(t) && p.Out().Has(Lane(t, v - 1))
  }

  /** All that a row of a window needs to know. */
  ghost predicate IsReady(p: Params, v: nat, t: Index4, input: seq<real>, rows: Window, cols: Window, f: LaneGrid)
  {
    IsItem(p, v, t, input) && AreTerms(p, v, input, t, rows, cols, f)
  }

  method AverageAtPosition(p: Params, v: nat, t: Index4, r: nat, c: nat, input: seq<real>, op: Average,
                           ghost rows: Window, ghost cols: Window, ghost f: LaneGrid)
    requires true == IsReady(p, v, t, input, rows, cols, f)
    requires rows.Contains(r) && cols.Contains(c) && Walked(f, v, p.inCols, r, c, op.sum)
    modifies op
    ensures op.tally == old(op.tally) + 1
    ensures Walked(f, v, p.inCols, r, c + 1, op.sum)
  {
    InsideWindow(p, v, t, r, c);
    var val := LoadLanes(p, v, t, r, c, input);
    ghost var before := op.sum;
    op.Accumulate(val);
    WalkedStep(f, v, p.inCols, r, c, before, op.sum);
  }

  method AverageRow(p: Params, v: nat, t: Index4, r: nat, input: seq<real>, op: Average,
                    ghost rows: Window, cols: Window, ghost f: LaneGrid)
    requires true == IsReady(p, v, t, input, rows, cols, f)
    requires true == Framed(f, v, rows.begin, rows.end, cols.begin, cols.end)
    requires rows.Contains(r) && 0 <= cols.begin && cols.end <= p.inCols
    requires true == Walked(f, v, p.inCols, r, 0, op.sum)
    modifies op
    ensures op.tally == old(op.tally) + Extent(cols)
    ensures Walked(f, v, p.inCols, r + 1, 0, op.sum)
  {
    WalkedEnter(f, v, p.inCols, r, rows.begin, rows.end, cols.begin, cols.end, op.sum);
    var c := cols.begin;
    while c < cols.end
      invariant cols.begin <= c <= Larger(cols.begin, cols.end)
      invariant op.tally == old(op.tally) + (c - cols.begin)
      invariant true == Walked(f, v, p.inCols, r, c, op.sum)
    {
      AverageAtPosition(p, v, t, r, c, input, op, rows, cols, f);
      c := c + 1;
    }
    WalkedLeave(f, v, p.inCols, r, rows.begin, rows.end, cols.begin, cols.end, c, op.sum);
  }

  /** Accumulates the windows of the vector of outputs at t. */
  method AverageWindow(p: Params, v: nat, t: Index4, input: seq<real>, op: Average, rows: Window, cols: Window,
                       ghost f: LaneGrid)
    requires true == IsReady(p, v, t, input, rows, cols, f)
    requires true == Framed(f, v, rows.begin, rows.end, cols.begin, cols.end)
    requires 0 <= rows.begin && 0 <= cols.begin && cols.end <= p.inCols
    requires op.tally == 0 && true == Walked(f, v, p.inCols, rows.begin, 0, op.sum)
    modifies op
    ensures op.tally == Repeated(Extent(rows), Extent(cols))
    ensures true == Walked(f, v, p.inCols, Larger(rows.begin, rows.end), 0, op.sum)
  {
    var r := rows.begin;
    ghost var done: nat, width: nat := 0, Extent(cols);
    while r < rows.end
      invariant r == rows.begin + done <= Larger(rows.begin, rows.end)
      invariant op.tally == Repeated(done, width)
      invariant true == Walked(f, v, p.inCols, r, 0, op.sum)
    {
      AverageRow(p, v, t, r, input, op, rows, cols, f);
      r, done := r + 1, done + 1;
    }
  }

  /** The clamped window of one dimension, as the kernel computes it. */
  function ClampedWindow(o: int, stride: nat, pad: nat, windowSize: nat, size: nat): (w: Window)
    ensures w == GetOutputWindow(o, size, windowSize, stride, pad)
  {
    var start := o * stride - pad;
    var end := Min(start + windowSize, size);
    Window(Larger(start, 0), end)
  }

  /** Positions in the clamped window are positions of the input. */
  lemma InsideWindow(p: Params, v: nat, t: Index4, r: nat, c: nat)
    requires p.Valid() && v > 0 && p.Out().Has(t) && p.Out().Has(Lane(t, v - 1))
    requires p.RowWindow(t.s1).Contains(r) && p.ColWindow(t.s2).Contains(c)
    ensures p.Row(t.s1, r) && p.Col(t.s2, c)
    ensures forall l :: 0 <= l < v ==> p.In().Has(Lane(Index4(t.s0, r, c, t.s3), l))
  {
  }

  function Larger(a: int, b: int): int { if a > b then a else b }

  /** The averages of one vector of windows. */
  method AverageVector(p: Params, v: nat, w: nat, index: nat, empty: real, input: seq<real>) returns (mean: seq<real>)
    requires p.Valid() && SupportsWidth(p.Out(), v) && index < p.Out().Size() / v
    requires w >= 3 && p.Out().Size() < Pow2(w - 1) && |input| == p.In().Size()
    ensures |mean| == v
    ensures forall l :: 0 <= l < v ==> 0 <= index * v + l && mean[l] == AverageAt(p, input, empty, index * v + l)
  {
    var op := new Average(v);
    var t := Decode(p.Out(), v, w, index);
    assert Lane(t, 0) == t;
    assert p.Out().Has(Lane(t, 0)) && p.Out().Has(Lane(t, v - 1));
    var rows := ClampedWindow(t.s1, p.strideRows, p.padRows, p.winRows, p.inRows);
    var cols := ClampedWindow(t.s2, p.strideCols, p.padCols, p.winCols, p.inCols);
    InputTermsFramed(p, input, v, t);
    ghost var f := InputTerms(p, input, t);
    WalkedStart(f, v, p.inCols, rows.begin, rows.end, cols.begin, cols.end, op.sum);
    AverageWindow(p, v, t, input, op, rows, cols, f);
    RepeatedIsProduct(Extent(rows), Extent(cols));
    ghost var sum, tally, last := op.sum, op.tally, Larger(rows.begin, rows.end);
    WalkedEnd(f, v, p.inRows, p.inCols, last, rows.begin, rows.end, cols.begin, cols.end, sum);
    mean := Means(op, empty);
    forall l | 0 <= l < v
      ensures 0 <= index * v + l && mean[l] == AverageAt(p, input, empty, index * v + l)
    {
      LaneAverage(p, v, index, t, l, input, empty, sum[l], tally, mean[l]);
    }
  }

  /** A lane's sum and the tally make the average of its window. */
  lemma LaneAverage(p: Params, v: nat, index: nat, t: Index4, l: nat, x: seq<real>, empty: real, sum: real, tally: nat,
                    mean: real)
    requires p.Valid() && IsVector(p.Out(), v, index, t) && l < v
    requires sum == Sum2(p.inRows, p.inCols, LaneOf(InputTerms(p, x, t), l))
    requires tally == Product(Extent(p.RowWindow(t.s1)), Extent(p.ColWindow(t.s2)))
    requires mean == if tally == 0 then empty else sum / tally as real
    ensures 0 <= index * v + l && mean == AverageAt(p, x, empty, index * v + l)
  {
    InputTermsTotal(p, x, v, index, t, l);
    assert p.Out().Coord(index * v + l) == Lane(t, l);
  }

  /** The means of the lanes, as quotients. */
  method Means(op: Average, empty: real) returns (mean: seq<real>)
    ensures |mean| == |op.sum|
    ensures forall l :: 0 <= l < |op.sum| ==> mean[l] == if op.tally == 0 then empty else op.sum[l] / op.tally as real
  {
    mean := op.Value(empty);
  }

  /** m is the maximum of `lowest` and what the window of the output at o holds before (r, c). */
  ghost predicate MaxBefore(p: Params, x: seq<real>, o: Index4, lowest: real, r: int, c: int, m: real)
  {
    && m >= lowest && (m == lowest || exists r', c' :: Before(r', c', r, c) && Hit(p, x, o, m, r', c'))
    && forall r', c' :: Before(r', c', r, c) && InPool(p, o, r', c') ==> Val(p, x, o, r', c') <= m
  }

  ghost predicate Maxima(p: Params, v: nat, x: seq<real>, t: Index4, lowest: real, r: int, c: int, max: seq<real>)
  {
    |max| == v && forall l :: 0 <= l < v ==> MaxBefore(p, x, Lane(t, l), lowest, r, c, max[l])
  }

  /** Moving on past positions that are not in the window changes nothing. */
  lemma MaximaSkip(p: Params, v: nat, x: seq<real>, t: Index4, lowest: real, r: int, c: int, r': int, c': int,
                   max: seq<real>)
    requires Maxima(p, v, x, t, lowest, r, c, max)
    requires Before(r, c, r', c') || (r == r' && c == c')
    requires forall i, j :: Before(i, j, r', c') && !Before(i, j, r, c) ==> !InPool(p, t, i, j)
    ensures Maxima(p, v, x, t, lowest, r', c', max)
  {
  }

  lemma MaximaStep(p: Params, v: nat, x: seq<real>, t: Index4, lowest: real, r: int, c: int, max: seq<real>,
                   val: seq<real>, max': seq<real>)
    requires Maxima(p, v, x, t, lowest, r, c, max) && InPool(p, t, r, c)
    requires |val| == |max'| == v && forall l :: 0 <= l < v ==> val[l] == Val(p, x, Lane(t, l), r, c)
    requires forall l :: 0 <= l < v ==>
             max'[l] >= val[l] && max'[l] >= max[l] && (max'[l] == val[l] || max'[l] == max[l])
    ensures Maxima(p, v, x, t, lowest, r, c + 1, max')
  {
    forall l | 0 <= l < v
      ensures MaxBefore(p, x, Lane(t, l), lowest, r, c + 1, max'[l])
    {
      MaxBeforeStep(p, x, Lane(t, l), lowest, r, c, max[l], max'[l]);
    }
  }

  lemma MaxBeforeStep(p: Params, x: seq<real>, o: Index4, lowest: real, r: int, c: int, m: real, m': real)
    requires MaxBefore(p, x, o, lowest, r, c, m) && InPool(p, o, r, c)
    requires m' >= m && m' >= Val(p, x, o, r, c) && (m' == Val(p, x, o, r, c) || m' == m)
    ensures MaxBefore(p, x, o, lowest, r, c + 1, m')
  {
    if m' == m {
      if m != lowest {
        var i, j :| Before(i, j, r, c) && Hit(p, x, o, m, i, j);
        assert Before(i, j, r, c + 1);
      }
    } else {
      assert Before(r, c, r, c + 1) && Hit(p, x, o, m', r, c);
    }
    forall i, j | Before(i, j, r, c + 1) && InPool(p, o, i, j)
      ensures Val(p, x, o, i, j) <= m'
    {
      if !Before(i, j, r, c) {
        assert i == r && j == c;
      }
    }
  }

  /** After the last row the maximum of the whole window is known. */
  lemma MaximaEnd(p: Params, x: seq<real>, k: nat, lowest: real, r: int, m: real)
    requires p.Valid() && k < p.Out().Size() && MaxBefore(p, x, p.Out().Coord(k), lowest, r, 0, m)
    requires forall i :: i >= r ==> !p.Row(p.Out().Coord(k).s1, i)
    ensures PooledTo(p, x, lowest, k, m)
  {
    var o := p.Out().Coord(k);
    p.Out().IndexOfCoord(k);
    if m != lowest {
      var i, j :| Before(i, j, r, 0) && Hit(p, x, o, m, i, j);
      var t := Index4(o.s0, i, j, o.s3);
      p.In().CoordOfIndex(t);
      assert Covers(p, k, p.In().Index(t)) && At(x, p.In().Index(t)) == m;
    }
    forall n | Covers(p, k, n)
      ensures At(x, n) <= m
    {
      var t := p.In().Coord(n);
      p.In().IndexOfCoord(n);
      assert Before(t.s1, t.s2, r, 0) && InPool(p, o, t.s1, t.s2);
      assert Index4(o.s0, t.s1, t.s2, o.s3) == t;
    }
  }

  method MaxAtPosition(p: Params, v: nat, t: Index4, r: nat, c: nat, input: seq<real>, op: Max, ghost lowest: real)
    requires IsItem(p, v, t, input) && p.RowWindow(t.s1).Contains(r) && p.ColWindow(t.s2).Contains(c)
    requires Maxima(p, v, input, t, lowest, r, c, op.max)
    modifies op
    ensures Maxima(p, v, input, t, lowest, r, c + 1, op.max)
  {
    InsideWindow(p, v, t, r, c);
    var val := LoadLanes(p, v, t, r, c, input);
    ghost var before := op.max;
    op.Accumulate(val);
    MaximaStep(p, v, input, t, lowest, r, c, before, val, op.max);
  }

  method MaxRow(p: Params, v: nat, t: Index4, r: nat, input: seq<real>, op: Max, cols: Window, ghost lowest: real)
    requires IsItem(p, v, t, input) && p.RowWindow(t.s1).Contains(r) && cols == p.ColWindow(t.s2)
    requires Maxima(p, v, input, t, lowest, r, 0, op.max)
    modifies op
    ensures Maxima(p, v, input, t, lowest, r + 1, 0, op.max)
  {
    OutsideColumns(p, t);
    MaximaSkip(p, v, input, t, lowest, r, 0, r, cols.begin, op.max);
    var c := cols.begin;
    while c < cols.end
      invariant cols.begin <= c <= Larger(cols.begin, cols.end)
      invariant true == Maxima(p, v, input, t, lowest, r, c, op.max)
    {
      MaxAtPosition(p, v, t, r, c, input, op, lowest);
      c := c + 1;
    }
    MaximaSkip(p, v, input, t, lowest, r, c, r + 1, 0, op.max);
  }

  lemma OutsideColumns(p: Params, t: Index4)
    requires p.Valid() && p.Out().Has(t)
    ensures forall i, j :: InPool(p, t, i, j) ==> p.RowWindow(t.s1).Contains(i) && p.ColWindow(t.s2).Contains(j)
  {
  }

  /** The maxima of one vector of windows. */
  method MaxVector(p: Params, v: nat, w: nat, index: nat, lowest: real, input: seq<real>) returns (max: seq<real>)
    requires p.Valid() && SupportsWidth(p.Out(), v) && index < p.Out().Size() / v
    requires w >= 3 && p.Out().Size() < Pow2(w - 1) && |input| == p.In().Size()
    ensures |max| == v
    ensures forall l :: 0 <= l < v ==> PooledTo(p, input, lowest, index * v + l, max[l])
  {
    var op := new Max(lowest, v);
    var t := Decode(p.Out(), v, w, index);
    assert Lane(t, 0) == t;
    assert p.Out().Has(Lane(t, 0)) && p.Out().Has(Lane(t, v - 1));
    var rows := ClampedWindow(t.s1, p.strideRows, p.padRows, p.winRows, p.inRows);
    var cols := ClampedWindow(t.s2, p.strideCols, p.padCols, p.winCols, p.inCols);
    MaxWindow(p, v, t, input, op, rows, cols, lowest);
    forall l | 0 <= l < v
      ensures PooledTo(p, input, lowest, index * v + l, op.max[l])
    {
      assert p.Out().Coord(index * v + l) == Lane(t, l);
      OutsideColumns(p, t);
      MaximaEnd(p, input, index * v + l, lowest, Larger(rows.begin, rows.end), op.max[l]);
    }
    max := op.max;
  }

  method MaxWindow(p: Params, v: nat, t: Index4, input: seq<real>, op: Max, rows: Window, cols: Window,
                   ghost lowest: real)
    requires IsItem(p, v, t, input) && rows == p.RowWindow(t.s1) && cols == p.ColWindow(t.s2)
    requires op.max == Splat(lowest, v)
    modifies op
    ensures Maxima(p, v, input, t, lowest, Larger(rows.begin, rows.end), 0, op.max)
  {
    OutsideColumns(p, t);
    var r := rows.begin;
    assert Maxima(p, v, input, t, lowest, r, 0, op.max);
    while r < rows.end
      invariant rows.begin <= r <= Larger(rows.begin, rows.end)
      invariant true == Maxima(p, v, input, t, lowest, r, 0, op.max)
    {
      MaxRow(p, v, t, r, input, op, cols, lowest);
      r := r + 1;
    }
  }

  method AverageItem(p: Params, v: nat, w: nat, index: nat, empty: real, input: seq<real>, output: array<real>)
    requires p.Valid() && SupportsWidth(p.Out(), v) && index < p.Out().Size() / v
    requires w >= 3 && p.Out().Size() < Pow2(w - 1) && |input| == p.In().Size() && output.Length == p.Out().Size()
    modifies output
    ensures forall k :: 0 <= k < output.Length ==>
              output[k] == if Owns(index, v, k) then AverageForward(p, input, empty)[k] else old(output[k])
  {
    var mean := AverageVector(p, v, w, index, empty, input);
    ItemOwns(p.Out(), v, index);
    Store(output, index * v, mean);
    forall k | Owns(index, v, k)
      ensures output[k] == AverageForward(p, input, empty)[k]
    {
      assert mean[k - index * v] == AverageAt(p, input, empty, index * v + (k - index * v));
    }
  }

  /** Theorem: in any order of the work-items the launch computes the average of every window. */
  method LaunchAverage(p: Params, w: nat, order: seq<nat>, empty: real, input: seq<real>, output: array<real>)
    requires p.Valid() && w >= 3 && p.Out().Size() < Pow2(w - 1)
    requires |input| == p.In().Size() && output.Length == p.Out().Size()
    requires IsSchedule(order, p.Out().Size() / ChosenWidth(p.Out()))
    modifies output
    ensures output[..] == AverageForward(p, input, empty)
  {
    var v := ChosenWidth(p.Out());
    ghost var y := AverageForward(p, input, empty);
    for s := 0 to |order|
      invariant forall s', k :: 0 <= s' < s && 0 <= k < output.Length && Owns(order[s'], v, k) ==> output[k] == y[k]
    {
      AverageItem(p, v, w, order[s], empty, input, output);
    }
    forall k | 0 <= k < output.Length
      ensures output[k] == y[k]
    {
      OwnerRuns(p.Out(), v, order, k);
    }
  }

  method MaxItem(p: Params, v: nat, w: nat, index: nat, lowest: real, input: seq<real>, output: array<real>)
    requires p.Valid() && SupportsWidth(p.Out(), v) && index < p.Out().Size() / v
    requires w >= 3 && p.Out().Size() < Pow2(w - 1) && |input| == p.In().Size() && output.Length == p.Out().Size()
    modifies output
    ensures forall k :: 0 <= k < output.Length ==>
              if Owns(index, v, k) then PooledTo(p, input, lowest, k, output[k]) else output[k] == old(output[k])
  {
    var max := MaxVector(p, v, w, index, lowest, input);
    ItemOwns(p.Out(), v, index);
    Store(output, index * v, max);
    forall k | Owns(index, v, k)
      ensures PooledTo(p, input, lowest, k, output[k])
    {
      assert PooledTo(p, input, lowest, index * v + (k - index * v), max[k - index * v]);
    }
  }

  /** Theorem: the launch computes the maximum of every window. */
  method LaunchMax(p: Params, w: nat, order: seq<nat>, lowest: real, input: seq<real>, output: array<real>)
    requires p.Valid() && w >= 3 && p.Out().Size() < Pow2(w - 1)
    requires |input| == p.In().Size() && output.Length == p.Out().Size()
    requires IsSchedule(order, p.Out().Size() / ChosenWidth(p.Out()))
    modifies output
    ensures forall k :: 0 <= k < output.Length ==> PooledTo(p, input, lowest, k, output[k])
    ensures forall k, n :: 0 <= k < output.Length && Covers(p, k, n) ==> At(input, n) <= output[k]
    ensures forall k :: 0 <= k < output.Length ==>
              output[k] == lowest || exists n :: Covers(p, k, n) && At(input, n) == output[k]
    ensures (forall n :: 0 <= n < |input| ==> input[n] >= lowest) ==> IsPooled(p, input, output[..])
  {
    var v := ChosenWidth(p.Out());
    for s := 0 to |order|
      invariant forall s', k :: 0 <= s' < s && 0 <= k < output.Length && Owns(order[s'], v, k) ==>
                  PooledTo(p, input, lowest, k, output[k])
    {
      MaxItem(p, v, w, order[s], lowest, input, output);
    }
    forall k | 0 <= k < output.Length
      ensures PooledTo(p, input, lowest, k, output[k])
    {
      OwnerRuns(p.Out(), v, order, k);
    }
    if forall n :: 0 <= n < |input| ==> input[n] >= lowest {
      forall k: nat | k < output.Length && Count(p, k) > 0
        ensures IsWindowMax(p, input, k, output[k])
      {
        PooledIsMax(p, input, lowest, k, output[k]);
      }
    }
  }
}
