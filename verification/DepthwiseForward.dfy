/** The forward depthwise kernel: a loop nest over filter rows and columns with running offsets. */
module DepthwiseForward {
  import opened Arithmetic
  import opened Sums
  import opened Adjoints
  import opened TensorIndex
  import opened WindowIndex
  import opened VectorIO
  import opened DepthwiseConv

  ghost function RowSum(p: Params, x: seq<real>, w: seq<real>, o: Index4, i: int, n: nat): real
    requires p.Valid()
  {
    Sum(n, j => ForwardTap(p, x, w, o, i, j))
  }

  ghost function NestSum(p: Params, x: seq<real>, w: seq<real>, o: Index4, n: nat): real
    requires p.Valid()
  {
    Sum(n, i => RowSum(p, x, w, o, i, p.winCols))
  }

  lemma NestIsForward(p: Params, x: seq<real>, w: seq<real>, k: nat, o: Index4)
    requires p.Valid() && k < p.OutSize() && o == Unflatten4(k, p.outRows, p.outCols, p.Features())
    ensures Forward(p, x, w)[k] == NestSum(p, x, w, o, p.winRows)
  {
    ForwardLoops(p, x, w, k, o);
    var tap := (i, j) => ForwardTap(p, x, w, o, i, j);
    var row := i => RowSum(p, x, w, o, i, p.winCols);
    forall i | 0 <= i < p.winRows
      ensures row(i) == Sum(p.winCols, j => tap(i, j))
    {
      SumExt(p.winCols, j => tap(i, j), j => ForwardTap(p, x, w, o, i, j));
    }
    Sum2Nested(p.winRows, p.winCols, tap, row);
  }

  /** A row outside the input contributes nothing. */
  lemma RowOutside(p: Params, x: seq<real>, w: seq<real>, o: Index4, i: int)
    requires p.Valid() && !(0 <= p.InRow(o.s1, i) < p.inRows)
    ensures RowSum(p, x, w, o, i, p.winCols) == 0.0
  {
    SumZero(p.winCols, j => ForwardTap(p, x, w, o, i, j));
  }

  /** The output coordinates of lane l of a work-item. */
  function Lane(t: Index4, v: nat, l: nat): Index4
  {
    Index4(t.s0, t.s1, t.s2, t.s3 * v + l)
  }

  ghost predicate IsItem(p: Params, v: nat, t: Index4)
    requires p.Valid()
  {
    && SupportsWidth(p, v)
    && 0 <= t.s0 < p.batch && 0 <= t.s1 < p.outRows && 0 <= t.s2 < p.outCols
    && 0 <= t.s3 * v && t.s3 * v + v <= p.Features()
  }

  lemma WidthDividesFeatures(p: Params, v: nat)
    requires p.Valid() && SupportsWidth(p, v)
    ensures v > 0 && p.Features() % v == 0
    ensures p.multiplier == 1 ==> p.Features() == p.channels
  {
  }

  /** A filter position inside the input: the two elements the kernel loads are those of the tap. */
  lemma TapInside(p: Params, v: nat, x: seq<real>, w: seq<real>, t: Index4, l: nat, i: int, j: int, inOffset: int,
                  filOffset: int)
    requires p.Valid() && IsItem(p, v, t) && l < v
    requires |x| == p.InSize() && |w| == p.FilSize()
    requires 0 <= i < p.winRows && 0 <= j < p.winCols
    requires 0 <= p.InRow(t.s1, i) < p.inRows && 0 <= p.InCol(t.s2, j) < p.inCols
    requires inOffset == p.InIndex(t.s0, p.InRow(t.s1, i), p.InCol(t.s2, j), t.s3 * v / p.multiplier)
    requires filOffset == p.FilIndex(i, j, t.s3 * v)
    ensures 0 <= inOffset + l < |x| && 0 <= filOffset + l < |w|
    ensures ForwardTap(p, x, w, Lane(t, v, l), i, j) == Times(x[inOffset + l], w[filOffset + l])
  {
    var feature := t.s3 * v;
    var row, col := p.InRow(t.s1, i), p.InCol(t.s2, j);
    LaneChannel(p, v, feature, l);
    FlattenStep(t.s0, row, col, feature / p.multiplier, p.inRows, p.inCols, p.channels, l);
    FlattenStep3(i, j, feature, p.winCols, p.Features(), l);
    Flatten4Bound(t.s0, row, col, feature / p.multiplier + l, p.batch, p.inRows, p.inCols, p.channels);
    Flatten3Bound(i, j, feature + l, p.winRows, p.winCols, p.Features());
  }

  /** The accumulator after i whole rows and j columns of row i. */
  ghost predicate Accumulated(p: Params, v: nat, x: seq<real>, w: seq<real>, t: Index4, i: nat, j: nat, acc: seq<real>)
    requires p.Valid()
  {
    && |acc| == v
    && forall l :: 0 <= l < v ==> acc[l] == NestSum(p, x, w, Lane(t, v, l), i) + RowSum(p, x, w, Lane(t, v, l), i, j)
  }

  lemma NextRow(p: Params, v: nat, x: seq<real>, w: seq<real>, t: Index4, i: nat, j: nat, acc: seq<real>)
    requires p.Valid() && Accumulated(p, v, x, w, t, i, j, acc)
    requires j == p.winCols || (j == 0 && !(0 <= p.InRow(t.s1, i) < p.inRows))
    ensures Accumulated(p, v, x, w, t, i + 1, 0, acc)
  {
    forall l | 0 <= l < v
      ensures acc[l] == NestSum(p, x, w, Lane(t, v, l), i + 1) + RowSum(p, x, w, Lane(t, v, l), i + 1, 0)
    {
      if j == 0 && !(0 <= p.InRow(t.s1, i) < p.inRows) {
        RowOutside(p, x, w, Lane(t, v, l), i);
      }
    }
  }

  lemma LoadsInside(p: Params, v: nat, x: seq<real>, w: seq<real>, t: Index4, i: int, j: int, inOffset: int,
                    filOffset: int)
    requires p.Valid() && IsItem(p, v, t)
    requires |x| == p.InSize() && |w| == p.FilSize()
    requires 0 <= i < p.winRows && 0 <= j < p.winCols
    requires 0 <= p.InRow(t.s1, i) < p.inRows && 0 <= p.InCol(t.s2, j) < p.inCols
    requires inOffset == p.InIndex(t.s0, p.InRow(t.s1, i), p.InCol(t.s2, j), t.s3 * v / p.multiplier)
    requires filOffset == p.FilIndex(i, j, t.s3 * v)
    ensures 0 <= inOffset && inOffset + v <= |x| && 0 <= filOffset && filOffset + v <= |w|
  {
    TapInside(p, v, x, w, t, 0, i, j, inOffset, filOffset);
    TapInside(p, v, x, w, t, v - 1, i, j, inOffset, filOffset);
  }

  lemma NextTap(p: Params, v: nat, x: seq<real>, w: seq<real>, t: Index4, i: nat, j: nat,
                inOffset: int, filOffset: int, acc: seq<real>, acc': seq<real>)
    requires p.Valid() && IsItem(p, v, t)
    requires |x| == p.InSize() && |w| == p.FilSize()
    requires 0 <= i < p.winRows && 0 <= j < p.winCols
    requires 0 <= p.InRow(t.s1, i) < p.inRows && 0 <= p.InCol(t.s2, j) < p.inCols
    requires inOffset == p.InIndex(t.s0, p.InRow(t.s1, i), p.InCol(t.s2, j), t.s3 * v / p.multiplier)
    requires filOffset == p.FilIndex(i, j, t.s3 * v)
    requires Accumulated(p, v, x, w, t, i, j, acc)
    requires 0 <= inOffset && inOffset + v <= |x| && 0 <= filOffset && filOffset + v <= |w|
    requires acc' == Mad(Load(x, inOffset, v), Load(w, filOffset, v), acc)
    ensures Accumulated(p, v, x, w, t, i, j + 1, acc')
  {
    forall l | 0 <= l < v
      ensures acc'[l] == NestSum(p, x, w, Lane(t, v, l), i) + RowSum(p, x, w, Lane(t, v, l), i, j + 1)
    {
      TapInside(p, v, x, w, t, l, i, j, inOffset, filOffset);
    }
  }

  lemma SkipTap(p: Params, v: nat, x: seq<real>, w: seq<real>, t: Index4, i: nat, j: nat, acc: seq<real>)
    requires p.Valid() && Accumulated(p, v, x, w, t, i, j, acc)
    requires !(0 <= p.InCol(t.s2, j) < p.inCols)
    ensures Accumulated(p, v, x, w, t, i, j + 1, acc)
  {
  }

  lemma LaneComplete(p: Params, v: nat, x: seq<real>, w: seq<real>, index: nat, t: Index4, l: nat, k: int,
                     acc: seq<real>, y: seq<real>)
    requires p.Valid() && SupportsWidth(p, v) && index < p.OutSize() / v && p.Features() / v > 0 && l < v
    requires k == index * v + l && y == Forward(p, x, w)
    requires t == Unflatten4(index, p.outRows, p.outCols, p.Features() / v)
    requires Accumulated(p, v, x, w, t, p.winRows, 0, acc)
    ensures l < |acc| && 0 <= k < |y| && acc[l] == y[k]
  {
    WidthDividesFeatures(p, v);
    ProductSign(index, v);
    LaneOfItem(index, v, l, p.batch, p.outRows, p.outCols, p.Features());
    NestIsForward(p, x, w, k, Lane(t, v, l));
  }

  lemma EachLaneComplete(p: Params, v: nat, x: seq<real>, w: seq<real>, index: nat, t: Index4, acc: seq<real>,
                         base: int, y: seq<real>)
    requires p.Valid() && SupportsWidth(p, v) && index < p.OutSize() / v && p.Features() / v > 0
    requires t == Unflatten4(index, p.outRows, p.outCols, p.Features() / v)
    requires true == Accumulated(p, v, x, w, t, p.winRows, 0, acc) && base == index * v && y == Forward(p, x, w)
    ensures |acc| == v && LanesAre(acc, base, y)
  {
    forall l | 0 <= l < v
      ensures LaneIs(acc, base, y, l)
    {
      LaneComplete(p, v, x, w, index, t, l, base + l, acc, y);
    }
  }

  lemma LanesComplete(p: Params, v: nat, x: seq<real>, w: seq<real>, index: nat, t: Index4, acc: seq<real>)
    requires p.Valid() && SupportsWidth(p, v) && index < p.OutSize() / v && p.Features() / v > 0
    requires t == Unflatten4(index, p.outRows, p.outCols, p.Features() / v)
    requires Accumulated(p, v, x, w, t, p.winRows, 0, acc)
    ensures 0 <= index * v && index * v + v <= p.OutSize()
    ensures forall k :: Owns(index, v, k) ==> acc[k - index * v] == Forward(p, x, w)[k]
  {
    EachLaneComplete(p, v, x, w, index, t, acc, index * v, Forward(p, x, w));
    OwnedLanes(acc, index, v, index * v, Forward(p, x, w));
  }

  /** One filter element: multiplies and accumulates where it lies over the input. */
  method ForwardTapAt(p: Params, v: nat, ghost t: Index4, col: int, ghost i: nat, ghost j: nat,
                      inputOffset: int, filterOffset: int, input: seq<real>, filter: seq<real>, acc: seq<real>)
    returns (outVal: seq<real>)
    requires p.Valid() && IsItem(p, v, t) && i < p.winRows && j < p.winCols
    requires |input| == p.InSize() && |filter| == p.FilSize()
    requires 0 <= p.InRow(t.s1, i) < p.inRows && col == p.InCol(t.s2, j)
    requires inputOffset == p.InIndex(t.s0, p.InRow(t.s1, i), col, t.s3 * v / p.multiplier)
    requires filterOffset == p.FilIndex(i, j, t.s3 * v)
    requires Accumulated(p, v, input, filter, t, i, j, acc)
    ensures Accumulated(p, v, input, filter, t, i, j + 1, outVal)
  {
    outVal := acc;
    if col >= 0 && col < p.inCols {
      LoadsInside(p, v, input, filter, t, i, j, inputOffset, filterOffset);
      var inVal := Load(input, inputOffset, v);
      var filVal := Load(filter, filterOffset, v);
      ghost var before := outVal;
      outVal := Mad(inVal, filVal, outVal);
      NextTap(p, v, input, filter, t, i, j, inputOffset, filterOffset, before, outVal);
    } else {
      SkipTap(p, v, input, filter, t, i, j, outVal);
    }
  }

  /** One filter row: runs its columns over the input with running offsets. */
  method ForwardRow(p: Params, v: nat, ghost t: Index4, cstart: int, firstc: int, row: int, i: nat,
                    inputRowOffset: int, filterRowOffset: int, input: seq<real>, filter: seq<real>, acc: seq<real>)
    returns (outVal: seq<real>)
    requires p.Valid() && IsItem(p, v, t) && i < p.winRows
    requires |input| == p.InSize() && |filter| == p.FilSize()
    requires firstc == 0 && cstart == p.InCol(t.s2, 0)
    requires row == p.InRow(t.s1, i) && 0 <= row < p.inRows
    requires inputRowOffset == p.InIndex(t.s0, row, 0, t.s3 * v / p.multiplier)
    requires filterRowOffset == p.FilIndex(i, 0, t.s3 * v)
    requires Accumulated(p, v, input, filter, t, i, 0, acc)
    ensures Accumulated(p, v, input, filter, t, i, p.winCols, outVal)
  {
    ghost var feature := t.s3 * v;
    ghost var channel := feature / p.multiplier;
    var features := p.Features();
    FlattenStep(t.s0, row, 0, channel, p.inRows, p.inCols, p.channels, cstart);
    var inputOffset := inputRowOffset + cstart * p.channels;
    var filterOffset := filterRowOffset + firstc * features;
    var col, j := cstart, firstc;
    outVal := acc;
    while j < p.winCols
      invariant 0 <= j <= p.winCols && col == p.InCol(t.s2, j)
      invariant inputOffset == p.InIndex(t.s0, row, col, channel)
      invariant filterOffset == p.FilIndex(i, j, feature)
      invariant true == Accumulated(p, v, input, filter, t, i, j, outVal)
    {
      outVal := ForwardTapAt(p, v, t, col, i, j, inputOffset, filterOffset, input, filter, outVal);
      FlattenStep(t.s0, row, col, channel, p.inRows, p.inCols, p.channels, 1);
      FlattenStep3(i, j, feature, p.winCols, features, 1);
      inputOffset := inputOffset + p.channels;
      filterOffset := filterOffset + features;
      col, j := col + 1, j + 1;
    }
  }

  /** Runs the rows of the filter over the input for one vector of output elements. */
  method ForwardVector(p: Params, v: nat, index: nat, input: seq<real>, filter: seq<real>) returns (outVal: seq<real>)
    requires p.Valid() && SupportsWidth(p, v) && index < p.OutSize() / v
    requires |input| == p.InSize() && |filter| == p.FilSize()
    ensures |outVal| == v && 0 <= index * v && index * v + v <= p.OutSize()
    ensures forall k :: Owns(index, v, k) ==> outVal[k - index * v] == Forward(p, input, filter)[k]
  {
    var features := p.Features();
    ItemInRange(p, v, index);
    var t := Unflatten4(index, p.outRows, p.outCols, features / v);
    var feature, colIdx, rowIdx, batchIdx := t.s3 * v, t.s2, t.s1, t.s0;
    var featureIdx := Unflatten2(feature, p.multiplier);
    var multiple, channel := featureIdx.s1, featureIdx.s0;
    var colWindow := InWindowFromOutput(colIdx, p.strideCols, p.padCols);
    var cstart, firstc := colWindow.windowStart, colWindow.filterStart;
    var rowWindow := InWindowFromOutput(rowIdx, p.strideRows, p.padRows);
    var rstart, firstr := rowWindow.windowStart, rowWindow.filterStart;

    outVal := Splat(0.0, v);
    var inputInitialOffset := batchIdx * p.inCols * p.inRows * p.channels + channel;
    var filterInitialOffset := channel * p.multiplier + multiple;
    var inputRowOffset := inputInitialOffset + rstart * p.inCols * p.channels;
    var filterRowOffset := filterInitialOffset + firstr * p.winRows * features;
    StartOffsets(p, t.s0, rstart, channel, feature);
    var row, i := rstart, firstr;
    while i < p.winRows
      invariant 0 <= i <= p.winRows && row == p.InRow(t.s1, i)
      invariant inputRowOffset == p.InIndex(t.s0, row, 0, channel)
      invariant filterRowOffset == p.FilIndex(i, 0, feature)
      invariant true == Accumulated(p, v, input, filter, t, i, 0, outVal)
    {
      if row >= 0 && row < p.inRows {
        outVal := ForwardRow(p, v, t, cstart, firstc, row, i, inputRowOffset, filterRowOffset, input, filter, outVal);
        NextRow(p, v, input, filter, t, i, p.winCols, outVal);
      } else {
        NextRow(p, v, input, filter, t, i, 0, outVal);
      }
      FlattenStep(t.s0, row, 0, channel, p.inRows, p.inCols, p.channels, 1);
      FlattenStep3(i, 0, feature, p.winCols, features, 1);
      inputRowOffset := inputRowOffset + p.inCols * p.channels;
      filterRowOffset := filterRowOffset + p.winCols * features;
      row, i := row + 1, i + 1;
    }
    LanesComplete(p, v, input, filter, index, t, outVal);
  }

  /** One work-item: stores its own vector, and nothing past the end. */
  method ForwardItem(p: Params, v: nat, index: nat, input: seq<real>, filter: seq<real>, output: array<real>)
    requires p.Valid() && SupportsWidth(p, v)
    requires |input| == p.InSize() && |filter| == p.FilSize() && output.Length == p.OutSize()
    modifies output
    ensures forall k :: 0 <= k < output.Length ==>
              output[k] == if Owns(index, v, k) then Forward(p, input, filter)[k] else old(output[k])
  {
    WidthDividesFeatures(p, v);
    var nElems := p.OutSize() / v;
    if index < nElems {
      var outVal := ForwardVector(p, v, index, input, filter);
      ProductSign(index, v);
      Store(output, index * v, outVal);
    } else {
      ItemOutside(p, v, index);
    }
  }

  lemma ItemInRange(p: Params, v: nat, index: nat)
    requires p.Valid() && SupportsWidth(p, v) && index < p.OutSize() / v
    ensures p.Features() / v > 0
    ensures IsItem(p, v, Unflatten4(index, p.outRows, p.outCols, p.Features() / v))
  {
    WidthDividesFeatures(p, v);
    LaneOfItem(index, v, 0, p.batch, p.outRows, p.outCols, p.Features());
    LaneOfItem(index, v, v - 1, p.batch, p.outRows, p.outCols, p.Features());
  }

  /** Items past the end own no output element. */
  lemma ItemOutside(p: Params, v: nat, index: nat)
    requires p.Valid() && SupportsWidth(p, v) && index >= p.OutSize() / v
    ensures index * v >= p.OutSize()
  {
    WidthDividesFeatures(p, v);
    WholeVectors(Product(Product(p.batch, p.outRows), p.outCols), p.Features(), v);
    MulMono(p.OutSize() / v, index, v);
  }

  lemma StartOffsets(p: Params, b: int, rstart: int, channel: int, feature: int)
    requires p.Valid() && feature >= 0 && channel == feature / p.multiplier
    ensures b * p.inCols * p.inRows * p.channels + channel + rstart * p.inCols * p.channels
            == p.InIndex(b, rstart, 0, channel)
    ensures channel * p.multiplier + feature % p.multiplier == p.FilIndex(0, 0, feature)
  {
  }

  /** Theorem: whatever order the work-items run in, the launch computes the forward map. */
  method LaunchForward(p: Params, workgroupSize: nat, order: seq<nat>, input: seq<real>, filter: seq<real>,
                       output: array<real>)
    requires p.Valid() && workgroupSize > 0
    requires |input| == p.InSize() && |filter| == p.FilSize() && output.Length == p.OutSize()
    requires IsSchedule(order, RoundUpToNearestMultiple(p.OutSize() / ChosenWidth(p), workgroupSize))
    modifies output
    ensures output[..] == Forward(p, input, filter)
  {
    var v := ChosenWidth(p);
    ghost var y := Forward(p, input, filter);
    for s := 0 to |order|
      invariant forall s', k :: 0 <= s' < s && 0 <= k < output.Length && Owns(order[s'], v, k) ==> output[k] == y[k]
    {
      ForwardItem(p, v, order[s], input, filter, output);
    }
    WidthDividesFeatures(p, v);
    WholeVectors(Product(Product(p.batch, p.outRows), p.outCols), p.Features(), v);
    forall k | 0 <= k < output.Length
      ensures output[k] == y[k]
    {
      QuotientBelow(k, v, p.OutSize() / v);
      OwnerScheduled(order, RoundUpToNearestMultiple(p.OutSize() / v, workgroupSize), v, k);
    }
  }
}
