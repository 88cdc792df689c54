/** The filter-backprop depthwise kernel. The work-items of one group share a vector of filter elements:
    each sums a (batch, column)-strided part of the images, and the group reduces the parts. */
module DepthwiseFilterBackprop {
  import opened Arithmetic
  import opened Sums
  import opened StridedSums
  import opened Adjoints
  import opened FastDivision
  import opened TensorIndex
  import opened WindowIndex
  import opened VectorIO
  import opened WorkgroupReduce
  import opened WorkgroupSizing
  import opened DepthwiseConv

  /** The taps of one filter element, by image, output row and output column. */
  ghost function TapsOf(p: Params, x: seq<real>, e: seq<real>, c: Index3): Tap
    requires p.Valid()
  {
    (b, row, col) => FilterTap(p, x, e, c, b, row, col)
  }

  function Lane(c: Index3, l: nat): Index3
  {
    Index3(c.s0, c.s1, c.s2 + l)
  }

  ghost predicate IsItem(p: Params, v: nat, c: Index3)
    requires p.Valid()
  {
    && SupportsWidth(p, v)
    && 0 <= c.s0 < p.winRows && 0 <= c.s1 < p.winCols
    && 0 <= c.s2 && c.s2 + v <= p.Features()
  }

  /** A position inside the input: the two elements the kernel loads are those of the tap. */
  lemma TapInside(p: Params, v: nat, x: seq<real>, e: seq<real>, c: Index3, l: nat, b: int, i: int, j: int,
                  inOffset: int, errOffset: int)
    requires p.Valid() && IsItem(p, v, c) && l < v
    requires |x| == p.InSize() && |e| == p.OutSize()
    requires 0 <= b < p.batch && 0 <= i < p.outRows && 0 <= j < p.outCols
    requires 0 <= p.InRow(i, c.s0) < p.inRows && 0 <= p.InCol(j, c.s1) < p.inCols
    requires inOffset == p.InIndex(b, p.InRow(i, c.s0), p.InCol(j, c.s1), c.s2 / p.multiplier)
    requires errOffset == p.OutIndex(b, i, j, c.s2)
    ensures 0 <= inOffset + l < |x| && 0 <= errOffset + l < |e|
    ensures TapsOf(p, x, e, Lane(c, l))(b, i, j) == Times(x[inOffset + l], e[errOffset + l])
  {
    var row, col := p.InRow(i, c.s0), p.InCol(j, c.s1);
    LaneChannel(p, v, c.s2, l);
    FlattenStep(b, row, col, c.s2 / p.multiplier, p.inRows, p.inCols, p.channels, l);
    FlattenStep(b, i, j, c.s2, p.outRows, p.outCols, p.Features(), l);
    Flatten4Bound(b, row, col, c.s2 / p.multiplier + l, p.batch, p.inRows, p.inCols, p.channels);
    Flatten4Bound(b, i, j, c.s2 + l, p.batch, p.outRows, p.outCols, p.Features());
  }

  lemma TapOutside(p: Params, x: seq<real>, e: seq<real>, c: Index3, b: int, i: int, j: int)
    requires p.Valid() && !(0 <= p.InRow(i, c.s0) < p.inRows && 0 <= p.InCol(j, c.s1) < p.inCols)
    ensures TapsOf(p, x, e, c)(b, i, j) == 0.0
  {
  }

  lemma LoadsInside(p: Params, v: nat, x: seq<real>, e: seq<real>, c: Index3, b: int, i: int, j: int, inOffset: int,
                    errOffset: int)
    requires p.Valid() && IsItem(p, v, c)
    requires |x| == p.InSize() && |e| == p.OutSize()
    requires 0 <= b < p.batch && 0 <= i < p.outRows && 0 <= j < p.outCols
    requires 0 <= p.InRow(i, c.s0) < p.inRows && 0 <= p.InCol(j, c.s1) < p.inCols
    requires inOffset == p.InIndex(b, p.InRow(i, c.s0), p.InCol(j, c.s1), c.s2 / p.multiplier)
    requires errOffset == p.OutIndex(b, i, j, c.s2)
    ensures 0 <= inOffset && inOffset + v <= |x| && 0 <= errOffset && errOffset + v <= |e|
  {
    TapInside(p, v, x, e, c, 0, b, i, j, inOffset, errOffset);
    TapInside(p, v, x, e, c, v - 1, b, i, j, inOffset, errOffset);
  }

  /** The work a group shares: its filter element, and how many items stride through images and columns. */
  datatype Share = Share(c: Index3, nb: nat, nk: nat, bi: nat, ki: nat)
  {
    predicate Valid() { bi < nb && ki < nk }
  }

  /** The accumulator after the images before b, the rows before `row` of b, and the columns before n there. */
  ghost predicate Accumulated(p: Params, v: nat, x: seq<real>, e: seq<real>, g: Share, b: nat, row: nat, n: nat,
                              acc: seq<real>)
    requires p.Valid() && g.Valid()
  {
    && |acc| == v
    && forall l :: 0 <= l < v ==>
         var tap := TapsOf(p, x, e, Lane(g.c, l));
         acc[l] == ItemPart(tap, g.nb, g.nk, p.outRows, p.outCols, g.bi, g.ki, b)
                   + RowsPart(tap, g.nk, g.ki, p.outCols, b, row)
                   + ColumnsPart(tap, g.nk, g.ki, b, row, n)
  }

  lemma NextTap(p: Params, v: nat, x: seq<real>, e: seq<real>, g: Share, b: nat, i: nat, j: nat,
                inOffset: int, errOffset: int, acc: seq<real>, acc': seq<real>)
    requires p.Valid() && g.Valid() && IsItem(p, v, g.c)
    requires |x| == p.InSize() && |e| == p.OutSize()
    requires b < p.batch && i < p.outRows && j < p.outCols && j % g.nk == g.ki
    requires 0 <= p.InRow(i, g.c.s0) < p.inRows && 0 <= p.InCol(j, g.c.s1) < p.inCols
    requires inOffset == p.InIndex(b, p.InRow(i, g.c.s0), p.InCol(j, g.c.s1), g.c.s2 / p.multiplier)
    requires errOffset == p.OutIndex(b, i, j, g.c.s2)
    requires Accumulated(p, v, x, e, g, b, i, j, acc)
    requires 0 <= inOffset && inOffset + v <= |x| && 0 <= errOffset && errOffset + v <= |e|
    requires acc' == Mad(Load(x, inOffset, v), Load(e, errOffset, v), acc)
    ensures Accumulated(p, v, x, e, g, b, i, Min(j + g.nk, p.outCols), acc')
  {
    forall l | 0 <= l < v
      ensures var tap := TapsOf(p, x, e, Lane(g.c, l));
              acc'[l] == ItemPart(tap, g.nb, g.nk, p.outRows, p.outCols, g.bi, g.ki, b)
                         + RowsPart(tap, g.nk, g.ki, p.outCols, b, i)
                         + ColumnsPart(tap, g.nk, g.ki, b, i, Min(j + g.nk, p.outCols))
    {
      TapInside(p, v, x, e, g.c, l, b, i, j, inOffset, errOffset);
      var tap := TapsOf(p, x, e, Lane(g.c, l));
      ResidueStep(p.outCols, g.nk, g.ki, j, col => tap(b, i, col));
    }
  }

  lemma SkipTap(p: Params, v: nat, x: seq<real>, e: seq<real>, g: Share, b: nat, i: nat, j: nat, acc: seq<real>)
    requires p.Valid() && g.Valid()
    requires j < p.outCols && j % g.nk == g.ki
    requires !(0 <= p.InCol(j, g.c.s1) < p.inCols)
    requires Accumulated(p, v, x, e, g, b, i, j, acc)
    ensures Accumulated(p, v, x, e, g, b, i, Min(j + g.nk, p.outCols), acc)
  {
    forall l | 0 <= l < v
      ensures var tap := TapsOf(p, x, e, Lane(g.c, l));
              ColumnsPart(tap, g.nk, g.ki, b, i, Min(j + g.nk, p.outCols)) == ColumnsPart(tap, g.nk, g.ki, b, i, j)
    {
      TapOutside(p, x, e, Lane(g.c, l), b, i, j);
      var tap := TapsOf(p, x, e, Lane(g.c, l));
      ResidueStep(p.outCols, g.nk, g.ki, j, col => tap(b, i, col));
    }
  }

  lemma StartRow(p: Params, v: nat, x: seq<real>, e: seq<real>, g: Share, b: nat, i: nat, acc: seq<real>)
    requires p.Valid() && g.Valid() && Accumulated(p, v, x, e, g, b, i, 0, acc)
    ensures Accumulated(p, v, x, e, g, b, i, Min(g.ki, p.outCols), acc)
  {
    forall l | 0 <= l < v
      ensures var tap := TapsOf(p, x, e, Lane(g.c, l));
              ColumnsPart(tap, g.nk, g.ki, b, i, Min(g.ki, p.outCols)) == ColumnsPart(tap, g.nk, g.ki, b, i, 0)
    {
      var tap := TapsOf(p, x, e, Lane(g.c, l));
      ResidueStart(Min(g.ki, p.outCols), g.nk, g.ki, col => tap(b, i, col));
    }
  }

  /** A finished row, or one outside the input. */
  lemma NextRow(p: Params, v: nat, x: seq<real>, e: seq<real>, g: Share, b: nat, i: nat, n: nat, acc: seq<real>)
    requires p.Valid() && g.Valid() && Accumulated(p, v, x, e, g, b, i, n, acc)
    requires n == p.outCols || (n == 0 && !(0 <= p.InRow(i, g.c.s0) < p.inRows))
    ensures Accumulated(p, v, x, e, g, b, i + 1, 0, acc)
  {
    forall l | 0 <= l < v
      ensures var tap := TapsOf(p, x, e, Lane(g.c, l));
              ColumnsPart(tap, g.nk, g.ki, b, i, n) == ColumnsPart(tap, g.nk, g.ki, b, i, p.outCols)
    {
      if n == 0 {
        RowOutside(p, x, e, g, Lane(g.c, l), b, i);
      }
    }
  }

  lemma RowOutside(p: Params, x: seq<real>, e: seq<real>, g: Share, c: Index3, b: int, i: int)
    requires p.Valid() && g.Valid() && !(0 <= p.InRow(i, c.s0) < p.inRows)
    ensures ColumnsPart(TapsOf(p, x, e, c), g.nk, g.ki, b, i, p.outCols) == 0.0
  {
    var tap := TapsOf(p, x, e, c);
    forall col | 0 <= col < p.outCols
      ensures tap(b, i, col) == 0.0
    {
      TapOutside(p, x, e, c, b, i, col);
    }
    var f := col => tap(b, i, col);
    SumZero(p.outCols, col => if col % g.nk == g.ki then f(col) else 0.0);
  }

  lemma NextImage(p: Params, v: nat, x: seq<real>, e: seq<real>, g: Share, b: nat, acc: seq<real>)
    requires p.Valid() && g.Valid() && b < p.batch && b % g.nb == g.bi
    requires Accumulated(p, v, x, e, g, b, p.outRows, 0, acc)
    ensures Accumulated(p, v, x, e, g, Min(b + g.nb, p.batch), 0, 0, acc)
  {
    forall l | 0 <= l < v
      ensures var tap := TapsOf(p, x, e, Lane(g.c, l));
              ItemPart(tap, g.nb, g.nk, p.outRows, p.outCols, g.bi, g.ki, Min(b + g.nb, p.batch)) ==
              ItemPart(tap, g.nb, g.nk, p.outRows, p.outCols, g.bi, g.ki, b)
                + RowsPart(tap, g.nk, g.ki, p.outCols, b, p.outRows)
    {
      var tap := TapsOf(p, x, e, Lane(g.c, l));
      ResidueStep(p.batch, g.nb, g.bi, b, k => RowsPart(tap, g.nk, g.ki, p.outCols, k, p.outRows));
    }
  }

  lemma StartImages(p: Params, v: nat, x: seq<real>, e: seq<real>, g: Share)
    requires p.Valid() && g.Valid()
    ensures Accumulated(p, v, x, e, g, Min(g.bi, p.batch), 0, 0, Splat(0.0, v))
  {
    forall l | 0 <= l < v
      ensures var tap := TapsOf(p, x, e, Lane(g.c, l));
              ItemPart(tap, g.nb, g.nk, p.outRows, p.outCols, g.bi, g.ki, Min(g.bi, p.batch)) == 0.0
    {
      var tap := TapsOf(p, x, e, Lane(g.c, l));
      ResidueStart(Min(g.bi, p.batch), g.nb, g.bi, k => RowsPart(tap, g.nk, g.ki, p.outCols, k, p.outRows));
    }
  }

  /** How the offsets move from one visited column to the next. */
  lemma ColumnStep(p: Params, g: Share, b: int, row: int, col: int, channel: int, i: int, j: nat)
    requires g.Valid() && col == p.InCol(j, g.c.s1)
    ensures (j + g.nk) % g.nk == j % g.nk
    ensures p.InCol(j + g.nk, g.c.s1) == col + g.nk * p.strideCols
    ensures p.InIndex(b, row, col + g.nk * p.strideCols, channel)
            == p.InIndex(b, row, col, channel) + g.nk * p.strideCols * p.channels
    ensures p.OutIndex(b, i, j + g.nk, g.c.s2) == p.OutIndex(b, i, j, g.c.s2) + g.nk * p.Features()
  {
    FlattenStep(b, row, col, channel, p.inRows, p.inCols, p.channels, g.nk * p.strideCols);
    FlattenStep(b, i, j, g.c.s2, p.outRows, p.outCols, p.Features(), g.nk);
    MulDist(p.strideCols, j, g.nk);
    ModStep(j, g.nk);
  }

  /** One output row of one image: strides through its columns with running offsets. */
  method FilterRow(ghost p: Params, kp: Params, v: nat, g: Share, cstart: int, firstc: nat, ghost b: nat, row: int,
                   ghost i: nat,
                   inputRowOffset: int, errorRowOffset: int, input: seq<real>, error: seq<real>, acc: seq<real>)
    returns (outVal: seq<real>)
    requires p.Valid() && kp == FilterBackpropParams(p) && g.Valid() && IsItem(p, v, g.c)
    requires |input| == p.InSize() && |error| == p.OutSize()
    requires firstc == g.ki && cstart == p.InCol(g.ki, g.c.s1)
    requires b < p.batch && i < p.outRows && row == p.InRow(i, g.c.s0) && 0 <= row < p.inRows
    requires inputRowOffset == p.InIndex(b, row, 0, g.c.s2 / p.multiplier)
    requires errorRowOffset == p.OutIndex(b, i, 0, g.c.s2)
    requires Accumulated(p, v, input, error, g, b, i, 0, acc)
    ensures Accumulated(p, v, input, error, g, b, i, p.outCols, outVal)
  {
    var features := kp.Features();
    ghost var channel := g.c.s2 / p.multiplier;
    FlattenStep(b, row, 0, channel, p.inRows, p.inCols, p.channels, cstart);
    FlattenStep(b, i, 0, g.c.s2, p.outRows, p.outCols, features, firstc);
    var inputColOffset := inputRowOffset + cstart * kp.channels;
    var errorColOffset := errorRowOffset + firstc * features;
    var col, j := cstart, firstc;
    outVal := acc;
    StartRow(p, v, input, error, g, b, i, acc);
    SmallMod(g.ki, g.nk);
    while j < kp.winCols
      invariant j % g.nk == g.ki && col == p.InCol(j, g.c.s1)
      invariant inputColOffset == p.InIndex(b, row, col, channel)
      invariant errorColOffset == p.OutIndex(b, i, j, g.c.s2)
      invariant true == Accumulated(p, v, input, error, g, b, i, Min(j, p.outCols), outVal)
      decreases kp.winCols - j
    {
      if col >= 0 && col < kp.inCols {
        LoadsInside(p, v, input, error, g.c, b, i, j, inputColOffset, errorColOffset);
        var inVal := Load(input, inputColOffset, v);
        var filVal := Load(error, errorColOffset, v);
        ghost var before := outVal;
        outVal := Mad(inVal, filVal, outVal);
        NextTap(p, v, input, error, g, b, i, j, inputColOffset, errorColOffset, before, outVal);
      } else {
        SkipTap(p, v, input, error, g, b, i, j, outVal);
      }
      ColumnStep(p, g, b, row, col, channel, i, j);
      inputColOffset := inputColOffset + g.nk * kp.strideCols * kp.channels;
      errorColOffset := errorColOffset + g.nk * features;
      j, col := j + g.nk, col + g.nk * kp.strideCols;
    }
  }

  /** One image: runs the output rows over the input. */
  method FilterImage(ghost p: Params, kp: Params, v: nat, g: Share, cstart: int, firstc: nat, rstart: int, firstr: nat,
                     ghost b: nat,
                     inputBatchOffset: int, errorBatchOffset: int, input: seq<real>, error: seq<real>, acc: seq<real>)
    returns (outVal: seq<real>)
    requires p.Valid() && kp == FilterBackpropParams(p) && g.Valid() && IsItem(p, v, g.c)
    requires |input| == p.InSize() && |error| == p.OutSize()
    requires firstc == g.ki && cstart == p.InCol(g.ki, g.c.s1)
    requires firstr == 0 && rstart == p.InRow(0, g.c.s0) && b < p.batch
    requires inputBatchOffset == p.InIndex(b, 0, 0, g.c.s2 / p.multiplier)
    requires errorBatchOffset == p.OutIndex(b, 0, 0, g.c.s2)
    requires Accumulated(p, v, input, error, g, b, 0, 0, acc)
    ensures Accumulated(p, v, input, error, g, b, p.outRows, 0, outVal)
  {
    var features := kp.Features();
    ghost var channel := g.c.s2 / p.multiplier;
    FlattenStep(b, 0, 0, channel, p.inRows, p.inCols, p.channels, rstart);
    var inputRowOffset := inputBatchOffset + rstart * kp.inCols * kp.channels;
    var errorRowOffset := errorBatchOffset + firstr * kp.winCols * features;
    var row, i := rstart, firstr;
    outVal := acc;
    while i < kp.winRows
      invariant 0 <= i <= p.outRows && row == p.InRow(i, g.c.s0)
      invariant inputRowOffset == p.InIndex(b, row, 0, channel)
      invariant errorRowOffset == p.OutIndex(b, i, 0, g.c.s2)
      invariant true == Accumulated(p, v, input, error, g, b, i, 0, outVal)
    {
      if row >= 0 && row < kp.inRows {
        outVal := FilterRow(p, kp, v, g, cstart, firstc, b, row, i, inputRowOffset, errorRowOffset, input, error,
                            outVal);
        NextRow(p, v, input, error, g, b, i, p.outCols, outVal);
      } else {
        NextRow(p, v, input, error, g, b, i, 0, outVal);
      }
      FlattenStep(b, row, 0, channel, p.inRows, p.inCols, p.channels, kp.strideRows);
      FlattenStep(b, i, 0, g.c.s2, p.outRows, p.outCols, features, 1);
      MulDist(p.strideRows, i, 1);
      inputRowOffset := inputRowOffset + kp.strideRows * kp.inCols * kp.channels;
      errorRowOffset := errorRowOffset + kp.winCols * features;
      i, row := i + 1, row + kp.strideRows;
    }
  }

  /** The filter coordinates a group works on. */
  function GroupCoordinates(p: Params, v: nat, filIdx: nat): Index3
    requires p.Valid() && v > 0 && p.channels / v > 0
  {
    var t := Unflatten4(filIdx, p.winCols, p.channels / v, p.multiplier);
    Index3(t.s0, t.s1, t.s2 * v * p.multiplier + t.s3)
  }

  lemma GroupLane(p: Params, v: nat, filIdx: nat, l: nat)
    requires p.Valid() && SupportsWidth(p, v) && filIdx < p.FilSize() / v && l < v
    ensures p.channels / v > 0
    ensures 0 <= filIdx * v + l < p.FilSize()
    ensures var c := GroupCoordinates(p, v, filIdx);
            && 0 <= c.s0 < p.winRows && 0 <= c.s1 < p.winCols && 0 <= c.s2 && c.s2 + l < p.Features()
            && Unflatten3(filIdx * v + l, p.winCols, p.Features()) == Lane(c, l)
  {
    if v == 1 {
      ScalarGroup(p, filIdx);
    } else {
      LaneOfItem(filIdx, v, l, 1, p.winRows, p.winCols, p.channels);
      var u := Unflatten4(filIdx, p.winRows, p.winCols, p.channels / v);
      assert Unflatten3(filIdx * v + l, p.winCols, p.channels) == Index3(u.s1, u.s2, u.s3 * v + l);
      assert Unflatten4(filIdx, p.winCols, p.channels / v, 1) == Index4(u.s1, u.s2, u.s3, 0);
    }
  }

  lemma ScalarGroup(p: Params, filIdx: nat)
    requires p.Valid() && filIdx < p.FilSize()
    ensures var c := GroupCoordinates(p, 1, filIdx);
            && 0 <= c.s0 < p.winRows && 0 <= c.s1 < p.winCols && 0 <= c.s2 < p.Features()
            && Unflatten3(filIdx, p.winCols, p.Features()) == c
  {
    DivModProduct(filIdx, p.channels, p.multiplier);
    FlattenOfUnflatten3(filIdx, p.winRows, p.winCols, p.Features());
  }

  lemma GroupIsItem(p: Params, v: nat, filIdx: nat)
    requires p.Valid() && SupportsWidth(p, v) && filIdx < p.FilSize() / v
    ensures p.channels / v > 0
    ensures IsItem(p, v, GroupCoordinates(p, v, filIdx))
  {
    GroupLane(p, v, filIdx, 0);
    GroupLane(p, v, filIdx, v - 1);
  }

  lemma StartOffsets(p: Params, v: nat, b: int, t: Index4)
    requires p.Valid() && SupportsWidth(p, v) && 0 <= t.s3 < p.multiplier
    ensures var channel := t.s2 * v;
            && (channel * p.multiplier + t.s3) / p.multiplier == channel
            && b * p.inCols * p.inRows * p.channels + channel == p.InIndex(b, 0, 0, channel)
            && channel * p.multiplier + t.s3 + b * p.outRows * p.outCols * p.Features()
               == p.OutIndex(b, 0, 0, channel * p.multiplier + t.s3)
  {
    var channel := t.s2 * v;
    DivModOfSum(channel, p.multiplier, t.s3);
    FlattenBatch(b, channel, p.inRows, p.inCols, p.channels);
    FlattenBatch(b, channel * p.multiplier + t.s3, p.outRows, p.outCols, p.Features());
  }

  lemma BatchStep(p: Params, b: int, nb: nat, channel: int, feature: int)
    ensures p.InIndex(b + nb, 0, 0, channel) == p.InIndex(b, 0, 0, channel) + nb * p.inRows * p.inCols * p.channels
    ensures p.OutIndex(b + nb, 0, 0, feature)
            == p.OutIndex(b, 0, 0, feature) + nb * p.outRows * p.outCols * p.Features()
  {
    FlattenStep(0, b * p.inRows, 0, channel, p.inRows, p.inCols, p.channels, nb * p.inRows);
    FlattenStep(0, b * p.outRows, 0, feature, p.outRows, p.outCols, p.Features(), nb * p.outRows);
    MulDist(p.inRows, b, nb);
    MulDist(p.outRows, b, nb);
  }

  /** What the item with the given local id has to add up. */
  ghost predicate IsItemPart(p: Params, v: nat, nb: nat, nk: nat, filIdx: nat, x: seq<real>, e: seq<real>,
                             localIdx: nat, part: seq<real>)
    requires p.Valid() && v > 0 && p.channels / v > 0 && nb > 0 && nk > 0
  {
    && |part| == v
    && forall l :: 0 <= l < v ==>
         part[l] == ItemPart(TapsOf(p, x, e, Lane(GroupCoordinates(p, v, filIdx), l)), nb, nk, p.outRows, p.outCols,
                             localIdx / nk, localIdx % nk, p.batch)
  }

  /** The images of a work-item's residue class. */
  method FilterImages(ghost p: Params, kp: Params, v: nat, g: Share, cstart: int, firstc: nat, rstart: int, firstr: nat,
                      inputStart: int, errorStart: int, input: seq<real>, error: seq<real>)
    returns (outVal: seq<real>)
    requires p.Valid() && kp == FilterBackpropParams(p) && g.Valid() && IsItem(p, v, g.c)
    requires |input| == p.InSize() && |error| == p.OutSize()
    requires firstc == g.ki && cstart == p.InCol(g.ki, g.c.s1)
    requires firstr == 0 && rstart == p.InRow(0, g.c.s0)
    requires inputStart == p.InIndex(g.bi, 0, 0, g.c.s2 / p.multiplier) && errorStart == p.OutIndex(g.bi, 0, 0, g.c.s2)
    ensures Accumulated(p, v, input, error, g, p.batch, 0, 0, outVal)
  {
    var features := kp.Features();
    ghost var channel := g.c.s2 / p.multiplier;
    outVal := Splat(0.0, v);
    StartImages(p, v, input, error, g);
    SmallMod(g.bi, g.nb);
    var inputBatchOffset, errorBatchOffset := inputStart, errorStart;
    var b := g.bi;
    while b < kp.batch
      invariant b % g.nb == g.bi
      invariant inputBatchOffset == p.InIndex(b, 0, 0, channel)
      invariant errorBatchOffset == p.OutIndex(b, 0, 0, g.c.s2)
      invariant true == Accumulated(p, v, input, error, g, Min(b, p.batch), 0, 0, outVal)
      decreases kp.batch - b
    {
      outVal := FilterImage(p, kp, v, g, cstart, firstc, rstart, firstr, b, inputBatchOffset, errorBatchOffset, input,
                            error, outVal);
      NextImage(p, v, input, error, g, b, outVal);
      BatchStep(p, b, g.nb, channel, g.c.s2);
      ModStep(b, g.nb);
      inputBatchOffset := inputBatchOffset + g.nb * kp.inRows * kp.inCols * kp.channels;
      errorBatchOffset := errorBatchOffset + g.nb * kp.winRows * kp.winCols * features;
      b := b + g.nb;
    }
  }

  /** One work-item's part: strides through the images, and through the columns of each. */
  method FilterPartial(ghost p: Params, kp: Params, v: nat, nb: nat, nk: nat, localIdx: nat, filIdx: nat,
                       input: seq<real>, error: seq<real>)
    returns (outVal: seq<real>)
    requires p.Valid() && kp == FilterBackpropParams(p) && SupportsWidth(p, v)
    requires |input| == p.InSize() && |error| == p.OutSize()
    requires nb > 0 && nk > 0 && localIdx < Product(nb, nk)
    requires filIdx < p.FilSize() / v && p.channels / v > 0
    ensures IsItemPart(p, v, nb, nk, filIdx, input, error, localIdx, outVal)
  {
    var features := kp.Features();
    SplitBound(localIdx, nb, nk);
    GroupIsItem(p, v, filIdx);
    var workgroupIdx := Unflatten2(localIdx, nk);
    var kIdx: nat, batchIdx: nat := workgroupIdx.s1, workgroupIdx.s0;
    var t := Unflatten4(filIdx, kp.outCols, kp.channels / v, kp.multiplier);
    var multiple, channel, colIdx, rowIdx := t.s3, t.s2 * v, t.s1, t.s0;
    var colWindow := InWindowFromOutput(colIdx, 1, kp.padCols);
    var cstart, firstc := colWindow.windowStart + kIdx * kp.strideCols, colWindow.filterStart + kIdx;
    var rowWindow := InWindowFromOutput(rowIdx, 1, kp.padRows);
    var rstart, firstr := rowWindow.windowStart, rowWindow.filterStart;

    var g := Share(Index3(rowIdx, colIdx, channel * kp.multiplier + multiple), nb, nk, batchIdx, kIdx);
    StartOffsets(p, v, batchIdx, t);
    var inputBatchOffset := batchIdx * kp.inCols * kp.inRows * kp.channels + channel;
    var errorInitialOffset := channel * kp.multiplier + multiple;
    var errorBatchOffset := errorInitialOffset + batchIdx * kp.winRows * kp.winCols * features;
    outVal := FilterImages(p, kp, v, g, cstart, firstc, rstart, firstr, inputBatchOffset, errorBatchOffset, input,
                           error);
  }

  function VectorAdd(a: seq<real>, b: seq<real>): (r: seq<real>)
    ensures |r| == |a| && forall l :: 0 <= l < |a| ==> r[l] == a[l] + if l < |b| then b[l] else 0.0
  {
    seq(|a|, l requires 0 <= l < |a| => a[l] + if l < |b| then b[l] else 0.0)
  }

  ghost predicate AreVectors(values: seq<seq<real>>, v: nat)
  {
    forall t :: 0 <= t < |values| ==> |values[t]| == v
  }

  lemma {:induction false} PartIsVector(values: seq<seq<real>>, n: nat, v: nat, t: nat, e: nat)
    requires |values| == Pow2(n) && e <= n && t < Pow2(e) && AreVectors(values, v)
    ensures |Part(VectorAdd, values, n, t, e)| == v
    decreases n - e
  {
    if e < n {
      PartIsVector(values, n, v, t, e + 1);
      PartIsVector(values, n, v, t + Pow2(e), e + 1);
    }
  }

  /** Lane l of the tree nodes of level e. */
  ghost function Lanes(values: seq<seq<real>>, n: nat, e: nat, l: nat): int -> real
    requires |values| == Pow2(n) && e <= n
  {
    t => if 0 <= t < Pow2(e) then At(Part(VectorAdd, values, n, t, e), l) else 0.0
  }

  lemma NodeIsSum(values: seq<seq<real>>, n: nat, v: nat, e: nat, l: nat, t: nat)
    requires |values| == Pow2(n) && e < n && AreVectors(values, v) && l < v && t < Pow2(e)
    ensures Lanes(values, n, e, l)(t) == Lanes(values, n, e + 1, l)(t) + Lanes(values, n, e + 1, l)(Pow2(e) + t)
  {
    var t': nat := Pow2(e) + t;
    PartOfRound(VectorAdd, values, n, t, e);
    PartIsVector(values, n, v, t, e + 1);
    PartIsVector(values, n, v, t', e + 1);
    PartIsVector(values, n, v, t, e);
  }

  ghost function LevelTotal(values: seq<seq<real>>, n: nat, e: nat, l: nat): real
    requires |values| == Pow2(n) && e <= n
  {
    Sum(Pow2(e), Lanes(values, n, e, l))
  }

  /** Every node of a level is the sum of a node of the lower and one of the upper half of the next. */
  ghost predicate IsHalved(half: nat, above: int -> real, here: int -> real)
  {
    forall t :: 0 <= t < half ==> here(t) == above(t) + above(half + t)
  }

  lemma LevelHalved(values: seq<seq<real>>, n: nat, v: nat, e: nat, l: nat)
    requires |values| == Pow2(n) && e < n && AreVectors(values, v) && l < v
    ensures IsHalved(Pow2(e), Lanes(values, n, e + 1, l), Lanes(values, n, e, l))
  {
    var above, here := Lanes(values, n, e + 1, l), Lanes(values, n, e, l);
    forall t | 0 <= t < Pow2(e)
      ensures here(t) == above(t) + above(Pow2(e) + t)
    {
      NodeIsSum(values, n, v, e, l, t);
    }
  }

  lemma HalvedSum(half: nat, n: nat, above: int -> real, here: int -> real)
    requires n == half + half && IsHalved(half, above, here)
    ensures Sum(half, here) == Sum(n, above)
  {
    SumHalves(half, above, here);
  }

  lemma LevelStep(values: seq<seq<real>>, n: nat, v: nat, e: nat, l: nat)
    requires |values| == Pow2(n) && e < n && AreVectors(values, v) && l < v
    ensures LevelTotal(values, n, e, l) == LevelTotal(values, n, e + 1, l)
  {
    LevelHalved(values, n, v, e, l);
    HalvedSum(Pow2(e), Pow2(e + 1), Lanes(values, n, e + 1, l), Lanes(values, n, e, l));
  }

  /** Every level of the tree has the same lane-wise sum. */
  lemma {:induction false} LevelSum(values: seq<seq<real>>, n: nat, v: nat, e: nat, l: nat)
    requires |values| == Pow2(n) && e <= n && AreVectors(values, v) && l < v
    ensures LevelTotal(values, n, e, l) == LevelTotal(values, n, n, l)
    decreases n - e
  {
    if e < n {
      LevelSum(values, n, v, e + 1, l);
      LevelStep(values, n, v, e, l);
    }
  }

  /** Theorem: over any number of batch and column items whose product is a power of two, the reduced
      parts are the whole filter-backprop sum. */
  lemma PartsAreWhole(p: Params, x: seq<real>, e: seq<real>, nb: nat, nk: nat, n: nat, f: nat, v: nat, l: nat,
                      parts: seq<seq<real>>)
    requires p.Valid() && nb > 0 && nk > 0 && |parts| == nb * nk == Pow2(n)
    requires f < p.FilSize() && AreVectors(parts, v) && l < v
    requires forall t :: 0 <= t < |parts| ==>
               parts[t][l]
                 == ItemPart(TapsOf(p, x, e, Unflatten3(f, p.winCols, p.Features())), nb, nk, p.outRows, p.outCols,
                                       t / nk, t % nk, p.batch)
    ensures |Part(VectorAdd, parts, n, 0, 0)| == v
    ensures Part(VectorAdd, parts, n, 0, 0)[l] == FilterBackprop(p, x, e)[f]
  {
    var c := Unflatten3(f, p.winCols, p.Features());
    var tap := TapsOf(p, x, e, c);
    PartIsVector(parts, n, v, 0, 0);
    LevelSum(parts, n, v, 0, l);
    var root := Lanes(parts, n, 0, l);
    assert Sum(1, root) == Sum(0, root) + root(0);
    ItemsAddUp(tap, nb, nk, p.batch, p.outRows, p.outCols, Lanes(parts, n, n, l));
    FilterBackpropLoops(p, x, e, f, c);
    Sum3Ext(p.batch, p.outRows, p.outCols, tap, (b, row, col) => FilterTap(p, x, e, c, b, row, col));
  }

  lemma ItemsAddUp(tap: Tap, nb: nat, nk: nat, nImages: nat, nRows: nat, nCols: nat, part: int -> real)
    requires nb > 0 && nk > 0
    requires forall t :: 0 <= t < nb * nk ==> part(t) == ItemPart(tap, nb, nk, nRows, nCols, t / nk, t % nk, nImages)
    ensures nb * nk >= 0
    ensures Sum(nb * nk, part) == Sum3(nImages, nRows, nCols, tap)
  {
    var g := (bi, ki) => ItemPart(tap, nb, nk, nRows, nCols, bi, ki, nImages);
    var pair := (bi, ki) => bi * nk + ki;
    forall bi, ki | 0 <= bi < nb && 0 <= ki < nk
      ensures g(bi, ki) == part(pair(bi, ki))
    {
      PairBound(bi, nb, ki, nk);
      DivModOfSum(bi, nk, ki);
    }
    SumFlatten(nb, nk, pair, part, g);
    SplitIsLossless(tap, nb, nk, nImages, nRows, nCols);
  }

  /** The parts of all the items of a group, by local id. */
  ghost predicate GroupParts(p: Params, v: nat, nb: nat, nk: nat, filIdx: nat, x: seq<real>, e: seq<real>,
                             parts: seq<seq<real>>)
    requires p.Valid() && v > 0 && p.channels / v > 0 && nb > 0 && nk > 0
  {
    forall t :: 0 <= t < |parts| ==> IsItemPart(p, v, nb, nk, filIdx, x, e, t, parts[t])
  }

  lemma GroupResult(p: Params, v: nat, nb: nat, nk: nat, n: nat, filIdx: nat, x: seq<real>, e: seq<real>,
                    parts: seq<seq<real>>)
    requires p.Valid() && SupportsWidth(p, v) && filIdx < p.FilSize() / v && p.channels / v > 0 && nb > 0 && nk > 0
    requires GroupParts(p, v, nb, nk, filIdx, x, e, parts) && |parts| == nb * nk == Pow2(n)
    ensures var r := Part(VectorAdd, parts, n, 0, 0);
            && |r| == v && 0 <= filIdx * v && filIdx * v + v <= p.FilSize()
            && forall f :: Owns(filIdx, v, f) ==> r[f - filIdx * v] == FilterBackprop(p, x, e)[f]
  {
    var r := Part(VectorAdd, parts, n, 0, 0);
    forall t | 0 <= t < |parts|
      ensures |parts[t]| == v
    {
      assert IsItemPart(p, v, nb, nk, filIdx, x, e, t, parts[t]);
    }
    PartIsVector(parts, n, v, 0, 0);
    var base := filIdx * v;
    GroupLane(p, v, filIdx, 0);
    GroupLane(p, v, filIdx, v - 1);
    forall f | Owns(filIdx, v, f)
      ensures r[f - base] == FilterBackprop(p, x, e)[f]
    {
      GroupLane(p, v, filIdx, f - base);
      forall t | 0 <= t < |parts|
        ensures parts[t][f - base]
                == ItemPart(TapsOf(p, x, e, Unflatten3(f, p.winCols, p.Features())), nb, nk, p.outRows, p.outCols,
                                               t / nk, t % nk, p.batch)
      {
        assert IsItemPart(p, v, nb, nk, filIdx, x, e, t, parts[t]);
      }
      PartsAreWhole(p, x, e, nb, nk, n, f, v, f - base, parts);
    }
  }

  /** The vector item 0 of a work-group holds after every item has summed its part and the group has reduced them. */
  method FilterGroupValue(ghost p: Params, kp: Params, v: nat, nb: nat, nk: nat, ghost n: nat, filIdx: nat,
                          input: seq<real>, error: seq<real>)
    returns (outVal: seq<real>)
    requires p.Valid() && kp == FilterBackpropParams(p) && SupportsWidth(p, v)
    requires |input| == p.InSize() && |error| == p.OutSize()
    requires nb > 0 && nk > 0 && Product(nb, nk) == Pow2(n)
    requires filIdx < p.FilSize() / v
    ensures |outVal| == v && 0 <= filIdx * v && filIdx * v + v <= p.FilSize()
    ensures forall f :: Owns(filIdx, v, f) ==> outVal[f - filIdx * v] == FilterBackprop(p, input, error)[f]
  {
    var parts: seq<seq<real>> := [];
    var size := Product(nb, nk);
    GroupIsItem(p, v, filIdx);
    for localIdx := 0 to size
      invariant |parts| == localIdx
      invariant true == GroupParts(p, v, nb, nk, filIdx, input, error, parts)
    {
      var part := FilterPartial(p, kp, v, nb, nk, localIdx, filIdx, input, error);
      parts := parts + [part];
    }
    outVal := Reduce(VectorAdd, parts, n);
    GroupResult(p, v, nb, nk, n, filIdx, input, error, parts);
  }

  /** One work-group: item 0 stores the reduced vector. */
  method FilterGroup(ghost p: Params, kp: Params, v: nat, nb: nat, nk: nat, ghost n: nat, filIdx: nat,
                     input: seq<real>, error: seq<real>, output: array<real>)
    requires p.Valid() && kp == FilterBackpropParams(p) && SupportsWidth(p, v)
    requires |input| == p.InSize() && |error| == p.OutSize() && output.Length == p.FilSize()
    requires nb > 0 && nk > 0 && Product(nb, nk) == Pow2(n)
    requires filIdx < p.FilSize() / v
    modifies output
    ensures forall f :: 0 <= f < output.Length ==>
              output[f] == if Owns(filIdx, v, f) then FilterBackprop(p, input, error)[f] else old(output[f])
  {
    var outVal := FilterGroupValue(p, kp, v, nb, nk, n, filIdx, input, error);
    Store(output, filIdx * v, outVal);
  }

  /** Theorem: whatever order the groups run in, the launch computes the filter-backprop map exactly when
      sizing leaves work-items to run; otherwise its groups are empty and it writes nothing. */
  method LaunchFilterBackprop(p: Params, maxWorkgroupSize: nat, order: seq<nat>, input: seq<real>, error: seq<real>,
                              output: array<real>)
    requires p.Valid() && maxWorkgroupSize > 0
    requires |input| == p.InSize() && |error| == p.OutSize() && output.Length == p.FilSize()
    requires IsSchedule(order, p.FilSize() / ChosenWidth(p))
    modifies output
    ensures if SizingSucceeds(Pow2LessThan(maxWorkgroupSize), Pow2LessThan(p.batch), Pow2LessThan(p.winCols))
            then output[..] == FilterBackprop(p, input, error) else output[..] == old(output[..])
  {
    var kp := FilterBackpropParams(p);
    SameWidth(p);
    var v := ChosenWidth(kp);
    var nb, nk, n := SizeWorkgroup(maxWorkgroupSize, kp.batch, kp.outCols);
    NoItems(nb, nk);
    var workgroupSize := Product(nb, nk);
    if workgroupSize > 0 {
      LaunchGroups(p, kp, v, nb, nk, n, order, input, error, output);
    }
  }

  lemma SameWidth(p: Params)
    ensures ChosenWidth(FilterBackpropParams(p)) == ChosenWidth(p)
  {
  }

  /** The work-groups of a launch, in any order. */
  method LaunchGroups(ghost p: Params, kp: Params, v: nat, nb: nat, nk: nat, ghost n: nat, order: seq<nat>,
                      input: seq<real>, error: seq<real>, output: array<real>)
    requires p.Valid() && kp == FilterBackpropParams(p) && v == ChosenWidth(p)
    requires Product(nb, nk) == Pow2(n) && nb > 0 && nk > 0
    requires |input| == p.InSize() && |error| == p.OutSize() && output.Length == p.FilSize()
    requires IsSchedule(order, p.FilSize() / v)
    modifies output
    ensures output[..] == FilterBackprop(p, input, error)
  {
    ghost var d := FilterBackprop(p, input, error);
    for s := 0 to |order|
      invariant forall s', f :: 0 <= s' < s && 0 <= f < output.Length && Owns(order[s'], v, f) ==> output[f] == d[f]
    {
      FilterGroup(p, kp, v, nb, nk, n, order[s], input, error, output);
    }
    WholeVectors(Product(p.winRows, p.winCols), p.Features(), v);
    forall f | 0 <= f < output.Length
      ensures output[f] == d[f]
    {
      QuotientBelow(f, v, p.FilSize() / v);
      OwnerScheduled(order, p.FilSize() / v, v, f);
    }
  }
}
