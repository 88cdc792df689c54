/** The input-backprop depthwise kernel. It walks the output rows and columns whose windows cover one
    input element, stepping backwards through the filter by the stride. */
module DepthwiseInputBackprop {
  import opened Arithmetic
  import opened Sums
  import opened Adjoints
  import opened TensorIndex
  import opened WindowIndex
  import opened VectorIO
  import opened DepthwiseConv

  ghost function CellSum(p: Params, e: seq<real>, w: seq<real>, t: Index4, row: int, col: int, n: nat): real
    requires p.Valid()
  {
    Sum(n, m => InputTap(p, e, w, t, row, col, m))
  }

  ghost function RowSum(p: Params, e: seq<real>, w: seq<real>, t: Index4, row: int, n: nat): real
    requires p.Valid()
  {
    Sum(n, col => CellSum(p, e, w, t, row, col, p.multiplier))
  }

  ghost function NestSum(p: Params, e: seq<real>, w: seq<real>, t: Index4, n: nat): real
    requires p.Valid()
  {
    Sum(n, row => RowSum(p, e, w, t, row, p.outCols))
  }

  lemma NestIsInputBackprop(p: Params, e: seq<real>, w: seq<real>, n: nat, t: Index4)
    requires p.Valid() && n < p.InSize() && t == Unflatten4(n, p.inRows, p.inCols, p.channels)
    ensures InputBackprop(p, e, w)[n] == NestSum(p, e, w, t, p.outRows)
  {
    InputBackpropLoops(p, e, w, n, t);
    var tap := (row, col, m) => InputTap(p, e, w, t, row, col, m);
    var cell := (row, col) => CellSum(p, e, w, t, row, col, p.multiplier);
    var line := row => RowSum(p, e, w, t, row, p.outCols);
    forall row, col | 0 <= row < p.outRows && 0 <= col < p.outCols
      ensures cell(row, col) == Sum(p.multiplier, m => tap(row, col, m))
    {
      SumExt(p.multiplier, m => tap(row, col, m), m => InputTap(p, e, w, t, row, col, m));
    }
    forall row | 0 <= row < p.outRows
      ensures line(row) == Sum(p.outCols, col => cell(row, col))
    {
      SumExt(p.outCols, col => cell(row, col), col => CellSum(p, e, w, t, row, col, p.multiplier));
    }
    Sum3Nested(p.outRows, p.outCols, p.multiplier, tap, cell, line);
  }

  /** The filter row (column) that ties input coordinate t to an output row (column). */
  function FilRow(p: Params, t: Index4, row: int): int { t.s1 - p.InRow(row, 0) }
  function FilCol(p: Params, t: Index4, col: int): int { t.s2 - p.InCol(col, 0) }

  lemma CellOutside(p: Params, e: seq<real>, w: seq<real>, t: Index4, row: int, col: int)
    requires p.Valid() && !(0 <= FilRow(p, t, row) < p.winRows && 0 <= FilCol(p, t, col) < p.winCols)
    ensures CellSum(p, e, w, t, row, col, p.multiplier) == 0.0
  {
    SumZero(p.multiplier, m => InputTap(p, e, w, t, row, col, m));
  }

  lemma RowOutside(p: Params, e: seq<real>, w: seq<real>, t: Index4, row: int)
    requires p.Valid() && !(0 <= FilRow(p, t, row) < p.winRows)
    ensures RowSum(p, e, w, t, row, p.outCols) == 0.0
  {
    var cells := col => CellSum(p, e, w, t, row, col, p.multiplier);
    forall col | 0 <= col < p.outCols
      ensures cells(col) == 0.0
    {
      CellOutside(p, e, w, t, row, col);
    }
    SumZero(p.outCols, cells);
  }

  /** Moving to a larger output row lowers the filter row. */
  /** The filter position falls from one output row (or column) to a later one. */
  lemma FilterOffsetsFall(p: Params, t: Index4, o: int, o': int)
    requires p.Valid() && o <= o'
    ensures FilRow(p, t, o') <= FilRow(p, t, o) - (o' - o)
    ensures FilCol(p, t, o') <= FilCol(p, t, o) - (o' - o)
  {
    MulDist(p.strideRows, o' - o, o);
    MulMono(1, p.strideRows, o' - o);
    MulDist(p.strideCols, o' - o, o);
    MulMono(1, p.strideCols, o' - o);
  }

  /** Output rows before the first one reached contribute nothing. */
  lemma RowsBefore(p: Params, e: seq<real>, w: seq<real>, t: Index4, rstart: nat, n: nat)
    requires p.Valid() && n <= rstart
    requires rstart > 0 ==> FilRow(p, t, rstart - 1) >= p.winRows
    ensures NestSum(p, e, w, t, n) == 0.0
  {
    var rows := row => RowSum(p, e, w, t, row, p.outCols);
    forall row | 0 <= row < n
      ensures rows(row) == 0.0
    {
      FilterOffsetsFall(p, t, row, rstart - 1);
      RowOutside(p, e, w, t, row);
    }
    SumZero(n, rows);
  }

  /** Nor do rows after the last one reached. */
  lemma RowsAfter(p: Params, e: seq<real>, w: seq<real>, t: Index4, row0: int, n: nat)
    requires p.Valid() && n <= p.outRows && (n == p.outRows || n == row0)
    requires FilRow(p, t, row0) < 0
    ensures NestSum(p, e, w, t, p.outRows) == NestSum(p, e, w, t, n)
  {
    var rows := row => RowSum(p, e, w, t, row, p.outCols);
    forall row | n <= row < p.outRows
      ensures rows(row) == 0.0
    {
      FilterOffsetsFall(p, t, row0, row);
      RowOutside(p, e, w, t, row);
    }
    SumTail(n, p.outRows, rows);
  }

  lemma ColsBefore(p: Params, e: seq<real>, w: seq<real>, t: Index4, row: int, cstart: nat, n: nat)
    requires p.Valid() && n <= cstart
    requires cstart > 0 ==> FilCol(p, t, cstart - 1) >= p.winCols
    ensures RowSum(p, e, w, t, row, n) == 0.0
  {
    var cells := col => CellSum(p, e, w, t, row, col, p.multiplier);
    forall col | 0 <= col < n
      ensures cells(col) == 0.0
    {
      FilterOffsetsFall(p, t, col, cstart - 1);
      CellOutside(p, e, w, t, row, col);
    }
    SumZero(n, cells);
  }

  lemma ColsAfter(p: Params, e: seq<real>, w: seq<real>, t: Index4, row: int, col0: int, n: nat)
    requires p.Valid() && n <= p.outCols && (n == p.outCols || n == col0)
    requires FilCol(p, t, col0) < 0
    ensures RowSum(p, e, w, t, row, p.outCols) == RowSum(p, e, w, t, row, n)
  {
    var cells := col => CellSum(p, e, w, t, row, col, p.multiplier);
    forall col | n <= col < p.outCols
      ensures cells(col) == 0.0
    {
      FilterOffsetsFall(p, t, col0, col);
      CellOutside(p, e, w, t, row, col);
    }
    SumTail(n, p.outCols, cells);
  }

  function Lane(t: Index4, v: nat, l: nat): Index4
  {
    Index4(t.s0, t.s1, t.s2, t.s3 * v + l)
  }

  ghost predicate IsItem(p: Params, v: nat, t: Index4)
    requires p.Valid()
  {
    && SupportsWidth(p, v)
    && 0 <= t.s0 < p.batch && 0 <= t.s1 < p.inRows && 0 <= t.s2 < p.inCols
    && 0 <= t.s3 * v && t.s3 * v + v <= p.channels
  }

  lemma LaneFeature(p: Params, v: nat, channel: int, multiple: nat, l: nat)
    requires p.Valid() && SupportsWidth(p, v) && l < v && multiple < p.multiplier
    requires 0 <= channel && channel + v <= p.channels
    ensures (channel + l) * p.multiplier + multiple == channel * p.multiplier + multiple + l
    ensures 0 <= channel * p.multiplier + multiple && channel * p.multiplier + multiple + l < p.Features()
  {
  }

  /** A covered position: the two elements the kernel loads are those of the tap. */
  lemma TapInside(p: Params, v: nat, e: seq<real>, w: seq<real>, t: Index4, l: nat, row: int, col: int, multiple: nat,
                  errOffset: int, filOffset: int)
    requires p.Valid() && IsItem(p, v, t) && l < v && multiple < p.multiplier
    requires |e| == p.OutSize() && |w| == p.FilSize()
    requires 0 <= row < p.outRows && 0 <= col < p.outCols
    requires 0 <= FilRow(p, t, row) < p.winRows && 0 <= FilCol(p, t, col) < p.winCols
    requires errOffset == p.OutIndex(t.s0, row, col, t.s3 * v * p.multiplier)
    requires filOffset == p.FilIndex(FilRow(p, t, row), FilCol(p, t, col), t.s3 * v * p.multiplier)
    ensures 0 <= errOffset + multiple + l < |e| && 0 <= filOffset + multiple + l < |w|
    ensures InputTap(p, e, w, Lane(t, v, l), row, col, multiple)
            == Times(w[filOffset + multiple + l], e[errOffset + multiple + l])
  {
    var i, j := FilRow(p, t, row), FilCol(p, t, col);
    var feature := t.s3 * v * p.multiplier;
    LaneFeature(p, v, t.s3 * v, multiple, l);
    FlattenStep(t.s0, row, col, feature, p.outRows, p.outCols, p.Features(), multiple + l);
    FlattenStep3(i, j, feature, p.winCols, p.Features(), multiple + l);
    Flatten4Bound(t.s0, row, col, feature + multiple + l, p.batch, p.outRows, p.outCols, p.Features());
    Flatten3Bound(i, j, feature + multiple + l, p.winRows, p.winCols, p.Features());
  }

  lemma LoadsInside(p: Params, v: nat, e: seq<real>, w: seq<real>, t: Index4, row: int, col: int, multiple: nat,
                    errOffset: int, filOffset: int)
    requires p.Valid() && IsItem(p, v, t) && multiple < p.multiplier
    requires |e| == p.OutSize() && |w| == p.FilSize()
    requires 0 <= row < p.outRows && 0 <= col < p.outCols
    requires 0 <= FilRow(p, t, row) < p.winRows && 0 <= FilCol(p, t, col) < p.winCols
    requires errOffset == p.OutIndex(t.s0, row, col, t.s3 * v * p.multiplier)
    requires filOffset == p.FilIndex(FilRow(p, t, row), FilCol(p, t, col), t.s3 * v * p.multiplier)
    ensures 0 <= errOffset + multiple && errOffset + multiple + v <= |e|
    ensures 0 <= filOffset + multiple && filOffset + multiple + v <= |w|
  {
    TapInside(p, v, e, w, t, 0, row, col, multiple, errOffset, filOffset);
    TapInside(p, v, e, w, t, v - 1, row, col, multiple, errOffset, filOffset);
  }

  /** The accumulator after all rows before `row`, all columns before `col` of it, and n multiples there. */
  ghost predicate Accumulated(p: Params, v: nat, e: seq<real>, w: seq<real>, t: Index4, row: nat, col: nat, n: nat,
                              acc: seq<real>)
    requires p.Valid()
  {
    && |acc| == v
    && forall l :: 0 <= l < v ==>
         acc[l] == NestSum(p, e, w, Lane(t, v, l), row) + RowSum(p, e, w, Lane(t, v, l), row, col)
           + CellSum(p, e, w, Lane(t, v, l), row, col, n)
  }

  lemma NextTap(p: Params, v: nat, e: seq<real>, w: seq<real>, t: Index4, row: nat, col: nat, multiple: nat,
                errOffset: int, filOffset: int, acc: seq<real>, acc': seq<real>)
    requires p.Valid() && IsItem(p, v, t) && multiple < p.multiplier
    requires |e| == p.OutSize() && |w| == p.FilSize()
    requires 0 <= row < p.outRows && 0 <= col < p.outCols
    requires 0 <= FilRow(p, t, row) < p.winRows && 0 <= FilCol(p, t, col) < p.winCols
    requires errOffset == p.OutIndex(t.s0, row, col, t.s3 * v * p.multiplier)
    requires filOffset == p.FilIndex(FilRow(p, t, row), FilCol(p, t, col), t.s3 * v * p.multiplier)
    requires Accumulated(p, v, e, w, t, row, col, multiple, acc)
    requires 0 <= errOffset + multiple && errOffset + multiple + v <= |e|
    requires 0 <= filOffset + multiple && filOffset + multiple + v <= |w|
    requires acc' == Mad(Load(e, errOffset + multiple, v), Load(w, filOffset + multiple, v), acc)
    ensures Accumulated(p, v, e, w, t, row, col, multiple + 1, acc')
  {
    forall l | 0 <= l < v
      ensures acc'[l] == NestSum(p, e, w, Lane(t, v, l), row) + RowSum(p, e, w, Lane(t, v, l), row, col)
                         + CellSum(p, e, w, Lane(t, v, l), row, col, multiple + 1)
    {
      TapInside(p, v, e, w, t, l, row, col, multiple, errOffset, filOffset);
      TimesCommutes(w[filOffset + multiple + l], e[errOffset + multiple + l]);
    }
  }

  lemma TimesCommutes(a: real, b: real)
    ensures Times(a, b) == Times(b, a)
  {
  }

  lemma NextCell(p: Params, v: nat, e: seq<real>, w: seq<real>, t: Index4, row: nat, col: nat, acc: seq<real>)
    requires p.Valid() && Accumulated(p, v, e, w, t, row, col, p.multiplier, acc)
    ensures Accumulated(p, v, e, w, t, row, col + 1, 0, acc)
  {
  }

  lemma NextRow(p: Params, v: nat, e: seq<real>, w: seq<real>, t: Index4, row: nat, acc: seq<real>)
    requires p.Valid() && Accumulated(p, v, e, w, t, row, p.outCols, 0, acc)
    ensures Accumulated(p, v, e, w, t, row + 1, 0, 0, acc)
  {
  }

  /** One multiple: multiplies and accumulates. */
  method InputTapAt(ghost p: Params, v: nat, ghost t: Index4, ghost row: nat, ghost col: nat, multiple: nat,
                    inputColOffset: int, filterColOffset: int, error: seq<real>, filter: seq<real>, acc: seq<real>)
    returns (outVal: seq<real>)
    requires p.Valid() && IsItem(p, v, t) && multiple < p.multiplier
    requires |error| == p.OutSize() && |filter| == p.FilSize()
    requires row < p.outRows && 0 <= FilRow(p, t, row) < p.winRows
    requires col < p.outCols && 0 <= FilCol(p, t, col) < p.winCols
    requires inputColOffset == p.OutIndex(t.s0, row, col, t.s3 * v * p.multiplier)
    requires filterColOffset == p.FilIndex(FilRow(p, t, row), FilCol(p, t, col), t.s3 * v * p.multiplier)
    requires Accumulated(p, v, error, filter, t, row, col, multiple, acc)
    ensures Accumulated(p, v, error, filter, t, row, col, multiple + 1, outVal)
  {
    LoadsInside(p, v, error, filter, t, row, col, multiple, inputColOffset, filterColOffset);
    var idx := inputColOffset + multiple;
    var inVal := Load(error, idx, v);
    var kIdx := filterColOffset + multiple;
    var filVal := Load(filter, kIdx, v);
    outVal := Mad(inVal, filVal, acc);
    NextTap(p, v, error, filter, t, row, col, multiple, inputColOffset, filterColOffset, acc, outVal);
  }

  /** The multiples of one output position. */
  method InputCell(ghost p: Params, kp: Params, v: nat, ghost t: Index4, ghost row: nat, ghost col: nat,
                   inputColOffset: int, filterColOffset: int, error: seq<real>, filter: seq<real>, acc: seq<real>)
    returns (outVal: seq<real>)
    requires p.Valid() && kp == InputBackpropParams(p) && IsItem(p, v, t)
    requires |error| == p.OutSize() && |filter| == p.FilSize()
    requires row < p.outRows && 0 <= FilRow(p, t, row) < p.winRows
    requires col < p.outCols && 0 <= FilCol(p, t, col) < p.winCols
    requires inputColOffset == p.OutIndex(t.s0, row, col, t.s3 * v * p.multiplier)
    requires filterColOffset == p.FilIndex(FilRow(p, t, row), FilCol(p, t, col), t.s3 * v * p.multiplier)
    requires Accumulated(p, v, error, filter, t, row, col, 0, acc)
    ensures Accumulated(p, v, error, filter, t, row, col, p.multiplier, outVal)
  {
    outVal := acc;
    var multiple: nat := 0;
    while multiple < kp.multiplier
      invariant 0 <= multiple <= p.multiplier
      invariant true == Accumulated(p, v, error, filter, t, row, col, multiple, outVal)
    {
      outVal := InputTapAt(p, v, t, row, col, multiple, inputColOffset, filterColOffset, error, filter, outVal);
      multiple := multiple + 1;
    }
  }

  /** One output row: runs its columns, and the multiples of the channel, backwards through the filter. */
  method InputRow(ghost p: Params, kp: Params, v: nat, ghost t: Index4, cstart: nat, firstc: nat, row: nat,
                  inputRowOffset: int, filterRowOffset: int, error: seq<real>, filter: seq<real>, acc: seq<real>)
    returns (outVal: seq<real>)
    requires p.Valid() && kp == InputBackpropParams(p) && IsItem(p, v, t)
    requires |error| == p.OutSize() && |filter| == p.FilSize()
    requires firstc == p.winCols - 1 - FilCol(p, t, cstart)
    requires cstart > 0 ==> FilCol(p, t, cstart - 1) >= p.winCols
    requires row < p.outRows && 0 <= FilRow(p, t, row) < p.winRows
    requires inputRowOffset == p.OutIndex(t.s0, row, 0, t.s3 * v * p.multiplier)
    requires filterRowOffset == p.FilIndex(FilRow(p, t, row), 0, t.s3 * v * p.multiplier)
    requires Accumulated(p, v, error, filter, t, row, 0, 0, acc)
    ensures Accumulated(p, v, error, filter, t, row, p.outCols, 0, outVal)
  {
    ghost var feature := t.s3 * v * p.multiplier;
    ghost var fr := FilRow(p, t, row);
    var features := kp.Features();
    FlattenStep(t.s0, row, 0, feature, p.outRows, p.outCols, features, cstart);
    FlattenStep3(fr, 0, feature, p.winCols, features, kp.winCols - firstc - 1);
    var inputColOffset := inputRowOffset + cstart * features;
    var filterColOffset := filterRowOffset + (kp.winCols - firstc - 1) * features;
    var col: nat, j: nat := cstart, firstc;
    outVal := acc;
    StartOfRow(p, v, error, filter, t, row, cstart, Min(cstart, p.outCols), acc);
    while j < kp.winCols
      invariant j == p.winCols - 1 - FilCol(p, t, col) && cstart <= col
      invariant inputColOffset == p.OutIndex(t.s0, row, col, feature)
      invariant filterColOffset == p.FilIndex(fr, FilCol(p, t, col), feature)
      invariant true == Accumulated(p, v, error, filter, t, row, Min(col, p.outCols), 0, outVal)
      decreases kp.winCols - j
    {
      if col >= 0 && col < kp.outCols {
        outVal := InputCell(p, kp, v, t, row, col, inputColOffset, filterColOffset, error, filter, outVal);
        NextCell(p, v, error, filter, t, row, col, outVal);
      }
      FlattenStep(t.s0, row, col, feature, p.outRows, p.outCols, features, 1);
      NextFilterOffsets(p, t, col);
      FlattenStep3(fr, FilCol(p, t, col + 1), feature, p.winCols, features, p.strideCols);
      inputColOffset := inputColOffset + features;
      filterColOffset := filterColOffset - kp.strideCols * features;
      col, j := col + 1, j + kp.strideCols;
    }
    EndOfRow(p, v, error, filter, t, row, col, Min(col, p.outCols), outVal);
  }

  /** By a stride from one output row (or column) to the next. */
  lemma NextFilterOffsets(p: Params, t: Index4, o: int)
    ensures FilCol(p, t, o) == FilCol(p, t, o + 1) + p.strideCols
    ensures FilRow(p, t, o) == FilRow(p, t, o + 1) + p.strideRows
  {
  }

  lemma StartOfRow(p: Params, v: nat, e: seq<real>, w: seq<real>, t: Index4, row: nat, cstart: nat, n: nat,
                   acc: seq<real>)
    requires p.Valid() && Accumulated(p, v, e, w, t, row, 0, 0, acc)
    requires cstart > 0 ==> FilCol(p, t, cstart - 1) >= p.winCols
    requires n <= cstart
    ensures Accumulated(p, v, e, w, t, row, n, 0, acc)
  {
    forall l | 0 <= l < v
      ensures acc[l] == NestSum(p, e, w, Lane(t, v, l), row) + RowSum(p, e, w, Lane(t, v, l), row, n)
                        + CellSum(p, e, w, Lane(t, v, l), row, n, 0)
    {
      ColsBefore(p, e, w, Lane(t, v, l), row, cstart, n);
    }
  }

  lemma EndOfRow(p: Params, v: nat, e: seq<real>, w: seq<real>, t: Index4, row: nat, col: int, n: nat, acc: seq<real>)
    requires p.Valid() && n <= p.outCols && (n == p.outCols || n == col)
    requires Accumulated(p, v, e, w, t, row, n, 0, acc)
    requires FilCol(p, t, col) < 0
    ensures Accumulated(p, v, e, w, t, row, p.outCols, 0, acc)
  {
    forall l | 0 <= l < v
      ensures acc[l] == NestSum(p, e, w, Lane(t, v, l), row) + RowSum(p, e, w, Lane(t, v, l), row, p.outCols)
                        + CellSum(p, e, w, Lane(t, v, l), row, p.outCols, 0)
    {
      ColsAfter(p, e, w, Lane(t, v, l), row, col, n);
    }
  }

  /** The accumulator once the rows before `row` (or all rows, if there are fewer) are done. */
  ghost predicate RowsDone(p: Params, v: nat, e: seq<real>, w: seq<real>, t: Index4, row: nat, acc: seq<real>)
    requires p.Valid()
  {
    Accumulated(p, v, e, w, t, Min(row, p.outRows), 0, 0, acc)
  }

  lemma StartOfNest(p: Params, v: nat, e: seq<real>, w: seq<real>, t: Index4, rstart: nat)
    requires p.Valid()
    requires rstart > 0 ==> FilRow(p, t, rstart - 1) >= p.winRows
    ensures RowsDone(p, v, e, w, t, rstart, Splat(0.0, v))
  {
    var n := Min(rstart, p.outRows);
    forall l | 0 <= l < v
      ensures 0.0
              == NestSum(p, e, w, Lane(t, v, l), n) + RowSum(p, e, w, Lane(t, v, l), n, 0)
              + CellSum(p, e, w, Lane(t, v, l), n, 0, 0)
    {
      RowsBefore(p, e, w, Lane(t, v, l), rstart, n);
    }
  }

  /** The rows of item `index`, whose vector starts at t, are done, and all rows within reach are among them. */
  ghost predicate ItemDone(p: Params, v: nat, e: seq<real>, w: seq<real>, index: nat, t: Index4, row: nat,
                           acc: seq<real>)
  {
    && p.Valid() && SupportsWidth(p, v) && index < p.InSize() / v && p.channels / v > 0
    && t == Unflatten4(index, p.inRows, p.inCols, p.channels / v)
    && RowsDone(p, v, e, w, t, row, acc) && FilRow(p, t, row) < 0
  }

  lemma LaneComplete(p: Params, v: nat, e: seq<real>, w: seq<real>, index: nat, t: Index4, row: nat, l: nat, k: int,
                     acc: seq<real>, g: seq<real>)
    requires p.Valid() && true == ItemDone(p, v, e, w, index, t, row, acc) && l < v
    requires k == index * v + l && g == InputBackprop(p, e, w)
    ensures l < |acc| && 0 <= k < |g| && acc[l] == g[k]
  {
    ProductSign(index, v);
    LaneOfItem(index, v, l, p.batch, p.inRows, p.inCols, p.channels);
    NestIsInputBackprop(p, e, w, k, Lane(t, v, l));
    RowsAfter(p, e, w, Lane(t, v, l), row, Min(row, p.outRows));
  }

  lemma EachLaneComplete(p: Params, v: nat, e: seq<real>, w: seq<real>, index: nat, t: Index4, row: nat, acc: seq<real>,
                         base: int, g: seq<real>)
    requires p.Valid() && |acc| == v && true == ItemDone(p, v, e, w, index, t, row, acc)
    requires base == index * v && g == InputBackprop(p, e, w)
    ensures LanesAre(acc, base, g)
  {
    forall l | 0 <= l < v
      ensures LaneIs(acc, base, g, l)
    {
      LaneComplete(p, v, e, w, index, t, row, l, base + l, acc, g);
    }
  }

  lemma LanesComplete(p: Params, v: nat, e: seq<real>, w: seq<real>, index: nat, t: Index4, row: nat, acc: seq<real>)
    requires p.Valid() && SupportsWidth(p, v) && index < p.InSize() / v && p.channels / v > 0
    requires t == Unflatten4(index, p.inRows, p.inCols, p.channels / v)
    requires RowsDone(p, v, e, w, t, row, acc) && FilRow(p, t, row) < 0
    ensures 0 <= index * v && index * v + v <= p.InSize()
    ensures forall n :: Owns(index, v, n) ==> acc[n - index * v] == InputBackprop(p, e, w)[n]
  {
    EachLaneComplete(p, v, e, w, index, t, row, acc, index * v, InputBackprop(p, e, w));
    OwnedLanes(acc, index, v, index * v, InputBackprop(p, e, w));
  }

  lemma ItemInRange(p: Params, v: nat, index: nat)
    requires p.Valid() && SupportsWidth(p, v) && index < p.InSize() / v
    ensures p.channels / v > 0
    ensures IsItem(p, v, Unflatten4(index, p.inRows, p.inCols, p.channels / v))
  {
    LaneOfItem(index, v, 0, p.batch, p.inRows, p.inCols, p.channels);
    LaneOfItem(index, v, v - 1, p.batch, p.inRows, p.inCols, p.channels);
  }

  lemma StartOffsets(p: Params, b: int, rstart: int, feature: int, filRow: int)
    requires p.Valid()
    ensures b * p.outCols * p.outRows * p.Features() + feature + rstart * p.outCols * p.Features()
            == p.OutIndex(b, rstart, 0, feature)
    ensures feature + filRow * p.winCols * p.Features() == p.FilIndex(filRow, 0, feature)
  {
  }

  /** Runs the output rows that cover one vector of input elements. */
  method InputVector(ghost p: Params, kp: Params, v: nat, index: nat, error: seq<real>, filter: seq<real>)
    returns (outVal: seq<real>)
    requires p.Valid() && kp == InputBackpropParams(p) && SupportsWidth(p, v) && index < p.InSize() / v
    requires |error| == p.OutSize() && |filter| == p.FilSize()
    ensures |outVal| == v && 0 <= index * v && index * v + v <= p.InSize()
    ensures forall n :: Owns(index, v, n) ==> outVal[n - index * v] == InputBackprop(p, error, filter)[n]
  {
    var features := kp.Features();
    ItemInRange(p, v, index);
    var t := Unflatten4(index, kp.inRows, kp.inCols, kp.channels / v);
    var channel, colIdx, rowIdx, batchIdx := t.s3 * v, t.s2, t.s1, t.s0;
    var colWindow := OutWindowFromInput(colIdx, kp.strideCols, kp.padCols);
    var cstart, firstc := colWindow.windowStart, colWindow.filterStart;
    var rowWindow := OutWindowFromInput(rowIdx, kp.strideRows, kp.padRows);
    var rstart: nat, firstr: nat := rowWindow.windowStart, rowWindow.filterStart;
    NextFilterOffsets(p, t, cstart - 1);
    NextFilterOffsets(p, t, rstart - 1);

    outVal := Splat(0.0, v);
    ghost var feature := channel * p.multiplier;
    StartOffsets(p, t.s0, rstart, feature, kp.winRows - firstr - 1);
    var inputInitialOffset := batchIdx * kp.outCols * kp.outRows * features + channel * kp.multiplier;
    var filterInitialOffset := channel * kp.multiplier;
    var inputRowOffset := inputInitialOffset + rstart * kp.outCols * features;
    var filterRowOffset := filterInitialOffset + (kp.winRows - firstr - 1) * kp.winCols * features;
    StartOfNest(p, v, error, filter, t, rstart);
    var row: nat, i: nat := rstart, firstr;
    while i < kp.winRows
      invariant i == p.winRows - 1 - FilRow(p, t, row) && rstart <= row
      invariant inputRowOffset == p.OutIndex(t.s0, row, 0, feature)
      invariant filterRowOffset == p.FilIndex(FilRow(p, t, row), 0, feature)
      invariant true == RowsDone(p, v, error, filter, t, row, outVal)
      decreases kp.winRows - i
    {
      if row >= 0 && row < kp.outRows {
        outVal := InputRow(p, kp, v, t, cstart, firstc, row, inputRowOffset, filterRowOffset, error, filter, outVal);
        NextRow(p, v, error, filter, t, row, outVal);
      }
      FlattenStep(t.s0, row, 0, feature, p.outRows, p.outCols, features, 1);
      NextFilterOffsets(p, t, row);
      FlattenStep3(FilRow(p, t, row + 1), 0, feature, p.winCols, features, p.strideRows);
      inputRowOffset := inputRowOffset + kp.outCols * features;
      filterRowOffset := filterRowOffset - kp.strideRows * kp.winCols * features;
      row, i := row + 1, i + kp.strideRows;
    }
    LanesComplete(p, v, error, filter, index, t, row, outVal);
  }

  /** One work-item: stores its own vector, and nothing past the end. */
  method InputItem(ghost p: Params, kp: Params, v: nat, index: nat, error: seq<real>, filter: seq<real>,
                   output: array<real>)
    requires p.Valid() && kp == InputBackpropParams(p) && SupportsWidth(p, v)
    requires |error| == p.OutSize() && |filter| == p.FilSize() && output.Length == p.InSize()
    modifies output
    ensures forall n :: 0 <= n < output.Length ==>
              output[n] == if Owns(index, v, n) then InputBackprop(p, error, filter)[n] else old(output[n])
  {
    var nElems := output.Length / v;
    if index < nElems {
      var outVal := InputVector(p, kp, v, index, error, filter);
      Store(output, index * v, outVal);
    } else {
      WholeVectors(Product(Product(p.batch, p.inRows), p.inCols), p.channels, v);
      MulMono(p.InSize() / v, index, v);
    }
  }

  /** Theorem: whatever order the work-items run in, the launch computes the input-backprop map. */
  method LaunchInputBackprop(p: Params, workgroupSize: nat, order: seq<nat>, error: seq<real>, filter: seq<real>,
                             output: array<real>)
    requires p.Valid() && workgroupSize > 0
    requires |error| == p.OutSize() && |filter| == p.FilSize() && output.Length == p.InSize()
    requires IsSchedule(order, RoundUpToNearestMultiple(p.InSize() / ChosenWidth(p), workgroupSize))
    modifies output
    ensures output[..] == InputBackprop(p, error, filter)
  {
    var kp := InputBackpropParams(p);
    var v := ChosenWidth(kp);
    ghost var d := InputBackprop(p, error, filter);
    for s := 0 to |order|
      invariant forall s', n :: 0 <= s' < s && 0 <= n < output.Length && Owns(order[s'], v, n) ==> output[n] == d[n]
    {
      InputItem(p, kp, v, order[s], error, filter, output);
    }
    WholeVectors(Product(Product(p.batch, p.inRows), p.inCols), p.channels, v);
    forall n | 0 <= n < output.Length
      ensures output[n] == d[n]
    {
      QuotientBelow(n, v, p.InSize() / v);
      OwnerScheduled(order, RoundUpToNearestMultiple(p.InSize() / v, workgroupSize), v, n);
    }
  }
}
