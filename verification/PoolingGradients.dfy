/** The gradient kernels of average and max pooling. Both run one work-item per vector of inputs and
    gather from the outputs whose windows contain it. Only the channels-last layout has gradients. */
module PoolingGradients {
  import opened Arithmetic
  import opened Sums
  import opened Adjoints
  import opened FastDivision
  import opened TensorIndex
  import opened VectorIO
  import opened PoolingWindows
  import opened GridWalks
  import opened Pooling
  import opened MaxPooling
  import opened PoolingItems

  /** The outputs whose windows contain the input at t. */
  function RowSources(p: Params, t: Index4): Window
    requires p.Valid() && p.In().Has(t)
  {
    GetInputWindow(t.s1 + p.padRows, p.outRows, p.winRows, p.strideRows)
  }

  function ColSources(p: Params, t: Index4): Window
    requires p.Valid() && p.In().Has(t)
  {
    GetInputWindow(t.s2 + p.padCols, p.outCols, p.winCols, p.strideCols)
  }

  lemma SourcesAreCoverers(p: Params, t: Index4, r: int, c: int)
    requires p.Valid() && p.In().Has(t)
    ensures RowSources(p, t).Contains(r) <==> p.Row(r, t.s1)
    ensures ColSources(p, t).Contains(c) <==> p.Col(c, t.s2)
  {
    WindowsAreDual(r, t.s1, p.inRows, p.outRows, p.winRows, p.strideRows, p.padRows);
    WindowsAreDual(c, t.s2, p.inCols, p.outCols, p.winCols, p.strideCols, p.padCols);
  }

  /** The contributions h of the outputs that cover the vector of inputs at t, lane by lane. */
  ghost function OutputTerms(p: Params, t: Index4, h: (int, int) -> real): LaneGrid
  {
    (l, r, c) => Masked(p.Row(r, t.s1) && p.Col(c, t.s2), h(l, p.Out().Index(Lane(Index4(t.s0, r, c, t.s3), l))))
  }

  lemma OutputTermsFramed(p: Params, v: nat, t: Index4, h: (int, int) -> real)
    requires p.Valid() && p.In().Has(t)
    ensures Framed(OutputTerms(p, t, h), v, RowSources(p, t).begin, RowSources(p, t).end, ColSources(p, t).begin,
                   ColSources(p, t).end)
  {
    var f, rows, cols := OutputTerms(p, t, h), RowSources(p, t), ColSources(p, t);
    forall l, r, c | 0 <= l < v && r >= 0 && c >= 0 && !(rows.begin <= r < rows.end && cols.begin <= c < cols.end)
      ensures f(l, r, c) == 0.0
    {
      SourcesAreCoverers(p, t, r, c);
      OutputTermAt(p, t, h, l, r, c);
    }
  }

  lemma OutputTermAt(p: Params, t: Index4, h: (int, int) -> real, l: int, r: int, c: int)
    ensures OutputTerms(p, t, h)(l, r, c)
            == Masked(p.Row(r, t.s1) && p.Col(c, t.s2), h(l, p.Out().Index(Lane(Index4(t.s0, r, c, t.s3), l))))
  {
  }

  /** What the average-pool gradient gathers from output k. */
  ghost function Shares(p: Params, e: seq<real>): (int, int) -> real
    requires p.Valid()
  {
    (l, k) => Share(p, e, k)
  }

  lemma OutputTermsTotal(p: Params, v: nat, index: nat, t: Index4, l: nat, h: (int, int) -> real, g: int -> real)
    requires p.Valid() && IsVector(p.In(), v, index, t) && l < v
    requires forall k :: 0 <= k < p.Out().Size() ==> g(k) == Masked(Covers(p, k, index * v + l), h(l, k))
    ensures Sum2(p.outRows, p.outCols, LaneOf(OutputTerms(p, t, h), l)) == Sum(p.Out().Size(), g)
  {
    var n := index * v + l;
    assert p.In().Coord(n) == Lane(t, l);
    var hl := k => h(l, k);
    SumOverCoverers(p, n, hl);
    SumExt(p.Out().Size(), g, k => Masked(Covers(p, k, n), hl(k)));
    Sum2Ext(p.outRows, p.outCols, LaneOf(OutputTerms(p, t, h), l), OutputPlane(p, Lane(t, l), hl));
  }

  ghost predicate IsItem(p: Params, v: nat, t: Index4, e: seq<real>)
  {
    && p.Valid() && p.format == NHWC && SupportsWidth(p.Out(), v) && |e| == p.Out().Size()
    && p.In().Has(t) && p.In().Has(Lane(t, v - 1))
  }

  /** The windows of the sources, and the terms they contribute. */
  ghost predicate AreTerms(p: Params, v: nat, t: Index4, rows: Window, cols: Window, h: (int, int) -> real, f: LaneGrid)
    requires p.Valid() && p.In().Has(t)
  {
    && f == OutputTerms(p, t, h) && rows == RowSources(p, t) && cols == ColSources(p, t)
    && Framed(f, v, rows.begin, rows.end, cols.begin, cols.end)
  }

  /** The errors of the vector of outputs at (poolr, poolc) over the channels of t. */
  method LoadErrors(p: Params, v: nat, t: Index4, poolr: int, poolc: int, e: seq<real>) returns (val: seq<real>)
    requires IsItem(p, v, t, e) && 0 <= poolr < p.outRows && 0 <= poolc < p.outCols
    ensures |val| == v && forall l :: 0 <= l < v ==>
            val[l] == At(e, p.Out().Index(Lane(Index4(t.s0, poolr, poolc, t.s3), l)))
  {
    var channel := t.s3;
    var start := t.s0 * p.outCols * p.outRows * p.channels + channel;
    var idx := (poolr * p.outCols + poolc) * p.channels;
    ghost var o := Index4(t.s0, poolr, poolc, channel);
    OutputOffset(p, t.s0, poolr, poolc, channel);
    LanesConsecutive(p.Out(), v, o);
    val := Load(e, start + idx, v);
  }

  lemma OutputOffset(p: Params, b: int, r: int, c: int, channel: int)
    requires p.format == NHWC
    ensures b * p.outCols * p.outRows * p.channels + channel + (r * p.outCols + c) * p.channels
            == p.Out().Index(Index4(b, r, c, channel))
  {
  }

  /** The share of output (poolr, poolc), divided by its actual window size. */
  method SharesAt(p: Params, v: nat, t: Index4, poolr: int, poolc: int, rowWindowSize: int, e: seq<real>)
    returns (val: seq<real>)
    requires IsItem(p, v, t, e) && p.Row(poolr, t.s1) && p.Col(poolc, t.s2)
    requires rowWindowSize == GetActualWindowSize(poolr, p.inRows, p.winRows, p.strideRows, p.padRows)
    ensures |val| == v
    ensures forall l :: 0 <= l < v ==> val[l] == Share(p, e, p.Out().Index(Lane(Index4(t.s0, poolr, poolc, t.s3), l)))
  {
    var colWindowSize := GetActualWindowSize(poolc, p.inCols, p.winCols, p.strideCols, p.padCols);
    RowIffWindow(p, poolr, t.s1);
    ColIffWindow(p, poolc, t.s2);
    ProductSign(rowWindowSize, colWindowSize);
    var windowSize := rowWindowSize * colWindowSize;
    var errors := LoadErrors(p, v, t, poolr, poolc, e);
    val := seq(v, l requires 0 <= l < v && |errors| == v && windowSize > 0 => errors[l] / windowSize as real);
    forall l | 0 <= l < v
      ensures val[l] == Share(p, e, p.Out().Index(Lane(Index4(t.s0, poolr, poolc, t.s3), l)))
    {
      p.Out().CoordOfIndex(Lane(Index4(t.s0, poolr, poolc, t.s3), l));
    }
  }

  function Add(a: seq<real>, b: seq<real>): (r: seq<real>)
    requires |a| == |b|
    ensures |r| == |a| && forall l :: 0 <= l < |a| ==> r[l] == a[l] + b[l]
  {
    seq(|a|, l requires 0 <= l < |a| => a[l] + b[l])
  }

  method AverageGradientAtSource(p: Params, v: nat, t: Index4, poolr: nat, poolc: nat, rowWindowSize: int, e: seq<real>,
                                 gradient: seq<real>, ghost rows: Window, ghost cols: Window, ghost f: LaneGrid)
    returns (sum: seq<real>)
    requires IsItem(p, v, t, e) && AreTerms(p, v, t, rows, cols, Shares(p, e), f)
    requires rows.Contains(poolr) && cols.Contains(poolc)
    requires rowWindowSize == GetActualWindowSize(poolr, p.inRows, p.winRows, p.strideRows, p.padRows)
    requires Walked(f, v, p.outCols, poolr, poolc, gradient)
    ensures Walked(f, v, p.outCols, poolr, poolc + 1, sum)
  {
    SourcesAreCoverers(p, t, poolr, poolc);
    var val := SharesAt(p, v, t, poolr, poolc, rowWindowSize, e);
    sum := Add(gradient, val);
    forall l | 0 <= l < v
      ensures sum[l] == gradient[l] + f(l, poolr, poolc)
    {
      OutputTermAt(p, t, Shares(p, e), l, poolr, poolc);
    }
    WalkedStep(f, v, p.outCols, poolr, poolc, gradient, sum);
  }

  method AverageGradientRow(p: Params, v: nat, t: Index4, poolr: nat, e: seq<real>, gradient: seq<real>,
                            ghost rows: Window, cols: Window, ghost f: LaneGrid)
    returns (sum: seq<real>)
    requires IsItem(p, v, t, e) && true == AreTerms(p, v, t, rows, cols, Shares(p, e), f)
    requires Framed(f, v, rows.begin, rows.end, cols.begin, cols.end)
    requires rows.Contains(poolr) && 0 <= cols.begin && cols.end <= p.outCols
    requires Walked(f, v, p.outCols, poolr, 0, gradient)
    ensures Walked(f, v, p.outCols, poolr + 1, 0, sum)
  {
    sum := gradient;
    var rowWindowSize := GetActualWindowSize(poolr, p.inRows, p.winRows, p.strideRows, p.padRows);
    WalkedEnter(f, v, p.outCols, poolr, rows.begin, rows.end, cols.begin, cols.end, sum);
    var poolc := cols.begin;
    while poolc < cols.end
      invariant cols.begin <= poolc && (poolc <= cols.end || poolc == cols.begin)
      invariant true == Walked(f, v, p.outCols, poolr, poolc, sum)
    {
      sum := AverageGradientAtSource(p, v, t, poolr, poolc, rowWindowSize, e, sum, rows, cols, f);
      poolc := poolc + 1;
    }
    WalkedLeave(f, v, p.outCols, poolr, rows.begin, rows.end, cols.begin, cols.end, poolc, sum);
  }

  method AverageGradientSum(p: Params, v: nat, t: Index4, e: seq<real>, rows: Window, cols: Window, ghost f: LaneGrid)
    returns (gradient: seq<real>)
    requires IsItem(p, v, t, e) && true == AreTerms(p, v, t, rows, cols, Shares(p, e), f)
    requires Framed(f, v, rows.begin, rows.end, cols.begin, cols.end)
    requires 0 <= rows.begin && rows.end <= p.outRows && 0 <= cols.begin && cols.end <= p.outCols
    ensures |gradient| == v && forall l :: 0 <= l < v ==> gradient[l] == Sum2(p.outRows, p.outCols, LaneOf(f, l))
  {
    gradient := Splat(0.0, v);
    WalkedStart(f, v, p.outCols, rows.begin, rows.end, cols.begin, cols.end, gradient);
    var poolr := rows.begin;
    while poolr < rows.end
      invariant rows.begin <= poolr && (poolr <= rows.end || poolr == rows.begin)
      invariant true == Walked(f, v, p.outCols, poolr, 0, gradient)
    {
      gradient := AverageGradientRow(p, v, t, poolr, e, gradient, rows, cols, f);
      poolr := poolr + 1;
    }
    WalkedEnd(f, v, p.outRows, p.outCols, poolr, rows.begin, rows.end, cols.begin, cols.end, gradient);
  }

  /** The average-pool gradient of one vector of inputs. */
  method AverageGradientVector(p: Params, v: nat, w: nat, index: nat, e: seq<real>) returns (gradient: seq<real>)
    requires p.Valid() && p.format == NHWC && SupportsWidth(p.In(), v) && index < p.In().Size() / v
    requires w >= 3 && p.In().Size() < Pow2(w - 1) && |e| == p.Out().Size()
    ensures |gradient| == v
    ensures forall l :: 0 <= l < v ==> gradient[l] == AverageGradientAt(p, e, index * v + l)
  {
    var t := Decode(p.In(), v, w, index);
    assert Lane(t, 0) == t;
    assert p.In().Has(Lane(t, 0)) && p.In().Has(Lane(t, v - 1));
    ghost var h := Shares(p, e);
    OutputTermsFramed(p, v, t, h);
    gradient := AverageGradientSum(p, v, t, e, RowSources(p, t), ColSources(p, t), OutputTerms(p, t, h));
    forall l | 0 <= l < v
      ensures gradient[l] == AverageGradientAt(p, e, index * v + l)
    {
      LaneGradient(p, v, index, t, l, e);
    }
  }

  lemma LaneGradient(p: Params, v: nat, index: nat, t: Index4, l: nat, e: seq<real>)
    requires p.Valid() && IsVector(p.In(), v, index, t) && l < v
    ensures Sum2(p.outRows, p.outCols, LaneOf(OutputTerms(p, t, Shares(p, e)), l))
            == AverageGradientAt(p, e, index * v + l)
  {
    OutputTermsTotal(p, v, index, t, l, Shares(p, e), k => Masked(Covers(p, k, index * v + l), Share(p, e, k)));
  }

  method AverageGradientItem(p: Params, v: nat, w: nat, index: nat, e: seq<real>, output: array<real>)
    requires p.Valid() && p.format == NHWC && SupportsWidth(p.In(), v) && index < p.In().Size() / v
    requires w >= 3 && p.In().Size() < Pow2(w - 1) && |e| == p.Out().Size() && output.Length == p.In().Size()
    modifies output
    ensures forall n :: 0 <= n < output.Length ==>
              output[n] == if Owns(index, v, n) then AverageGradient(p, e)[n] else old(output[n])
  {
    var gradient := AverageGradientVector(p, v, w, index, e);
    ItemOwns(p.In(), v, index);
    Store(output, index * v, gradient);
    forall n | Owns(index, v, n)
      ensures output[n] == AverageGradient(p, e)[n]
    {
      assert gradient[n - index * v] == AverageGradientAt(p, e, index * v + (n - index * v));
    }
  }

  /** Theorem: in any order of the work-items the launch computes the gradient of average pooling. */
  method LaunchAverageGradient(p: Params, w: nat, order: seq<nat>, e: seq<real>, output: array<real>)
    requires p.Valid() && p.format == NHWC && w >= 3 && p.In().Size() < Pow2(w - 1)
    requires |e| == p.Out().Size() && output.Length == p.In().Size()
    requires IsSchedule(order, p.In().Size() / ChosenWidth(p.In()))
    modifies output
    ensures output[..] == AverageGradient(p, e)
  {
    var v := ChosenWidth(p.In());
    ghost var g := AverageGradient(p, e);
    for s := 0 to |order|
      invariant forall s', n :: 0 <= s' < s && 0 <= n < output.Length && Owns(order[s'], v, n) ==> output[n] == g[n]
    {
      AverageGradientItem(p, v, w, order[s], e, output);
    }
    forall n | 0 <= n < output.Length
      ensures output[n] == g[n]
    {
      OwnerRuns(p.In(), v, order, n);
    }
  }

  /** The error of output k if input n is the first maximum of its window. */
  ghost function Wins(p: Params, x: seq<real>, y: seq<real>, e: seq<real>, n: nat): (int, int) -> real
    requires p.Valid()
  {
    (l, k) => Masked(Winner(p, x, y, k, n), At(e, k))
  }

  ghost predicate MaxSizes(p: Params, x: seq<real>, y: seq<real>, e: seq<real>)
  {
    p.Valid() && p.format == NHWC && |x| == p.In().Size() && |y| == |e| == p.Out().Size()
  }

  /** The state of the search through window o, at (r, c): undecided means that neither the input's own
      position t nor any other maximum has been passed. */
  ghost predicate Searched(p: Params, x: seq<real>, o: Index4, v: real, t: Index4, r: int, c: int, isMax: bool,
                           undecided: bool)
  {
    if undecided then isMax && !Before(t.s1, t.s2, r, c) && NoHitBefore(p, x, o, v, r, c)
    else isMax <==> Hit(p, x, o, v, t.s1, t.s2) && NoHitBefore(p, x, o, v, t.s1, t.s2)
  }

  /** Passing over positions outside the window. */
  lemma SearchSkip(p: Params, x: seq<real>, o: Index4, v: real, t: Index4, r: int, c: int, r': int, c': int,
                   isMax: bool, undecided: bool)
    requires Searched(p, x, o, v, t, r, c, isMax, undecided) && InPool(p, o, t.s1, t.s2)
    requires forall i, j :: Before(i, j, r', c') && !Before(i, j, r, c) ==> !InPool(p, o, i, j)
    ensures Searched(p, x, o, v, t, r', c', isMax, undecided)
  {
  }

  lemma SearchStep(p: Params, x: seq<real>, o: Index4, v: real, t: Index4, r: int, c: int, isMax: bool, undecided: bool)
    requires Searched(p, x, o, v, t, r, c, true, true) && Hit(p, x, o, v, t.s1, t.s2) && InPool(p, o, r, c)
    requires undecided <==> !(r == t.s1 && c == t.s2) && Val(p, x, o, r, c) != v
    requires isMax <==> (r == t.s1 && c == t.s2) || Val(p, x, o, r, c) != v
    ensures Searched(p, x, o, v, t, r, c + 1, isMax, undecided)
  {
    if undecided {
      forall i, j | Before(i, j, r, c + 1)
        ensures !Hit(p, x, o, v, i, j)
      {
        if !Before(i, j, r, c) {
          assert i == r && j == c;
        }
      }
    } else if !(r == t.s1 && c == t.s2) {
      assert Before(r, c, t.s1, t.s2) && Hit(p, x, o, v, r, c);
    }
  }

  /** Equal offsets without image and channel mean the same row and column. */
  lemma SamePosition(p: Params, r: int, c: int, r': int, c': int)
    requires p.Valid() && r >= 0 && r' >= 0 && 0 <= c < p.inCols && 0 <= c' < p.inCols
    requires (r * p.inCols + c) * p.channels == (r' * p.inCols + c') * p.channels
    ensures r == r' && c == c'
  {
    UnflattenOfFlatten3(r, c, 0, p.inCols, p.channels);
    UnflattenOfFlatten3(r', c', 0, p.inCols, p.channels);
  }

  lemma InputOffset(p: Params, b: int, r: int, c: int, channel: int)
    requires p.format == NHWC
    ensures b * p.inCols * p.inRows * p.channels + channel + (r * p.inCols + c) * p.channels
            == p.In().Index(Index4(b, r, c, channel))
  {
  }

  /** Looks at one window position. */
  method SearchPosition(p: Params, ghost t: Index4, ghost o: Index4, winR: int, winC: int, indexNoN: int,
                        inputStart: int, outputValue: real, x: seq<real>)
    returns (isMax: bool, shouldContinue: bool)
    requires p.Valid() && p.format == NHWC && |x| == p.In().Size()
    requires p.In().Has(t) && p.Out().Has(o) && o.s0 == t.s0 && o.s3 == t.s3 && InPool(p, o, winR, winC)
    requires inputStart == t.s0 * p.inCols * p.inRows * p.channels + t.s3
    requires indexNoN == (t.s1 * p.inCols + t.s2) * p.channels
    requires Hit(p, x, o, outputValue, t.s1, t.s2) && Searched(p, x, o, outputValue, t, winR, winC, true, true)
    ensures Searched(p, x, o, outputValue, t, winR, winC + 1, isMax, shouldContinue)
    ensures shouldContinue ==> isMax
  {
    var inputDataIdx := (winR * p.inCols + winC) * p.channels;
    isMax, shouldContinue := true, true;
    if inputDataIdx == indexNoN {
      SamePosition(p, winR, winC, t.s1, t.s2);
      shouldContinue := false;
    } else {
      InputOffset(p, t.s0, winR, winC, t.s3);
      p.In().CoordOfIndex(Index4(t.s0, winR, winC, t.s3));
      var nextVal := x[inputStart + inputDataIdx];
      if nextVal == outputValue {
        shouldContinue := false;
        isMax := false;
      }
    }
    SearchStep(p, x, o, outputValue, t, winR, winC, isMax, shouldContinue);
  }

  lemma PoolBounds(p: Params, o: Index4)
    requires p.Valid() && p.Out().Has(o)
    ensures forall i, j :: InPool(p, o, i, j) <==> p.RowWindow(o.s1).Contains(i) && p.ColWindow(o.s2).Contains(j)
  {
  }

  method SearchRow(p: Params, ghost t: Index4, ghost o: Index4, winR: int, cols: Window, indexNoN: int, inputStart: int,
                   outputValue: real, x: seq<real>)
    returns (isMax: bool, shouldContinue: bool)
    requires p.Valid() && p.format == NHWC && |x| == p.In().Size()
    requires p.In().Has(t) && p.Out().Has(o) && o.s0 == t.s0 && o.s3 == t.s3
    requires cols == p.ColWindow(o.s2) && p.RowWindow(o.s1).Contains(winR)
    requires inputStart == t.s0 * p.inCols * p.inRows * p.channels + t.s3
    requires indexNoN == (t.s1 * p.inCols + t.s2) * p.channels
    requires Hit(p, x, o, outputValue, t.s1, t.s2) && Searched(p, x, o, outputValue, t, winR, 0, true, true)
    ensures Searched(p, x, o, outputValue, t, winR + 1, 0, isMax, shouldContinue)
    ensures shouldContinue ==> isMax
  {
    PoolBounds(p, o);
    isMax, shouldContinue := true, true;
    SearchSkip(p, x, o, outputValue, t, winR, 0, winR, cols.begin, isMax, shouldContinue);
    var winC := cols.begin;
    while winC < cols.end && shouldContinue
      invariant cols.begin <= winC && (shouldContinue ==> isMax)
      invariant true == Searched(p, x, o, outputValue, t, winR, winC, isMax, shouldContinue)
    {
      isMax, shouldContinue := SearchPosition(p, t, o, winR, winC, indexNoN, inputStart, outputValue, x);
      winC := winC + 1;
    }
    if shouldContinue {
      SearchSkip(p, x, o, outputValue, t, winR, winC, winR + 1, 0, isMax, shouldContinue);
    }
  }

  /** Is the input at t the first element of window o to equal the output? */
  method IsFirstMaximum(p: Params, ghost t: Index4, ghost o: Index4, rows: Window, cols: Window, indexNoN: int,
                        inputStart: int, inputValue: real, outputValue: real, x: seq<real>)
    returns (isMax: bool)
    requires p.Valid() && p.format == NHWC && |x| == p.In().Size()
    requires p.In().Has(t) && p.Out().Has(o) && o.s0 == t.s0 && o.s3 == t.s3 && InPool(p, o, t.s1, t.s2)
    requires rows == p.RowWindow(o.s1) && cols == p.ColWindow(o.s2) && inputValue == Val(p, x, o, t.s1, t.s2)
    requires inputStart == t.s0 * p.inCols * p.inRows * p.channels + t.s3
    requires indexNoN == (t.s1 * p.inCols + t.s2) * p.channels
    ensures isMax <==> Hit(p, x, o, outputValue, t.s1, t.s2) && NoHitBefore(p, x, o, outputValue, t.s1, t.s2)
  {
    isMax := inputValue == outputValue;
    var shouldContinue := isMax;
    PoolBounds(p, o);
    var winR := rows.begin;
    while winR < rows.end && shouldContinue
      invariant rows.begin <= winR && (shouldContinue ==> isMax && inputValue == outputValue)
      invariant true == Searched(p, x, o, outputValue, t, winR, 0, isMax, shouldContinue)
    {
      isMax, shouldContinue := SearchRow(p, t, o, winR, cols, indexNoN, inputStart, outputValue, x);
      winR := winR + 1;
    }
  }

  ghost predicate IsMaxItem(p: Params, x: seq<real>, y: seq<real>, e: seq<real>, n: nat, t: Index4)
  {
    MaxSizes(p, x, y, e) && n < p.In().Size() && p.In().Has(t) && t == p.In().Coord(n) && p.In().Index(t) == n
  }

  /** What the output at (poolr, poolc) adds to the gradient of input n. */
  method MaxGradientAtSource(p: Params, n: nat, t: Index4, poolr: nat, poolc: nat, rowOutput: Window,
                             x: seq<real>, y: seq<real>, e: seq<real>, gradient: real) returns (sum: real)
    requires IsMaxItem(p, x, y, e, n, t)
    requires p.Row(poolr, t.s1) && p.Col(poolc, t.s2) && rowOutput == p.RowWindow(poolr)
    ensures sum == gradient + OutputTerms(p, t, Wins(p, x, y, e, n))(0, poolr, poolc)
  {
    var channel := t.s3;
    var colOutput := p.ColWindow(poolc);
    var outputStart := t.s0 * p.outCols * p.outRows * p.channels + channel;
    var inputStart := t.s0 * p.inCols * p.inRows * p.channels + channel;
    var indexNoN := n - t.s0 * p.inCols * p.inRows * p.channels - channel;
    var outputDataIdx := (poolr * p.outCols + poolc) * p.channels;
    ghost var o := Index4(t.s0, poolr, poolc, channel);
    InputOffset(p, t.s0, t.s1, t.s2, channel);
    OutputOffset(p, t.s0, poolr, poolc, channel);
    p.Out().CoordOfIndex(o);
    var outputValue := y[outputStart + outputDataIdx];
    var isMax := IsFirstMaximum(p, t, o, rowOutput, colOutput, indexNoN, inputStart, x[n], outputValue, x);
    sum := if isMax then gradient + e[outputStart + outputDataIdx] else gradient;
    WinnerAtSource(p, x, y, e, n, t, o, poolr, poolc);
  }

  lemma WinnerAtSource(p: Params, x: seq<real>, y: seq<real>, e: seq<real>, n: nat, t: Index4, o: Index4, poolr: nat,
                       poolc: nat)
    requires IsMaxItem(p, x, y, e, n, t) && o == Index4(t.s0, poolr, poolc, t.s3)
    requires p.Row(poolr, t.s1) && p.Col(poolc, t.s2)
    ensures 0 <= p.Out().Index(o) < |y|
    ensures var v := y[p.Out().Index(o)];
            OutputTerms(p, t, Wins(p, x, y, e, n))(0, poolr, poolc)
            == Masked(Hit(p, x, o, v, t.s1, t.s2) && NoHitBefore(p, x, o, v, t.s1, t.s2), e[p.Out().Index(o)])
  {
    p.Out().CoordOfIndex(o);
    assert Lane(o, 0) == o;
    OutputTermAt(p, t, Wins(p, x, y, e, n), 0, poolr, poolc);
    WinnerIsFirstHit(p, x, y, p.Out().Index(o), n);
  }

  method MaxGradientCell(p: Params, n: nat, t: Index4, poolr: nat, poolc: nat, rowOutput: Window,
                         x: seq<real>, y: seq<real>, e: seq<real>, gradient: real,
                         ghost rows: Window, ghost cols: Window, ghost f: LaneGrid) returns (sum: real)
    requires IsMaxItem(p, x, y, e, n, t) && AreTerms(p, 1, t, rows, cols, Wins(p, x, y, e, n), f)
    requires rows.Contains(poolr) && cols.Contains(poolc) && rowOutput == p.RowWindow(poolr)
    requires Walked(f, 1, p.outCols, poolr, poolc, [gradient])
    ensures Walked(f, 1, p.outCols, poolr, poolc + 1, [sum])
  {
    SourcesAreCoverers(p, t, poolr, poolc);
    sum := MaxGradientAtSource(p, n, t, poolr, poolc, rowOutput, x, y, e, gradient);
    WalkedStep(f, 1, p.outCols, poolr, poolc, [gradient], [sum]);
  }

  method MaxGradientRow(p: Params, n: nat, t: Index4, poolr: nat, x: seq<real>, y: seq<real>, e: seq<real>,
                        gradient: real, ghost rows: Window, cols: Window, ghost f: LaneGrid) returns (sum: real)
    requires IsMaxItem(p, x, y, e, n, t) && true == AreTerms(p, 1, t, rows, cols, Wins(p, x, y, e, n), f)
    requires Framed(f, 1, rows.begin, rows.end, cols.begin, cols.end)
    requires rows.Contains(poolr) && 0 <= cols.begin && cols.end <= p.outCols
    requires Walked(f, 1, p.outCols, poolr, 0, [gradient])
    ensures Walked(f, 1, p.outCols, poolr + 1, 0, [sum])
  {
    sum := gradient;
    var rowOutput := p.RowWindow(poolr);
    WalkedEnter(f, 1, p.outCols, poolr, rows.begin, rows.end, cols.begin, cols.end, [sum]);
    var poolc := cols.begin;
    while poolc < cols.end
      invariant cols.begin <= poolc && (poolc <= cols.end || poolc == cols.begin)
      invariant true == Walked(f, 1, p.outCols, poolr, poolc, [sum])
    {
      sum := MaxGradientCell(p, n, t, poolr, poolc, rowOutput, x, y, e, sum, rows, cols, f);
      poolc := poolc + 1;
    }
    WalkedLeave(f, 1, p.outCols, poolr, rows.begin, rows.end, cols.begin, cols.end, poolc, [sum]);
  }

  method MaxGradientSum(p: Params, n: nat, t: Index4, x: seq<real>, y: seq<real>, e: seq<real>,
                        rows: Window, cols: Window, ghost f: LaneGrid) returns (gradient: real)
    requires IsMaxItem(p, x, y, e, n, t) && true == AreTerms(p, 1, t, rows, cols, Wins(p, x, y, e, n), f)
    requires Framed(f, 1, rows.begin, rows.end, cols.begin, cols.end)
    requires 0 <= rows.begin && rows.end <= p.outRows && 0 <= cols.begin && cols.end <= p.outCols
    ensures gradient == Sum2(p.outRows, p.outCols, LaneOf(f, 0))
  {
    gradient := 0.0;
    WalkedStart(f, 1, p.outCols, rows.begin, rows.end, cols.begin, cols.end, [gradient]);
    var poolr := rows.begin;
    while poolr < rows.end
      invariant rows.begin <= poolr && (poolr <= rows.end || poolr == rows.begin)
      invariant true == Walked(f, 1, p.outCols, poolr, 0, [gradient])
    {
      gradient := MaxGradientRow(p, n, t, poolr, x, y, e, gradient, rows, cols, f);
      poolr := poolr + 1;
    }
    WalkedEnd(f, 1, p.outRows, p.outCols, poolr, rows.begin, rows.end, cols.begin, cols.end, [gradient]);
  }

  /** One work-item of the max-pool gradient, which is never vectorised. */
  method MaxGradientItem(p: Params, w: nat, n: nat, x: seq<real>, y: seq<real>, e: seq<real>, output: array<real>)
    requires MaxSizes(p, x, y, e) && n < p.In().Size() && output.Length == p.In().Size()
    requires w >= 3 && p.In().Size() < Pow2(w - 1)
    modifies output
    ensures output[..] == old(output[..])[n := MaxGradientAt(p, x, y, e, n)]
  {
    var gradient := MaxGradientValue(p, w, n, x, y, e);
    output[n] := gradient;
  }

  method MaxGradientValue(p: Params, w: nat, n: nat, x: seq<real>, y: seq<real>, e: seq<real>) returns (gradient: real)
    requires MaxSizes(p, x, y, e) && n < p.In().Size() && w >= 3 && p.In().Size() < Pow2(w - 1)
    ensures gradient == MaxGradientAt(p, x, y, e, n)
  {
    var t := Decode(p.In(), 1, w, n);
    OnlyLane(p, n, t);
    ghost var h := Wins(p, x, y, e, n);
    OutputTermsFramed(p, 1, t, h);
    gradient := MaxGradientSum(p, n, t, x, y, e, RowSources(p, t), ColSources(p, t), OutputTerms(p, t, h));
    MaxTermsTotal(p, x, y, e, n, t);
  }

  lemma OnlyLane(p: Params, n: nat, t: Index4)
    requires p.Valid() && n < p.In().Size() && IsVector(p.In(), 1, n, t)
    ensures p.In().Has(t) && t == p.In().Coord(n) && p.In().Index(t) == n
  {
    assert Lane(t, 0) == t && n * 1 + 0 == n;
    assert IsLane(p.In(), n * 1 + 0, Lane(t, 0));
    p.In().IndexOfCoord(n);
  }

  lemma MaxTermsTotal(p: Params, x: seq<real>, y: seq<real>, e: seq<real>, n: nat, t: Index4)
    requires p.Valid() && n < p.In().Size() && IsVector(p.In(), 1, n, t)
    ensures Sum2(p.outRows, p.outCols, LaneOf(OutputTerms(p, t, Wins(p, x, y, e, n)), 0))
            == MaxGradientAt(p, x, y, e, n)
  {
    WinsAreCovered(p, x, y, e, n);
    OutputTermsTotal(p, 1, n, t, 0, Wins(p, x, y, e, n), k => Masked(Winner(p, x, y, k, n), At(e, k)));
  }

  lemma WinsAreCovered(p: Params, x: seq<real>, y: seq<real>, e: seq<real>, n: nat)
    requires p.Valid()
    ensures forall k ::
              Masked(Winner(p, x, y, k, n), At(e, k))
                == Masked(Covers(p, k, n), Masked(Winner(p, x, y, k, n), At(e, k)))
  {
  }

  /** Theorem: in any order of the work-items the launch gives each input the errors of the windows
      whose first maximum it is. */
  method LaunchMaxGradient(p: Params, w: nat, order: seq<nat>, x: seq<real>, y: seq<real>, e: seq<real>,
                           output: array<real>)
    requires MaxSizes(p, x, y, e) && w >= 3 && p.In().Size() < Pow2(w - 1) && output.Length == p.In().Size()
    requires IsSchedule(order, p.In().Size())
    modifies output
    ensures output[..] == MaxGradient(p, x, y, e)
  {
    ghost var g := MaxGradient(p, x, y, e);
    for s := 0 to |order|
      invariant forall s' :: 0 <= s' < s ==> output[order[s']] == g[order[s']]
    {
      MaxGradientItem(p, w, order[s], x, y, e, output);
    }
    forall n | 0 <= n < output.Length
      ensures output[n] == g[n]
    {
      assert n in order;
    }
  }
}
