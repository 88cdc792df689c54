/** What pooling computes: the relation between outputs and the inputs in their windows, the average
    and maximum over it, and the laws of the two gradients. */
module Pooling {
  import opened Arithmetic
  import opened Sums
  import opened Adjoints
  import opened TensorIndex
  import opened PoolingWindows
  import opened GridWalks

  datatype Format = NHWC | NCHW

  /** A tensor of images. Coordinates are always given as Index4(image, row, column, channel). */
  datatype Shape = Shape(format: Format, batch: nat, rows: nat, cols: nat, channels: nat) {
    predicate Positive() { batch > 0 && rows > 0 && cols > 0 && channels > 0 }

    function Size(): nat
    {
      match format
      case NHWC => Size4(batch, rows, cols, channels)
      case NCHW => Size4(batch, channels, rows, cols)
    }

    predicate Has(t: Index4)
    {
      0 <= t.s0 < batch && 0 <= t.s1 < rows && 0 <= t.s2 < cols && 0 <= t.s3 < channels
    }

    function Index(t: Index4): int
    {
      match format
      case NHWC => Flatten4(t.s0, t.s1, t.s2, t.s3, rows, cols, channels)
      case NCHW => Flatten4(t.s0, t.s3, t.s1, t.s2, channels, rows, cols)
    }

    function Coord(n: nat): Index4
      requires Positive()
    {
      match format
      case NHWC => Unflatten4(n, rows, cols, channels)
      case NCHW => var t := Unflatten4(n, channels, rows, cols); Index4(t.s0, t.s2, t.s3, t.s1)
    }

    lemma CoordOfIndex(t: Index4)
      requires Has(t)
      ensures 0 <= Index(t) < Size() && Coord(Index(t)) == t
    {
      match format {
        case NHWC =>
          Flatten4Bound(t.s0, t.s1, t.s2, t.s3, batch, rows, cols, channels);
          UnflattenOfFlatten4(t.s0, t.s1, t.s2, t.s3, rows, cols, channels);
        case NCHW =>
          Flatten4Bound(t.s0, t.s3, t.s1, t.s2, batch, channels, rows, cols);
          UnflattenOfFlatten4(t.s0, t.s3, t.s1, t.s2, channels, rows, cols);
      }
    }

    lemma IndexOfCoord(n: nat)
      requires Positive() && n < Size()
      ensures Has(Coord(n)) && Index(Coord(n)) == n
    {
      match format {
        case NHWC => FlattenOfUnflatten4(n, batch, rows, cols, channels);
        case NCHW => FlattenOfUnflatten4(n, batch, channels, rows, cols);
      }
    }

    /** The size does not depend on the layout. */
    lemma SizeOfLayouts()
      ensures Size() == Size4(batch, rows, cols, channels)
    {
      MulAssoc(batch, channels, rows);
      MulAssoc(Product(batch, rows), channels, cols);
    }
  }

  datatype Params = Params(inRows: nat, inCols: nat, outRows: nat, outCols: nat, winRows: nat, winCols: nat,
                           strideRows: nat, strideCols: nat, batch: nat, channels: nat, padRows: nat, padCols: nat,
                           format: Format) {
    predicate Valid()
    {
      && inRows > 0 && inCols > 0 && outRows > 0 && outCols > 0 && winRows > 0 && winCols > 0
      && strideRows > 0 && strideCols > 0 && batch > 0 && channels > 0
    }

    function In(): Shape { Shape(format, batch, inRows, inCols, channels) }
    function Out(): Shape { Shape(format, batch, outRows, outCols, channels) }

    /** Input row i lies in the window of output row o. */
    predicate Row(o: int, i: int)
    {
      0 <= o < outRows && 0 <= i < inRows && InWindow(o, i, winRows, strideRows, padRows)
    }

    predicate Col(o: int, i: int)
    {
      0 <= o < outCols && 0 <= i < inCols && InWindow(o, i, winCols, strideCols, padCols)
    }

    function RowWindow(o: int): Window { GetOutputWindow(o, inRows, winRows, strideRows, padRows) }
    function ColWindow(o: int): Window { GetOutputWindow(o, inCols, winCols, strideCols, padCols) }
  }

  /** Input element n is in the window of output element k. */
  ghost predicate Covers(p: Params, k: int, n: int)
    requires p.Valid()
  {
    && 0 <= k < p.Out().Size() && 0 <= n < p.In().Size()
    && var o, i := p.Out().Coord(k), p.In().Coord(n);
       o.s0 == i.s0 && o.s3 == i.s3 && p.Row(o.s1, i.s1) && p.Col(o.s2, i.s2)
  }

  /** Theorem: which inputs a window covers, in coordinates and in either layout: those of the same image and channel
      whose position, counted from the start of the padding, is one of the window's. */
  lemma CoversInCoordinates(p: Params, b: int, r: int, c: int, ch: int, b': int, y: int, x: int, ch': int)
    requires p.Valid() && 0 <= b < p.batch && 0 <= r < p.outRows && 0 <= c < p.outCols && 0 <= ch < p.channels
    requires 0 <= b' < p.batch && 0 <= y < p.inRows && 0 <= x < p.inCols && 0 <= ch' < p.channels
    ensures var k, n := if p.format == NHWC then Flatten4(b, r, c, ch, p.outRows, p.outCols, p.channels)
                          else Flatten4(b, ch, r, c, p.channels, p.outRows, p.outCols),
                        if p.format == NHWC then Flatten4(b', y, x, ch', p.inRows, p.inCols, p.channels)
                          else Flatten4(b', ch', y, x, p.channels, p.inRows, p.inCols);
            Covers(p, k, n) <==> b == b' && ch == ch'
                                 && r * p.strideRows <= y + p.padRows < r * p.strideRows + p.winRows
                                 && c * p.strideCols <= x + p.padCols < c * p.strideCols + p.winCols
  {
    p.Out().CoordOfIndex(Index4(b, r, c, ch));
    p.In().CoordOfIndex(Index4(b', y, x, ch'));
  }

  /** The contributions h(n) of the input elements in the window of the output at o. */
  ghost function InputPlane(p: Params, o: Index4, h: int -> real): Grid
  {
    (r, c) => Masked(p.Row(o.s1, r) && p.Col(o.s2, c), h(p.In().Index(Index4(o.s0, r, c, o.s3))))
  }

  /** The contributions h(k) of the output elements whose windows contain the input at i. */
  ghost function OutputPlane(p: Params, i: Index4, h: int -> real): Grid
  {
    (r, c) => Masked(p.Row(r, i.s1) && p.Col(c, i.s2), h(p.Out().Index(Index4(i.s0, r, c, i.s3))))
  }

  /** A sum over a whole tensor to which only one image and one channel contribute. */
  lemma SumOfPlane(s: Shape, b: int, ch: int, f: int -> real, g: Grid)
    requires 0 <= b < s.batch && 0 <= ch < s.channels
    requires forall t: Index4 :: s.Has(t) ==> f(s.Index(t)) == if t.s0 == b && t.s3 == ch then g(t.s1, t.s2) else 0.0
    ensures Sum(s.Size(), f) == Sum2(s.rows, s.cols, g)
  {
    match s.format {
      case NHWC =>
        var h := (i, j, k) => if i == b then g(j, k) else 0.0;
        forall i, j, k, l | 0 <= i < s.batch && 0 <= j < s.rows && 0 <= k < s.cols && 0 <= l < s.channels
          ensures f(Flatten4(i, j, k, l, s.rows, s.cols, s.channels)) == if l == ch then h(i, j, k) else 0.0
        {
          assert s.Has(Index4(i, j, k, l));
        }
        SumFlatten4Last(s.batch, s.rows, s.cols, s.channels, ch, f, h);
        Sum3First(s.batch, s.rows, s.cols, b, h, g);
      case NCHW =>
        var h := (j, k, l) => if j == ch then g(k, l) else 0.0;
        var f4 := (i, j, k, l) => f(Flatten4(i, j, k, l, s.channels, s.rows, s.cols));
        forall i, j, k, l | 0 <= i < s.batch && 0 <= j < s.channels && 0 <= k < s.rows && 0 <= l < s.cols
          ensures f4(i, j, k, l) == if i == b then h(j, k, l) else 0.0
        {
          assert s.Has(Index4(i, k, l, j));
        }
        SumFlatten4(s.batch, s.channels, s.rows, s.cols, f, f4);
        Sum4First(s.batch, s.channels, s.rows, s.cols, b, f4, h);
        Sum3First(s.channels, s.rows, s.cols, ch, h, g);
    }
  }

  lemma Sum4First(a: nat, b: nat, c: nat, d: nat, i0: int, f: (int, int, int, int) -> real, g: (int, int, int) -> real)
    requires 0 <= i0 < a
    requires forall i, j, k, l :: 0 <= i < a && 0 <= j < b && 0 <= k < c && 0 <= l < d ==>
                f(i, j, k, l) == if i == i0 then g(j, k, l) else 0.0
    ensures Sum4(a, b, c, d, f) == Sum3(b, c, d, g)
  {
    var row := (i, j, k) => Sum(d, l => f(i, j, k, l));
    var rowG := (j, k) => Sum(d, l => g(j, k, l));
    forall i, j, k | 0 <= i < a && 0 <= j < b && 0 <= k < c
      ensures row(i, j, k) == if i == i0 then rowG(j, k) else 0.0
    {
      if i == i0 {
        SumExt(d, l => f(i, j, k, l), l => g(j, k, l));
      } else {
        SumZero(d, l => f(i, j, k, l));
      }
    }
    Sum3First(a, b, c, i0, row, rowG);
  }

  lemma CoversInput(p: Params, k: nat, t: Index4)
    requires p.Valid() && k < p.Out().Size() && p.In().Has(t)
    ensures var o := p.Out().Coord(k);
            Covers(p, k, p.In().Index(t)) <==> t.s0 == o.s0 && t.s3 == o.s3 && p.Row(o.s1, t.s1) && p.Col(o.s2, t.s2)
  {
    p.In().CoordOfIndex(t);
  }

  lemma CoveredBy(p: Params, n: nat, t: Index4)
    requires p.Valid() && n < p.In().Size() && p.Out().Has(t)
    ensures var i := p.In().Coord(n);
            Covers(p, p.Out().Index(t), n) <==> t.s0 == i.s0 && t.s3 == i.s3 && p.Row(t.s1, i.s1) && p.Col(t.s2, i.s2)
  {
    p.Out().CoordOfIndex(t);
  }

  lemma InputTerm(p: Params, k: nat, h: int -> real, t: Index4)
    requires p.Valid() && k < p.Out().Size() && p.In().Has(t)
    ensures var o, n := p.Out().Coord(k), p.In().Index(t);
            Masked(Covers(p, k, n), h(n)) ==
              if t.s0 == o.s0 && t.s3 == o.s3 then InputPlane(p, o, h)(t.s1, t.s2) else 0.0
  {
    var o := p.Out().Coord(k);
    CoversInput(p, k, t);
    if t.s0 == o.s0 && t.s3 == o.s3 {
      assert Index4(o.s0, t.s1, t.s2, o.s3) == t;
    }
  }

  lemma OutputTerm(p: Params, n: nat, h: int -> real, t: Index4)
    requires p.Valid() && n < p.In().Size() && p.Out().Has(t)
    ensures var i, k := p.In().Coord(n), p.Out().Index(t);
            Masked(Covers(p, k, n), h(k)) ==
              if t.s0 == i.s0 && t.s3 == i.s3 then OutputPlane(p, i, h)(t.s1, t.s2) else 0.0
  {
    var i := p.In().Coord(n);
    CoveredBy(p, n, t);
    if t.s0 == i.s0 && t.s3 == i.s3 {
      assert Index4(i.s0, t.s1, t.s2, i.s3) == t;
    }
  }

  /** Summing over the inputs that output k covers is summing over its window. */
  lemma SumOverWindow(p: Params, k: nat, h: int -> real)
    requires p.Valid() && k < p.Out().Size()
    ensures Sum(p.In().Size(), n => Masked(Covers(p, k, n), h(n)))
            == Sum2(p.inRows, p.inCols, InputPlane(p, p.Out().Coord(k), h))
  {
    var s, o := p.In(), p.Out().Coord(k);
    p.Out().IndexOfCoord(k);
    var f := n => Masked(Covers(p, k, n), h(n));
    var g := InputPlane(p, o, h);
    forall t: Index4 | s.Has(t)
      ensures f(s.Index(t)) == if t.s0 == o.s0 && t.s3 == o.s3 then g(t.s1, t.s2) else 0.0
    {
      InputTerm(p, k, h, t);
    }
    SumOfPlane(s, o.s0, o.s3, f, g);
  }

  /** Summing over the outputs that cover input n is summing over its input window. */
  lemma SumOverCoverers(p: Params, n: nat, h: int -> real)
    requires p.Valid() && n < p.In().Size()
    ensures Sum(p.Out().Size(), k => Masked(Covers(p, k, n), h(k)))
            == Sum2(p.outRows, p.outCols, OutputPlane(p, p.In().Coord(n), h))
  {
    var s, i := p.Out(), p.In().Coord(n);
    p.In().IndexOfCoord(n);
    var f := k => Masked(Covers(p, k, n), h(k));
    var g := OutputPlane(p, i, h);
    forall t: Index4 | s.Has(t)
      ensures f(s.Index(t)) == if t.s0 == i.s0 && t.s3 == i.s3 then g(t.s1, t.s2) else 0.0
    {
      OutputTerm(p, n, h, t);
    }
    SumOfPlane(s, i.s0, i.s3, f, g);
  }

  /** The number of input elements in the window of output k, and never less than zero. */
  function Count(p: Params, k: nat): nat
    requires p.Valid()
  {
    var o := p.Out().Coord(k);
    Product(Extent(p.RowWindow(o.s1)), Extent(p.ColWindow(o.s2)))
  }

  function Extent(w: Window): nat
  {
    if w.end > w.begin then w.end - w.begin else 0
  }

  ghost function WindowSum(p: Params, x: seq<real>, k: int): real
    requires p.Valid()
  {
    Sum(p.In().Size(), n => Masked(Covers(p, k, n), At(x, n)))
  }

  /** The mean of the window, or `empty` (standing for 0/0) where there is none. */
  ghost function AverageAt(p: Params, x: seq<real>, empty: real, k: nat): real
    requires p.Valid()
  {
    if Count(p, k) == 0 then empty else WindowSum(p, x, k) / Count(p, k) as real
  }

  ghost function AverageForward(p: Params, x: seq<real>, empty: real): (y: seq<real>)
    requires p.Valid()
    ensures |y| == p.Out().Size()
  {
    seq(p.Out().Size(), k requires 0 <= k => AverageAt(p, x, empty, k))
  }

  /** What each element of window k receives of the output's error. */
  ghost function Share(p: Params, e: seq<real>, k: int): real
    requires p.Valid()
  {
    if k < 0 || Count(p, k) == 0 then 0.0 else At(e, k) / Count(p, k) as real
  }

  ghost function AverageGradientAt(p: Params, e: seq<real>, n: int): real
    requires p.Valid()
  {
    Sum(p.Out().Size(), k => Masked(Covers(p, k, n), Share(p, e, k)))
  }

  ghost function AverageGradient(p: Params, e: seq<real>): (g: seq<real>)
    requires p.Valid()
    ensures |g| == p.In().Size()
  {
    seq(p.In().Size(), n requires 0 <= n => AverageGradientAt(p, e, n))
  }

  predicate EveryWindowNonEmpty(p: Params)
    requires p.Valid()
  {
    forall k :: 0 <= k < p.Out().Size() ==> Count(p, k) > 0
  }

  /** Average pooling as a matrix: the weight of input n in output k. */
  ghost function Weight(p: Params, k: int, n: int): real
    requires p.Valid()
  {
    if k < 0 || Count(p, k) == 0 then 0.0 else Masked(Covers(p, k, n), 1.0 / Count(p, k) as real)
  }

  /** Average pooling multiplies by the weights. */
  lemma AverageIsMatVec(p: Params, x: seq<real>, empty: real, k: nat, w: Weights)
    requires p.Valid() && Count(p, k) > 0 && |x| == p.In().Size()
    requires forall n :: w(k, n) == Weight(p, k, n)
    ensures AverageAt(p, x, empty, k) == MatVec(w, |x|, x, k)
  {
    var on, v, row := n => Covers(p, k, n), n => At(x, n), n => Times(w(k, n), At(x, n));
    MaskedMean(|x|, on, Count(p, k) as real, v, row);
    SumExt(|x|, n => Masked(on(n), v(n)), n => Masked(Covers(p, k, n), At(x, n)));
  }

  /** The gradient kernel multiplies by the transpose. */
  lemma GradientIsVecMat(p: Params, e: seq<real>, n: nat, w: Weights)
    requires p.Valid() && |e| == p.Out().Size()
    requires forall k :: w(k, n) == Weight(p, k, n)
    ensures AverageGradientAt(p, e, n) == VecMat(w, |e|, e, n)
  {
    var f, g := k => Masked(Covers(p, k, n), Share(p, e, k)), k => Times(w(k, n), At(e, k));
    forall k | 0 <= k < |e|
      ensures f(k) == g(k)
    {
      if Count(p, k) > 0 {
        Reciprocal(Covers(p, k, n), Count(p, k) as real, At(e, k));
      }
    }
    SumExt(|e|, f, g);
  }

  /** Theorem: the average-pool gradient is the adjoint of average pooling. */
  lemma AverageAdjoint(p: Params, x: seq<real>, e: seq<real>, empty: real)
    requires p.Valid() && EveryWindowNonEmpty(p)
    requires |x| == p.In().Size() && |e| == p.Out().Size()
    ensures Dot(AverageForward(p, x, empty), e) == Dot(x, AverageGradient(p, e))
  {
    var w := (k, n) => Weight(p, k, n);
    forall k: nat | k < |e|
      ensures AverageAt(p, x, empty, k) == MatVec(w, |x|, x, k)
    {
      AverageIsMatVec(p, x, empty, k, w);
    }
    forall n: nat | n < |x|
      ensures AverageGradientAt(p, e, n) == VecMat(w, |e|, e, n)
    {
      GradientIsVecMat(p, e, n, w);
    }
    TransposeIsAdjoint(w, x, e, AverageForward(p, x, empty), AverageGradient(p, e));
  }

  lemma {:induction false} SumRange(n: nat, w: Window, f: int -> real)
    requires w.begin >= 0
    requires forall i :: 0 <= i < n ==> f(i) == Masked(w.Contains(i), 1.0)
    ensures Sum(n, f) == Extent(Window(w.begin, if w.end < n then w.end else n)) as real
  {
    if n > 0 {
      SumRange(n - 1, w, f);
    }
  }

  lemma RowIffWindow(p: Params, o: int, i: nat)
    requires p.Valid() && 0 <= o < p.outRows
    ensures p.Row(o, i) <==> p.RowWindow(o).Contains(i)
  {
  }

  lemma ColIffWindow(p: Params, o: int, i: nat)
    requires p.Valid() && 0 <= o < p.outCols
    ensures p.Col(o, i) <==> p.ColWindow(o).Contains(i)
  {
  }

  /** The product of the two window sizes counts the elements of the window. */
  lemma CountCounts(p: Params, k: nat)
    requires p.Valid() && k < p.Out().Size()
    ensures Sum(p.In().Size(), n => Masked(Covers(p, k, n), 1.0)) == Count(p, k) as real
  {
    var o := p.Out().Coord(k);
    p.Out().IndexOfCoord(k);
    var one := (n: int) => 1.0;
    SumOverWindow(p, k, one);
    SumExt(p.In().Size(), n => Masked(Covers(p, k, n), 1.0), n => Masked(Covers(p, k, n), one(n)));
    SumOverPlane(p, o, one);
  }

  /** Theorem: the average times the number of inputs in the window is their sum. */
  lemma AverageValue(p: Params, x: seq<real>, empty: real, k: nat, number: real, total: real)
    requires p.Valid() && k < p.Out().Size()
    requires number == Sum(p.In().Size(), n => if Covers(p, k, n) then 1.0 else 0.0)
    requires total == Sum(p.In().Size(), n => if Covers(p, k, n) then At(x, n) else 0.0)
    ensures if number > 0.0 then Times(AverageForward(p, x, empty)[k], number) == total
            else number == 0.0 && AverageForward(p, x, empty)[k] == empty
  {
    CountCounts(p, k);
    SumExt(p.In().Size(), n => Masked(Covers(p, k, n), 1.0), n => if Covers(p, k, n) then 1.0 else 0.0);
    SumExt(p.In().Size(), n => Masked(Covers(p, k, n), At(x, n)), n => if Covers(p, k, n) then At(x, n) else 0.0);
    MeanOf(total, Count(p, k), empty);
  }

  lemma MeanOf(total: real, n: nat, empty: real)
    ensures var mean := if n == 0 then empty else total / n as real;
            if n as real > 0.0 then Times(mean, n as real) == total else n as real == 0.0 && mean == empty
  {
  }

  /** The elements of a window are the pairs of a row and a column of it. */
  lemma SumOverPlane(p: Params, o: Index4, one: int -> real)
    requires p.Valid() && p.Out().Has(o) && forall n :: one(n) == 1.0
    ensures Sum2(p.inRows, p.inCols, InputPlane(p, o, one))
            == Product(Extent(p.RowWindow(o.s1)), Extent(p.ColWindow(o.s2))) as real
  {
    var rows, cols := r => p.Row(o.s1, r), c => p.Col(o.s2, c);
    RowExtent(p, o.s1, r => Masked(rows(r), 1.0));
    ColExtent(p, o.s2, c => Masked(cols(c), 1.0));
    MaskedPairs(p.inRows, p.inCols, rows, cols, Extent(p.RowWindow(o.s1)), Extent(p.ColWindow(o.s2)),
                InputPlane(p, o, one));
  }

  lemma RowExtent(p: Params, o: int, f: int -> real)
    requires p.Valid() && 0 <= o < p.outRows && forall r :: f(r) == Masked(p.Row(o, r), 1.0)
    ensures Sum(p.inRows, f) == Extent(p.RowWindow(o)) as real
  {
    forall r | 0 <= r < p.inRows
      ensures f(r) == Masked(p.RowWindow(o).Contains(r), 1.0)
    {
      RowIffWindow(p, o, r);
    }
    SumRange(p.inRows, p.RowWindow(o), f);
  }

  lemma ColExtent(p: Params, o: int, f: int -> real)
    requires p.Valid() && 0 <= o < p.outCols && forall c :: f(c) == Masked(p.Col(o, c), 1.0)
    ensures Sum(p.inCols, f) == Extent(p.ColWindow(o)) as real
  {
    forall c | 0 <= c < p.inCols
      ensures f(c) == Masked(p.ColWindow(o).Contains(c), 1.0)
    {
      ColIffWindow(p, o, c);
    }
    SumRange(p.inCols, p.ColWindow(o), f);
  }

  lemma WeightsAddUp(p: Params, k: nat, w: Weights)
    requires p.Valid() && k < p.Out().Size() && Count(p, k) > 0
    requires forall n :: w(k, n) == Weight(p, k, n)
    ensures RowTotal(w, p.In().Size(), k) == 1.0
  {
    var on, row := n => Covers(p, k, n), n => w(k, n);
    CountCounts(p, k);
    SumExt(p.In().Size(), n => Masked(on(n), 1.0), n => Masked(Covers(p, k, n), 1.0));
    MaskedOnes(p.In().Size(), on, Count(p, k) as real, row);
  }

  lemma NoWeightWhenEmpty(p: Params, k: nat, w: Weights)
    requires p.Valid() && Count(p, k) == 0
    requires forall n :: w(k, n) == Weight(p, k, n)
    ensures RowTotal(w, p.In().Size(), k) == 0.0
  {
    SumZero(p.In().Size(), n => w(k, n));
  }

  /** The total error of the outputs whose windows are not empty. */
  ghost function Delivered(p: Params, e: seq<real>): real
    requires p.Valid()
  {
    Sum(|e|, k => Masked(k >= 0 && Count(p, k) > 0, At(e, k)))
  }

  /** Theorem: the average-pool gradient hands on exactly the errors of the non-empty windows. */
  lemma AverageGradientDelivers(p: Params, e: seq<real>)
    requires p.Valid() && |e| == p.Out().Size()
    ensures Total(AverageGradient(p, e)) == Delivered(p, e)
  {
    var w, delivered := (k, n) => Weight(p, k, n), k => Masked(k >= 0 && Count(p, k) > 0, At(e, k));
    forall k | 0 <= k < |e|
      ensures delivered(k) == Times(RowTotal(w, p.In().Size(), k), At(e, k))
    {
      if Count(p, k) > 0 {
        WeightsAddUp(p, k, w);
      } else {
        NoWeightWhenEmpty(p, k, w);
      }
    }
    forall n: nat | n < p.In().Size()
      ensures AverageGradientAt(p, e, n) == VecMat(w, |e|, e, n)
    {
      GradientIsVecMat(p, e, n, w);
    }
    TransposeTotal(w, p.In().Size(), e, AverageGradient(p, e), delivered);
  }

  /** What a caller can check before the launch for no window to be empty. */
  predicate WindowsReachInput(p: Params)
  {
    && p.padRows < p.winRows && (p.outRows - 1) * p.strideRows - p.padRows < p.inRows
    && p.padCols < p.winCols && (p.outCols - 1) * p.strideCols - p.padCols < p.inCols
  }

  lemma CountPositive(p: Params, k: nat)
    requires p.Valid()
    ensures var o := p.Out().Coord(k);
            Count(p, k) > 0 <==> NonEmpty(o.s1, p.inRows, p.winRows, p.strideRows, p.padRows)
                                 && NonEmpty(o.s2, p.inCols, p.winCols, p.strideCols, p.padCols)
  {
  }

  lemma NoEmptyWindow(p: Params)
    requires p.Valid()
    ensures EveryWindowNonEmpty(p) <==> WindowsReachInput(p)
  {
    AllWindowsNonEmpty(p.inRows, p.outRows, p.winRows, p.strideRows, p.padRows);
    AllWindowsNonEmpty(p.inCols, p.outCols, p.winCols, p.strideCols, p.padCols);
    if WindowsReachInput(p) {
      forall k | 0 <= k < p.Out().Size()
        ensures Count(p, k) > 0
      {
        p.Out().IndexOfCoord(k);
        CountPositive(p, k);
      }
    }
    if EveryWindowNonEmpty(p) {
      forall o | 0 <= o < p.outRows
        ensures NonEmpty(o, p.inRows, p.winRows, p.strideRows, p.padRows)
      {
        OutputAt(p, Index4(0, o, 0, 0));
      }
      forall o | 0 <= o < p.outCols
        ensures NonEmpty(o, p.inCols, p.winCols, p.strideCols, p.padCols)
      {
        OutputAt(p, Index4(0, 0, o, 0));
      }
    }
  }

  lemma OutputAt(p: Params, t: Index4)
    requires p.Valid() && EveryWindowNonEmpty(p) && p.Out().Has(t)
    ensures NonEmpty(t.s1, p.inRows, p.winRows, p.strideRows, p.padRows)
    ensures NonEmpty(t.s2, p.inCols, p.winCols, p.strideCols, p.padCols)
  {
    p.Out().CoordOfIndex(t);
    CountPositive(p, p.Out().Index(t));
  }

  /** Every error is handed on, whatever the errors are, exactly when no window is empty. */
  lemma AllDelivered(p: Params)
    requires p.Valid()
    ensures (forall e: seq<real> :: |e| == p.Out().Size() ==> Delivered(p, e) == Total(e)) <==> WindowsReachInput(p)
  {
    NoEmptyWindow(p);
    if WindowsReachInput(p) {
      forall e: seq<real> | |e| == p.Out().Size()
        ensures Delivered(p, e) == Total(e)
      {
        SumExt(|e|, k => Masked(k >= 0 && Count(p, k) > 0, At(e, k)), k => At(e, k));
      }
    } else {
      var k :| 0 <= k < p.Out().Size() && Count(p, k) == 0;
      var e := seq(p.Out().Size(), i => if i == k then 1.0 else 0.0);
      SumDelta(|e|, k, i => At(e, i));
      SumZero(|e|, i => Masked(i >= 0 && Count(p, i) > 0, At(e, i)));
      assert Delivered(p, e) != Total(e);
    }
  }

  /** Theorem: the average-pool gradient conserves mass exactly when no window is empty. */
  lemma AverageGradientConserves(p: Params)
    requires p.Valid()
    ensures (forall e: seq<real> :: |e| == p.Out().Size() ==> Total(AverageGradient(p, e)) == Total(e))
            <==> WindowsReachInput(p)
  {
    forall e: seq<real> | |e| == p.Out().Size()
      ensures Total(AverageGradient(p, e)) == Delivered(p, e)
    {
      AverageGradientDelivers(p, e);
    }
    AllDelivered(p);
  }
}
