/** Depthwise convolution as a relation between flat output, input and filter indices, and the three
    linear maps it defines. The kernels are proved against this relation in the modules that follow. */
module DepthwiseConv {
  import opened Adjoints
  import opened Arithmetic
  import opened Sums
  import opened TensorIndex

  datatype Params = Params(
    channels: nat, multiplier: nat, batch: nat,
    inRows: nat, inCols: nat, winRows: nat, winCols: nat,
    strideRows: nat, strideCols: nat, outRows: nat, outCols: nat,
    padRows: int, padCols: int)
  {
    /** What the public launch function validates. */
    predicate Valid() {
      && channels > 0 && multiplier > 0 && batch > 0
      && inRows > 0 && inCols > 0 && winRows > 0 && winCols > 0
      && strideRows > 0 && strideCols > 0 && outRows > 0 && outCols > 0
      && padRows >= 0 && padCols >= 0
    }

    function Features(): (r: nat)
      ensures channels > 0 && multiplier > 0 ==> r > 0
    {
      Product(channels, multiplier)
    }

    function InSize(): nat { Size4(batch, inRows, inCols, channels) }
    function OutSize(): nat { Size4(batch, outRows, outCols, Features()) }
    function FilSize(): nat { Product(Product(winRows, winCols), Features()) }

    function InIndex(b: int, row: int, col: int, channel: int): int {
      Flatten4(b, row, col, channel, inRows, inCols, channels)
    }
    function OutIndex(b: int, row: int, col: int, feature: int): int {
      Flatten4(b, row, col, feature, outRows, outCols, Features())
    }
    function FilIndex(i: int, j: int, feature: int): int {
      Flatten3(i, j, feature, winCols, Features())
    }

    /** Input row (column) read by an output row (column) through a filter row (column). */
    function InRow(row: int, i: int): int { row * strideRows - padRows + i }
    function InCol(col: int, j: int): int { col * strideCols - padCols + j }
  }

  /** Vector widths other than one need one multiple per channel and whole vectors of channels. */
  predicate SupportsWidth(p: Params, v: nat)
  {
    v == 1 || (v > 1 && p.multiplier == 1 && p.channels % v == 0)
  }

  predicate CanVectorize(p: Params, v: nat)
    requires v > 0
  {
    p.multiplier == 1 && (p.channels * p.multiplier) % v == 0
  }

  /** The vector width the launcher picks. */
  function ChosenWidth(p: Params): (v: nat)
    ensures SupportsWidth(p, v)
    ensures forall u :: (u == 2 || u == 4) && CanVectorize(p, u) ==> u <= v
  {
    if CanVectorize(p, 4) then 4 else if CanVectorize(p, 2) then 2 else 1
  }

  /** The parameters as the kernel of each direction receives them. */
  function InputBackpropParams(p: Params): Params
  {
    p.(padRows := p.winRows - p.padRows - 1, padCols := p.winCols - p.padCols - 1)
  }

  function FilterBackpropParams(p: Params): Params
  {
    p.(outRows := p.winRows, winRows := p.outRows, outCols := p.winCols, winCols := p.outCols)
  }

  /** Both rewritings undo themselves. */
  lemma ParamsRestored(p: Params)
    ensures InputBackpropParams(InputBackpropParams(p)) == p
    ensures FilterBackpropParams(FilterBackpropParams(p)) == p && FilterBackpropParams(p).outRows == p.winRows
  {
  }

  /** Output element k uses input element n through filter element f. */
  predicate Tap(p: Params, k: nat, n: nat, f: nat)
    requires p.Valid()
  {
    var o := Unflatten4(k, p.outRows, p.outCols, p.Features());
    var i := Unflatten4(n, p.inRows, p.inCols, p.channels);
    var w := Unflatten3(f, p.winCols, p.Features());
    && i.s0 == o.s0
    && i.s1 == p.InRow(o.s1, w.s0)
    && i.s2 == p.InCol(o.s2, w.s1)
    && i.s3 == o.s3 / p.multiplier
    && w.s2 == o.s3
  }

  ghost function Taps(p: Params): Relation
    requires p.Valid()
  {
    (k: int, n: int, f: int) => k >= 0 && n >= 0 && f >= 0 && Tap(p, k, n, f)
  }

  /** Theorem: which elements are tied, in coordinates: same image, same feature of output and filter, the channel
      the feature was made from, and input and output positions that differ by the filter position once the padding
      has been added in front of the input. */
  lemma TapInCoordinates(p: Params, b: int, r: int, c: int, q: int, b': int, y: int, x: int, ch: int,
                         i: int, j: int, q': int)
    requires p.Valid() && 0 <= b < p.batch && 0 <= b' < p.batch
    requires 0 <= r < p.outRows && 0 <= c < p.outCols && 0 <= q < p.channels * p.multiplier
    requires 0 <= y < p.inRows && 0 <= x < p.inCols && 0 <= ch < p.channels
    requires 0 <= i < p.winRows && 0 <= j < p.winCols && 0 <= q' < p.channels * p.multiplier
    ensures Taps(p)(Flatten4(b, r, c, q, p.outRows, p.outCols, p.channels * p.multiplier),
                    Flatten4(b', y, x, ch, p.inRows, p.inCols, p.channels),
                    Flatten3(i, j, q', p.winCols, p.channels * p.multiplier))
            <==> b == b' && q == q' && ch == q / p.multiplier
                 && y + p.padRows == r * p.strideRows + i && x + p.padCols == c * p.strideCols + j
  {
    UnflattenOfFlatten4(b, r, c, q, p.outRows, p.outCols, p.Features());
    UnflattenOfFlatten4(b', y, x, ch, p.inRows, p.inCols, p.channels);
    UnflattenOfFlatten3(i, j, q', p.winCols, p.Features());
  }

  ghost function Forward(p: Params, x: seq<real>, w: seq<real>): seq<real>
    requires p.Valid()
  {
    seq(p.OutSize(), k => MapFirst(Taps(p), p.InSize(), p.FilSize(), x, w, k))
  }

  ghost function InputBackprop(p: Params, e: seq<real>, w: seq<real>): seq<real>
    requires p.Valid()
  {
    seq(p.InSize(), n => MapSecond(Taps(p), p.OutSize(), p.FilSize(), e, w, n))
  }

  ghost function FilterBackprop(p: Params, x: seq<real>, e: seq<real>): seq<real>
    requires p.Valid()
  {
    seq(p.FilSize(), f => MapThird(Taps(p), p.OutSize(), p.InSize(), e, x, f))
  }

  /** Theorem: the three maps are mutual adjoints, for any sizes, strides and padding. */
  lemma Adjoint(p: Params, x: seq<real>, w: seq<real>, e: seq<real>)
    requires p.Valid()
    requires |x| == p.InSize() && |w| == p.FilSize() && |e| == p.OutSize()
    ensures Dot(e, Forward(p, x, w)) == Dot(x, InputBackprop(p, e, w)) == Dot(w, FilterBackprop(p, x, e))
  {
    FirstDot(Taps(p), e, x, w, Forward(p, x, w));
    SecondDot(Taps(p), e, x, w, InputBackprop(p, e, w));
    ThirdDot(Taps(p), e, x, w, FilterBackprop(p, x, e));
  }

  /** The input element, if there is one, that output coordinates o read through filter position (i, j). */
  function InputOf(p: Params, o: Index4, i: int, j: int): int
    requires p.Valid()
  {
    var row, col := p.InRow(o.s1, i), p.InCol(o.s2, j);
    if 0 <= row < p.inRows && 0 <= col < p.inCols then p.InIndex(o.s0, row, col, o.s3 / p.multiplier) else -1
  }

  lemma ChannelOfFeature(p: Params, feature: int)
    requires p.Valid() && 0 <= feature < p.Features()
    ensures 0 <= feature / p.multiplier < p.channels
    ensures feature == (feature / p.multiplier) * p.multiplier + feature % p.multiplier
  {
    SplitBound(feature, p.channels, p.multiplier);
  }

  lemma LaneChannel(p: Params, v: nat, feature: int, l: nat)
    requires p.Valid() && SupportsWidth(p, v) && l < v
    requires 0 <= feature && feature + v <= p.Features()
    ensures (feature + l) / p.multiplier == feature / p.multiplier + l
    ensures 0 <= feature / p.multiplier && feature / p.multiplier + l < p.channels
  {
    ChannelOfFeature(p, feature + l);
    ChannelOfFeature(p, feature);
  }

  lemma InputOfBound(p: Params, o: Index4, i: int, j: int)
    requires p.Valid() && 0 <= o.s0 < p.batch && 0 <= o.s3 < p.Features()
    ensures InputOf(p, o, i, j) < p.InSize()
    ensures InputOf(p, o, i, j) >= 0 <==> 0 <= p.InRow(o.s1, i) < p.inRows && 0 <= p.InCol(o.s2, j) < p.inCols
  {
    ChannelOfFeature(p, o.s3);
    var row, col := p.InRow(o.s1, i), p.InCol(o.s2, j);
    if 0 <= row < p.inRows && 0 <= col < p.inCols {
      Flatten4Bound(o.s0, row, col, o.s3 / p.multiplier, p.batch, p.inRows, p.inCols, p.channels);
    }
  }

  /** Given an output and a filter element, the relation determines the input element. */
  lemma TapSelectsInput(p: Params, k: nat, n: nat, f: nat)
    requires p.Valid() && k < p.OutSize() && n < p.InSize() && f < p.FilSize()
    ensures var o := Unflatten4(k, p.outRows, p.outCols, p.Features());
            var w := Unflatten3(f, p.winCols, p.Features());
            Tap(p, k, n, f) <==> w.s2 == o.s3 && n == InputOf(p, o, w.s0, w.s1)
  {
    var o := Unflatten4(k, p.outRows, p.outCols, p.Features());
    var w := Unflatten3(f, p.winCols, p.Features());
    var row, col := p.InRow(o.s1, w.s0), p.InCol(o.s2, w.s1);
    FlattenOfUnflatten4(k, p.batch, p.outRows, p.outCols, p.Features());
    FlattenOfUnflatten4(n, p.batch, p.inRows, p.inCols, p.channels);
    ChannelOfFeature(p, o.s3);
    if 0 <= row < p.inRows && 0 <= col < p.inCols {
      UnflattenOfFlatten4(o.s0, row, col, o.s3 / p.multiplier, p.inRows, p.inCols, p.channels);
    }
  }

  /** The input element that output coordinates o read through filter element f, or -1. */
  function InputSelected(p: Params, o: Index4, f: int): int
    requires p.Valid()
  {
    if f < 0 then -1
    else
      var w := Unflatten3(f, p.winCols, p.Features());
      if w.s2 == o.s3 then InputOf(p, o, w.s0, w.s1) else -1
  }

  lemma TapsSelectInput(p: Params, k: nat, n: int, f: int)
    requires p.Valid() && k < p.OutSize() && 0 <= n < p.InSize() && 0 <= f < p.FilSize()
    ensures var s := InputSelected(p, Unflatten4(k, p.outRows, p.outCols, p.Features()), f);
            Taps(p)(k, n, f) <==> n == s
  {
    TapSelectsInput(p, k, n, f);
  }

  lemma InputSelectedBound(p: Params, k: nat, f: int)
    requires p.Valid() && k < p.OutSize() && 0 <= f < p.FilSize()
    ensures InputSelected(p, Unflatten4(k, p.outRows, p.outCols, p.Features()), f) < p.InSize()
  {
    var o := Unflatten4(k, p.outRows, p.outCols, p.Features());
    var w := Unflatten3(f, p.winCols, p.Features());
    FlattenOfUnflatten4(k, p.batch, p.outRows, p.outCols, p.Features());
    InputOfBound(p, o, w.s0, w.s1);
  }

  /** One step of the forward loop nest: the product read through filter position (i, j). */
  ghost function ForwardTap(p: Params, x: seq<real>, w: seq<real>, o: Index4, i: int, j: int): real
    requires p.Valid()
  {
    SelectedTerm(x, w, InputOf(p, o, i, j), p.FilIndex(i, j, o.s3))
  }

  lemma ForwardTermAt(p: Params, x: seq<real>, w: seq<real>, o: Index4, i: int, j: int, feature: int)
    requires p.Valid()
    requires 0 <= i < p.winRows && 0 <= j < p.winCols && 0 <= feature < p.Features()
    ensures SelectedTerm(x, w, InputSelected(p, o, p.FilIndex(i, j, feature)), p.FilIndex(i, j, feature)) ==
            if feature == o.s3 then ForwardTap(p, x, w, o, i, j) else 0.0
  {
    UnflattenOfFlatten3(i, j, feature, p.winCols, p.Features());
  }

  lemma ForwardSelected(p: Params, x: seq<real>, w: seq<real>, k: nat, o: Index4)
    requires p.Valid() && k < p.OutSize()
    requires o == Unflatten4(k, p.outRows, p.outCols, p.Features())
    ensures MapFirst(Taps(p), p.InSize(), p.FilSize(), x, w, k) ==
            Sum(p.FilSize(), f => SelectedTerm(x, w, InputSelected(p, o, f), f))
  {
    var sel := f => InputSelected(p, o, f);
    var nf, nx := p.FilSize(), p.InSize();
    var t := Taps(p);
    forall f | 0 <= f < nf
      ensures sel(f) < nx
    {
      InputSelectedBound(p, k, f);
    }
    forall n, f | 0 <= n < nx && 0 <= f < nf
      ensures t(k, n, f) <==> n == sel(f)
    {
      TapsSelectInput(p, k, n, f);
    }
    FirstSelectsSecond(t, nx, nf, x, w, k, sel);
    SumExt(nf, f => SelectedTerm(x, w, sel(f), f), f => SelectedTerm(x, w, InputSelected(p, o, f), f));
  }

  /** The loop nest over filter rows and columns visits exactly the taps of one output element. */
  lemma ForwardLoops(p: Params, x: seq<real>, w: seq<real>, k: nat, o: Index4)
    requires p.Valid() && k < p.OutSize()
    requires o == Unflatten4(k, p.outRows, p.outCols, p.Features())
    ensures Forward(p, x, w)[k] == Sum2(p.winRows, p.winCols, (i, j) => ForwardTap(p, x, w, o, i, j))
  {
    var h := f => SelectedTerm(x, w, InputSelected(p, o, f), f);
    var tap := (i, j) => ForwardTap(p, x, w, o, i, j);
    ForwardSelected(p, x, w, k, o);
    FlattenOfUnflatten4(k, p.batch, p.outRows, p.outCols, p.Features());
    forall i, j, q | 0 <= i < p.winRows && 0 <= j < p.winCols && 0 <= q < p.Features()
      ensures h(Flatten3(i, j, q, p.winCols, p.Features())) == if q == o.s3 then tap(i, j) else 0.0
    {
      ForwardTermAt(p, x, w, o, i, j, q);
    }
    SumFlatten3Last(p.winRows, p.winCols, p.Features(), o.s3, h, tap);
  }

  /** The term of filter position (i, j) in the textbook convolution: where the window sticks out of the input,
      the input counts as zero. */
  lemma ForwardTapValue(p: Params, x: seq<real>, w: seq<real>, b: nat, r: nat, c: nat, q: nat, i: nat, j: nat)
    requires p.Valid() && b < p.batch && q < p.channels * p.multiplier
    ensures var y, z := r * p.strideRows + i - p.padRows, c * p.strideCols + j - p.padCols;
            ForwardTap(p, x, w, Index4(b, r, c, q), i, j) ==
            if 0 <= y < p.inRows && 0 <= z < p.inCols
            then At(x, Flatten4(b, y, z, q / p.multiplier, p.inRows, p.inCols, p.channels))
                 * At(w, Flatten3(i, j, q, p.winCols, p.channels * p.multiplier))
            else 0.0
  {
    InputOfBound(p, Index4(b, r, c, q), i, j);
  }

  /** The filter element, if there is one, that ties input coordinates v to output (row, col, feature). */
  function FilterOf(p: Params, v: Index4, row: int, col: int, feature: int): int
    requires p.Valid()
  {
    var i, j := v.s1 - p.InRow(row, 0), v.s2 - p.InCol(col, 0);
    if 0 <= i < p.winRows && 0 <= j < p.winCols then p.FilIndex(i, j, feature) else -1
  }

  function FilterSelected(p: Params, v: Index4, k: int): int
    requires p.Valid()
  {
    if k < 0 then -1
    else
      var o := Unflatten4(k, p.outRows, p.outCols, p.Features());
      if o.s0 == v.s0 && o.s3 / p.multiplier == v.s3 then FilterOf(p, v, o.s1, o.s2, o.s3) else -1
  }

  /** Given an output and an input element, the relation determines the filter element. */
  lemma TapSelectsFilter(p: Params, k: int, n: nat, f: int)
    requires p.Valid() && 0 <= k < p.OutSize() && n < p.InSize() && 0 <= f < p.FilSize()
    ensures var s := FilterSelected(p, Unflatten4(n, p.inRows, p.inCols, p.channels), k);
            Taps(p)(k, n, f) <==> f == s
  {
    var o := Unflatten4(k, p.outRows, p.outCols, p.Features());
    var v := Unflatten4(n, p.inRows, p.inCols, p.channels);
    FlattenOfUnflatten4(k, p.batch, p.outRows, p.outCols, p.Features());
    FlattenOfUnflatten3(f, p.winRows, p.winCols, p.Features());
    var i, j := v.s1 - p.InRow(o.s1, 0), v.s2 - p.InCol(o.s2, 0);
    if 0 <= i < p.winRows && 0 <= j < p.winCols {
      UnflattenOfFlatten3(i, j, o.s3, p.winCols, p.Features());
    }
  }

  lemma FilterSelectedBound(p: Params, k: int, v: Index4)
    requires p.Valid() && 0 <= k < p.OutSize()
    ensures FilterSelected(p, v, k) < p.FilSize()
  {
    var o := Unflatten4(k, p.outRows, p.outCols, p.Features());
    FlattenOfUnflatten4(k, p.batch, p.outRows, p.outCols, p.Features());
    var i, j := v.s1 - p.InRow(o.s1, 0), v.s2 - p.InCol(o.s2, 0);
    if 0 <= i < p.winRows && 0 <= j < p.winCols {
      Flatten3Bound(i, j, o.s3, p.winRows, p.winCols, p.Features());
    }
  }

  lemma InputBackpropSelected(p: Params, e: seq<real>, w: seq<real>, n: nat, v: Index4)
    requires p.Valid() && n < p.InSize()
    requires v == Unflatten4(n, p.inRows, p.inCols, p.channels)
    ensures MapSecond(Taps(p), p.OutSize(), p.FilSize(), e, w, n) ==
            Sum(p.OutSize(), k => SelectedTerm(w, e, FilterSelected(p, v, k), k))
  {
    var sel := k => FilterSelected(p, v, k);
    var no, nf := p.OutSize(), p.FilSize();
    var t := Taps(p);
    forall k | 0 <= k < no
      ensures sel(k) < nf
    {
      FilterSelectedBound(p, k, v);
    }
    forall k, f | 0 <= k < no && 0 <= f < nf
      ensures t(k, n, f) <==> f == sel(k)
    {
      TapSelectsFilter(p, k, n, f);
    }
    SecondSelectsThird(t, no, nf, e, w, n, sel);
    SumExt(no, k => SelectedTerm(w, e, sel(k), k), k => SelectedTerm(w, e, FilterSelected(p, v, k), k));
  }

  /** One step of the input-backprop loop nest. */
  ghost function InputTap(p: Params, e: seq<real>, w: seq<real>, v: Index4, row: int, col: int, multiple: int): real
    requires p.Valid()
  {
    var feature := v.s3 * p.multiplier + multiple;
    SelectedTerm(w, e, FilterOf(p, v, row, col, feature), p.OutIndex(v.s0, row, col, feature))
  }

  lemma InputTermAt(p: Params, e: seq<real>, w: seq<real>, v: Index4, b: int, row: int, col: int, feature: int)
    requires p.Valid() && 0 <= b < p.batch
    requires 0 <= row < p.outRows && 0 <= col < p.outCols && 0 <= feature < p.Features()
    ensures var k := Flatten4(b, row, col, feature, p.outRows, p.outCols, p.Features());
            SelectedTerm(w, e, FilterSelected(p, v, k), k) ==
            if b == v.s0 && feature / p.multiplier == v.s3 then InputTap(p, e, w, v, row, col, feature % p.multiplier)
              else 0.0
  {
    UnflattenOfFlatten4(b, row, col, feature, p.outRows, p.outCols, p.Features());
    ChannelOfFeature(p, feature);
  }

  /** The loop nest over output rows, columns and multiples visits exactly the taps of one input element. */
  lemma InputBackpropLoops(p: Params, e: seq<real>, w: seq<real>, n: nat, v: Index4)
    requires p.Valid() && n < p.InSize()
    requires v == Unflatten4(n, p.inRows, p.inCols, p.channels)
    ensures InputBackprop(p, e, w)[n] ==
            Sum3(p.outRows, p.outCols, p.multiplier, (row, col, m) => InputTap(p, e, w, v, row, col, m))
  {
    var h := k => SelectedTerm(w, e, FilterSelected(p, v, k), k);
    var tap := (row, col, m) => InputTap(p, e, w, v, row, col, m);
    InputBackpropSelected(p, e, w, n, v);
    FlattenOfUnflatten4(n, p.batch, p.inRows, p.inCols, p.channels);
    forall b, row, col, q | 0 <= b < p.batch && 0 <= row < p.outRows && 0 <= col < p.outCols && 0 <= q < p.Features()
      ensures h(Flatten4(b, row, col, q, p.outRows, p.outCols, p.Features())) ==
              if b == v.s0 && q / p.multiplier == v.s3 then tap(row, col, q % p.multiplier) else 0.0
    {
      InputTermAt(p, e, w, v, b, row, col, q);
    }
    SumFlatten4Block(p.batch, p.outRows, p.outCols, p.channels, p.multiplier, v.s0, v.s3, h, tap);
  }

  /** The term of output (r, c) and multiple m in the textbook input gradient. */
  lemma InputTapValue(p: Params, e: seq<real>, w: seq<real>, b: nat, y: nat, x: nat, ch: nat, r: nat, c: nat, m: nat)
    requires p.Valid() && ch < p.channels && m < p.multiplier
    ensures var i, j := y + p.padRows - r * p.strideRows, x + p.padCols - c * p.strideCols;
            var q := ch * p.multiplier + m;
            InputTap(p, e, w, Index4(b, y, x, ch), r, c, m) ==
            if 0 <= i < p.winRows && 0 <= j < p.winCols
            then At(e, Flatten4(b, r, c, q, p.outRows, p.outCols, p.channels * p.multiplier))
                 * At(w, Flatten3(i, j, q, p.winCols, p.channels * p.multiplier))
            else 0.0
  {
    var i, j := y + p.padRows - r * p.strideRows, x + p.padCols - c * p.strideCols;
    PairBound(ch, p.channels, m, p.multiplier);
    if 0 <= i < p.winRows && 0 <= j < p.winCols {
      Flatten3Bound(i, j, ch * p.multiplier + m, p.winRows, p.winCols, p.Features());
    }
  }

  /** The input element that output element k reads through filter coordinates c, or -1. */
  function ThirdSelected(p: Params, c: Index3, k: int): int
    requires p.Valid()
  {
    if k < 0 then -1
    else
      var o := Unflatten4(k, p.outRows, p.outCols, p.Features());
      if c.s2 == o.s3 then InputOf(p, o, c.s0, c.s1) else -1
  }

  lemma FilterBackpropSelected(p: Params, x: seq<real>, e: seq<real>, f: nat, c: Index3)
    requires p.Valid() && f < p.FilSize()
    requires c == Unflatten3(f, p.winCols, p.Features())
    ensures MapThird(Taps(p), p.OutSize(), p.InSize(), e, x, f) ==
            Sum(p.OutSize(), k => SelectedTerm(x, e, ThirdSelected(p, c, k), k))
  {
    var sel := k => ThirdSelected(p, c, k);
    var no, nx := p.OutSize(), p.InSize();
    var t := Taps(p);
    forall k | 0 <= k < no
      ensures sel(k) < nx
    {
      InputSelectedBound(p, k, f);
    }
    forall k, n | 0 <= k < no && 0 <= n < nx
      ensures t(k, n, f) <==> n == sel(k)
    {
      TapsSelectInput(p, k, n, f);
    }
    ThirdSelectsSecond(t, no, nx, e, x, f, sel);
    SumExt(no, k => SelectedTerm(x, e, sel(k), k), k => SelectedTerm(x, e, ThirdSelected(p, c, k), k));
  }

  /** One step of the filter-backprop loop nest. */
  ghost function FilterTap(p: Params, x: seq<real>, e: seq<real>, c: Index3, b: int, row: int, col: int): real
    requires p.Valid()
  {
    SelectedTerm(x, e, InputOf(p, Index4(b, row, col, c.s2), c.s0, c.s1), p.OutIndex(b, row, col, c.s2))
  }

  /** The term of image b and output (r, c) in the textbook filter gradient. */
  lemma FilterTapValue(p: Params, x: seq<real>, e: seq<real>, i: nat, j: nat, q: nat, b: nat, r: nat, c: nat)
    requires p.Valid() && b < p.batch && q < p.channels * p.multiplier
    ensures var y, z := r * p.strideRows + i - p.padRows, c * p.strideCols + j - p.padCols;
            FilterTap(p, x, e, Index3(i, j, q), b, r, c) ==
            if 0 <= y < p.inRows && 0 <= z < p.inCols
            then At(x, Flatten4(b, y, z, q / p.multiplier, p.inRows, p.inCols, p.channels))
                 * At(e, Flatten4(b, r, c, q, p.outRows, p.outCols, p.channels * p.multiplier))
            else 0.0
  {
    InputOfBound(p, Index4(b, r, c, q), i, j);
  }

  lemma FilterTermAt(p: Params, x: seq<real>, e: seq<real>, c: Index3, b: int, row: int, col: int, feature: int)
    requires p.Valid() && 0 <= b
    requires 0 <= row < p.outRows && 0 <= col < p.outCols && 0 <= feature < p.Features()
    ensures var k := Flatten4(b, row, col, feature, p.outRows, p.outCols, p.Features());
            SelectedTerm(x, e, ThirdSelected(p, c, k), k) ==
            if feature == c.s2 then FilterTap(p, x, e, c, b, row, col) else 0.0
  {
    UnflattenOfFlatten4(b, row, col, feature, p.outRows, p.outCols, p.Features());
  }

  /** The loop nest over batch, output rows and columns visits exactly the taps of one filter element. */
  lemma FilterBackpropLoops(p: Params, x: seq<real>, e: seq<real>, f: nat, c: Index3)
    requires p.Valid() && f < p.FilSize()
    requires c == Unflatten3(f, p.winCols, p.Features())
    ensures FilterBackprop(p, x, e)[f] ==
            Sum3(p.batch, p.outRows, p.outCols, (b, row, col) => FilterTap(p, x, e, c, b, row, col))
  {
    var h := k => SelectedTerm(x, e, ThirdSelected(p, c, k), k);
    var tap := (b, row, col) => FilterTap(p, x, e, c, b, row, col);
    FilterBackpropSelected(p, x, e, f, c);
    FlattenOfUnflatten3(f, p.winRows, p.winCols, p.Features());
    forall b, row, col, q | 0 <= b < p.batch && 0 <= row < p.outRows && 0 <= col < p.outCols && 0 <= q < p.Features()
      ensures h(Flatten4(b, row, col, q, p.outRows, p.outCols, p.Features())) ==
              if q == c.s2 then tap(b, row, col) else 0.0
    {
      FilterTermAt(p, x, e, c, b, row, col, q);
    }
    SumFlatten4Last(p.batch, p.outRows, p.outCols, p.Features(), c.s2, h, tap);
  }
}
