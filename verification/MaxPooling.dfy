/** Max pooling and its gradient: each output's error goes to the first maximum of its window. */
module MaxPooling {
  import opened Arithmetic
  import opened Sums
  import opened Adjoints
  import opened TensorIndex
  import opened Pooling

  /** v is the maximum of the window of output k. */
  ghost predicate IsWindowMax(p: Params, x: seq<real>, k: int, v: real)
    requires p.Valid()
  {
    && (exists n :: Covers(p, k, n) && At(x, n) == v)
    && (forall n :: Covers(p, k, n) ==> At(x, n) <= v)
  }

  /** Position (r, c) comes before (r', c') in row-major order. */
  predicate Before(r: int, c: int, r': int, c': int)
  {
    r < r' || (r == r' && c < c')
  }

  /** Input position (r, c) is in the window of the output at o. */
  predicate InPool(p: Params, o: Index4, r: int, c: int)
  {
    p.Row(o.s1, r) && p.Col(o.s2, c)
  }

  ghost function Val(p: Params, x: seq<real>, o: Index4, r: int, c: int): real
  {
    At(x, p.In().Index(Index4(o.s0, r, c, o.s3)))
  }

  /** Element (r, c) of the window of the output at o equals v. */
  ghost predicate Hit(p: Params, x: seq<real>, o: Index4, v: real, r: int, c: int)
  {
    InPool(p, o, r, c) && Val(p, x, o, r, c) == v
  }

  /** No element of the window before (r, c) equals v. */
  ghost predicate NoHitBefore(p: Params, x: seq<real>, o: Index4, v: real, r: int, c: int)
  {
    forall r', c' :: Before(r', c', r, c) ==> !Hit(p, x, o, v, r', c')
  }

  /** Input n holds the first element of window k that equals the output: it receives the error. */
  ghost predicate Winner(p: Params, x: seq<real>, y: seq<real>, k: int, n: int)
    requires p.Valid()
  {
    && Covers(p, k, n) && At(x, n) == At(y, k)
    && NoHitBefore(p, x, p.Out().Coord(k), At(y, k), p.In().Coord(n).s1, p.In().Coord(n).s2)
  }

  ghost function MaxGradientAt(p: Params, x: seq<real>, y: seq<real>, e: seq<real>, n: int): real
    requires p.Valid()
  {
    Sum(p.Out().Size(), k => Masked(Winner(p, x, y, k, n), At(e, k)))
  }

  ghost function MaxGradient(p: Params, x: seq<real>, y: seq<real>, e: seq<real>): (g: seq<real>)
    requires p.Valid()
    ensures |g| == p.In().Size()
  {
    seq(p.In().Size(), n requires 0 <= n => MaxGradientAt(p, x, y, e, n))
  }

  lemma {:induction false} FirstHit(p: Params, x: seq<real>, o: Index4, v: real, r: nat, c: nat)
    returns (r': nat, c': nat)
    requires Hit(p, x, o, v, r, c)
    ensures Hit(p, x, o, v, r', c') && NoHitBefore(p, x, o, v, r', c')
    decreases r, c
  {
    if r1, c1 :| Before(r1, c1, r, c) && Hit(p, x, o, v, r1, c1) {
      r', c' := FirstHit(p, x, o, v, r1, c1);
    } else {
      r', c' := r, c;
    }
  }

  lemma WinnerIsFirstHit(p: Params, x: seq<real>, y: seq<real>, k: nat, n: nat)
    requires p.Valid() && k < p.Out().Size() && n < p.In().Size()
    ensures var o, i := p.Out().Coord(k), p.In().Coord(n);
            Winner(p, x, y, k, n) <==> o.s0 == i.s0 && o.s3 == i.s3 && Hit(p, x, o, At(y, k), i.s1, i.s2)
                                       && NoHitBefore(p, x, o, At(y, k), i.s1, i.s2)
  {
    p.In().IndexOfCoord(n);
  }

  /** Within one image and channel, row-major order is the order of flat indices, in either layout. */
  lemma FlatOrder(s: Shape, t: Index4, u: Index4)
    requires s.Has(t) && s.Has(u) && t.s0 == u.s0 && t.s3 == u.s3
    ensures s.Index(t) < s.Index(u) <==> Before(t.s1, t.s2, u.s1, u.s2)
  {
    PairOrder(t.s1, t.s2, u.s1, u.s2, s.cols);
    match s.format {
      case NHWC =>
        PlaneOrder(t.s1 * s.cols + t.s2, u.s1 * s.cols + u.s2, t.s0 * s.rows * s.cols, s.channels, t.s3);
        PlaneStart(t.s0, t.s1, u.s1, s.rows, s.cols);
      case NCHW =>
        PlaneStart(t.s0 * s.channels + t.s3, t.s1, u.s1, s.rows, s.cols);
    }
  }

  lemma PlaneStart(b: int, r: int, r': int, rows: nat, cols: nat)
    ensures (b * rows + r) * cols == b * rows * cols + r * cols && (b * rows + r') * cols == b * rows * cols + r' * cols
  {
  }

  lemma PlaneOrder(a: int, a': int, base: int, n: nat, d: int)
    requires n > 0
    ensures (base + a) * n + d < (base + a') * n + d <==> a < a'
  {
    if a < a' {
      MulMono(base + a + 1, base + a', n);
      MulDist(n, base + a, 1);
    } else {
      MulMono(base + a', base + a, n);
    }
  }

  lemma PairOrder(r: int, c: int, r': int, c': int, cols: nat)
    requires 0 <= c < cols && 0 <= c' < cols
    ensures r * cols + c < r' * cols + c' <==> Before(r, c, r', c')
  {
    if r < r' {
      MulMono(r + 1, r', cols);
      MulDist(cols, r, 1);
    } else if r > r' {
      MulMono(r' + 1, r, cols);
      MulDist(cols, r', 1);
    }
  }

  /** Theorem: the winner of a window is the covered input of least index that equals the output. */
  lemma WinnerIsFirst(p: Params, x: seq<real>, y: seq<real>, k: nat, n: nat)
    requires p.Valid() && k < p.Out().Size() && n < p.In().Size()
    ensures Winner(p, x, y, k, n) <==>
            Covers(p, k, n) && At(x, n) == At(y, k) && forall n' :: 0 <= n' < n && Covers(p, k, n') ==>
              At(x, n') != At(y, k)
  {
    var s, o, i := p.In(), p.Out().Coord(k), p.In().Coord(n);
    s.IndexOfCoord(n);
    if Covers(p, k, n) && Winner(p, x, y, k, n) {
      forall n' | 0 <= n' < n && Covers(p, k, n')
        ensures At(x, n') != At(y, k)
      {
        var i' := s.Coord(n');
        s.IndexOfCoord(n');
        FlatOrder(s, i', i);
        assert Before(i'.s1, i'.s2, i.s1, i.s2) && !Hit(p, x, o, At(y, k), i'.s1, i'.s2);
        assert Index4(o.s0, i'.s1, i'.s2, o.s3) == i';
      }
    } else if Covers(p, k, n) && At(x, n) == At(y, k) {
      var r, c :| Before(r, c, i.s1, i.s2) && Hit(p, x, o, At(y, k), r, c);
      var t := Index4(o.s0, r, c, o.s3);
      p.Out().IndexOfCoord(k);
      s.CoordOfIndex(t);
      FlatOrder(s, t, i);
      assert Covers(p, k, s.Index(t));
    }
  }

  lemma WinnerUnique(p: Params, x: seq<real>, y: seq<real>, k: nat, n: nat, n': nat)
    requires p.Valid() && Winner(p, x, y, k, n) && Winner(p, x, y, k, n')
    ensures n == n'
  {
    WinnerIsFirstHit(p, x, y, k, n);
    WinnerIsFirstHit(p, x, y, k, n');
    p.In().IndexOfCoord(n);
    p.In().IndexOfCoord(n');
    var i, i' := p.In().Coord(n), p.In().Coord(n');
    assert !Before(i.s1, i.s2, i'.s1, i'.s2) && !Before(i'.s1, i'.s2, i.s1, i.s2);
    assert i == i';
  }

  /** Every window whose maximum is known has a winner. */
  lemma WinnerExists(p: Params, x: seq<real>, y: seq<real>, k: nat) returns (n: nat)
    requires p.Valid() && k < p.Out().Size() && IsWindowMax(p, x, k, At(y, k))
    ensures Winner(p, x, y, k, n)
  {
    var m :| Covers(p, k, m) && At(x, m) == At(y, k);
    var o, i := p.Out().Coord(k), p.In().Coord(m);
    p.Out().IndexOfCoord(k);
    p.In().IndexOfCoord(m);
    var r, c := FirstHit(p, x, o, At(y, k), i.s1, i.s2);
    var t := Index4(o.s0, r, c, o.s3);
    p.In().CoordOfIndex(t);
    n := p.In().Index(t);
    WinnerIsFirstHit(p, x, y, k, n);
  }

  /** Max pooling as a matrix, with a one for the winner of each window. */
  ghost function Selects(p: Params, x: seq<real>, y: seq<real>): Weights
    requires p.Valid()
  {
    (k, n) => Masked(Winner(p, x, y, k, n), 1.0)
  }

  /** y is the result of pooling x, wherever there is anything to pool. */
  ghost predicate IsPooled(p: Params, x: seq<real>, y: seq<real>)
    requires p.Valid()
  {
    && |x| == p.In().Size() && |y| == p.Out().Size()
    && forall k: nat :: k < |y| && Count(p, k) > 0 ==> IsWindowMax(p, x, k, y[k])
  }

  /** Exactly one input is selected by output k, and it holds the output's value. */
  lemma RowOfWinner(p: Params, x: seq<real>, y: seq<real>, k: nat)
    requires p.Valid() && IsPooled(p, x, y) && k < |y| && Count(p, k) > 0
    ensures RowTotal(Selects(p, x, y), |x|, k) == 1.0
    ensures MatVec(Selects(p, x, y), |x|, x, k) == y[k]
  {
    var n := WinnerExists(p, x, y, k);
    var w := Selects(p, x, y);
    forall m | 0 <= m < |x|
      ensures w(k, m) == if m == n then 1.0 else 0.0
    {
      if Winner(p, x, y, k, m) {
        WinnerUnique(p, x, y, k, n, m);
      }
    }
    OneSelected(|x|, m => w(k, m), m => At(x, m), n);
    SumExt(|x|, m => Times(w(k, m), At(x, m)), m => Times((m => w(k, m))(m), (m => At(x, m))(m)));
  }

  lemma CoveredIsNotEmpty(p: Params, k: nat, n: nat)
    requires p.Valid() && Covers(p, k, n)
    ensures Count(p, k) > 0
  {
  }

  /** An empty window selects nothing. */
  lemma RowOfEmptyWindow(p: Params, x: seq<real>, y: seq<real>, k: nat)
    requires p.Valid() && |x| == p.In().Size() && Count(p, k) == 0
    ensures RowTotal(Selects(p, x, y), |x|, k) == 0.0
  {
    var w := Selects(p, x, y);
    forall n | 0 <= n < |x|
      ensures w(k, n) == 0.0
    {
      if Winner(p, x, y, k, n) {
        CoveredIsNotEmpty(p, k, n);
      }
    }
    SumZero(|x|, n => w(k, n));
  }

  lemma MaxGradientIsVecMat(p: Params, x: seq<real>, y: seq<real>, e: seq<real>, n: nat)
    requires p.Valid() && |e| == p.Out().Size()
    ensures MaxGradientAt(p, x, y, e, n) == VecMat(Selects(p, x, y), |e|, e, n)
  {
    var w := Selects(p, x, y);
    var f, g := k => Masked(Winner(p, x, y, k, n), At(e, k)), k => Times(w(k, n), At(e, k));
    forall k | 0 <= k < |e|
      ensures f(k) == g(k)
    {
      MaskedUnit(Winner(p, x, y, k, n), At(e, k));
    }
    SumExt(|e|, f, g);
  }

  /** Theorem: the errors that arrive are those of the non-empty windows, each exactly once. */
  lemma MaxGradientDelivers(p: Params, x: seq<real>, y: seq<real>, e: seq<real>)
    requires p.Valid() && IsPooled(p, x, y) && |e| == |y|
    ensures Total(MaxGradient(p, x, y, e)) == Delivered(p, e)
  {
    var w, delivered := Selects(p, x, y), k => Masked(k >= 0 && Count(p, k) > 0, At(e, k));
    forall k | 0 <= k < |e|
      ensures delivered(k) == Times(RowTotal(w, |x|, k), At(e, k))
    {
      if Count(p, k) > 0 {
        RowOfWinner(p, x, y, k);
      } else {
        RowOfEmptyWindow(p, x, y, k);
      }
    }
    forall n: nat | n < |x|
      ensures MaxGradientAt(p, x, y, e, n) == VecMat(w, |e|, e, n)
    {
      MaxGradientIsVecMat(p, x, y, e, n);
    }
    TransposeTotal(w, |x|, e, MaxGradient(p, x, y, e), delivered);
  }

  /** Theorem: the max-pool gradient conserves mass exactly when no window is empty. */
  lemma MaxGradientConserves(p: Params, x: seq<real>, y: seq<real>)
    requires p.Valid() && IsPooled(p, x, y)
    ensures (forall e: seq<real> :: |e| == |y| ==> Total(MaxGradient(p, x, y, e)) == Total(e)) <==> WindowsReachInput(p)
  {
    forall e: seq<real> | |e| == |y|
      ensures Total(MaxGradient(p, x, y, e)) == Delivered(p, e)
    {
      MaxGradientDelivers(p, x, y, e);
    }
    AllDelivered(p);
  }

  /** Theorem: the gradient pairs with the input as the error does with the output. */
  lemma MaxGradientIsDual(p: Params, x: seq<real>, y: seq<real>, e: seq<real>)
    requires p.Valid() && WindowsReachInput(p) && IsPooled(p, x, y) && |e| == |y|
    ensures Dot(y, e) == Dot(x, MaxGradient(p, x, y, e))
  {
    NoEmptyWindow(p);
    var w := Selects(p, x, y);
    forall k: nat | k < |e|
      ensures y[k] == MatVec(w, |x|, x, k)
    {
      RowOfWinner(p, x, y, k);
    }
    forall n: nat | n < |x|
      ensures MaxGradientAt(p, x, y, e, n) == VecMat(w, |e|, e, n)
    {
      MaxGradientIsVecMat(p, x, y, e, n);
    }
    TransposeIsAdjoint(w, x, e, y, MaxGradient(p, x, y, e));
  }

  /** m is what accumulating window k from `lowest` yields. */
  ghost predicate PooledTo(p: Params, x: seq<real>, lowest: real, k: int, m: real)
    requires p.Valid()
  {
    && m >= lowest && (m == lowest || exists n :: Covers(p, k, n) && At(x, n) == m)
    && (forall n :: Covers(p, k, n) ==> At(x, n) <= m)
  }

  lemma NonEmptyCovers(p: Params, k: nat) returns (n: nat)
    requires p.Valid() && k < p.Out().Size() && Count(p, k) > 0
    ensures Covers(p, k, n)
  {
    var o := p.Out().Coord(k);
    p.Out().IndexOfCoord(k);
    var r, c := p.RowWindow(o.s1).begin, p.ColWindow(o.s2).begin;
    ProductSign(Extent(p.RowWindow(o.s1)), Extent(p.ColWindow(o.s2)));
    CountPositive(p, k);
    RowIffWindow(p, o.s1, r);
    ColIffWindow(p, o.s2, c);
    var t := Index4(o.s0, r, c, o.s3);
    p.In().CoordOfIndex(t);
    n := p.In().Index(t);
  }

  /** Accumulating from the least value gives the maximum of a non-empty window, and the least value
      itself for an empty one. */
  lemma PooledIsMax(p: Params, x: seq<real>, lowest: real, k: nat, m: real)
    requires p.Valid() && k < p.Out().Size() && |x| == p.In().Size() && PooledTo(p, x, lowest, k, m)
    requires forall n :: 0 <= n < |x| ==> x[n] >= lowest
    ensures if Count(p, k) > 0 then IsWindowMax(p, x, k, m) else m == lowest
  {
    if Count(p, k) > 0 {
      var n := NonEmptyCovers(p, k);
      assert At(x, n) <= m && x[n] >= lowest;
    } else if m != lowest {
      var n :| Covers(p, k, n) && At(x, n) == m;
      CoveredIsNotEmpty(p, k, n);
    }
  }
}
