/** How pooling work-items find their coordinates: vector widths, and division by multiply and shift. */
module PoolingItems {
  import opened Arithmetic
  import opened FastDivision
  import opened TensorIndex
  import opened Pooling
  import opened VectorIO

  /** Vectors hold consecutive channels, so only the channels-last layout has wide ones. */
  predicate SupportsWidth(s: Shape, v: nat)
  {
    v > 0 && s.channels % v == 0 && (s.format == NCHW ==> v == 1)
  }

  predicate CanVectorize(s: Shape, v: nat)
    requires v > 0
  {
    s.format == NHWC && s.channels % v == 0
  }

  function ChosenWidth(s: Shape): (v: nat)
    ensures SupportsWidth(s, v)
    ensures forall u :: (u == 2 || u == 4) && CanVectorize(s, u) ==> u <= v
  {
    if CanVectorize(s, 4) then 4 else if CanVectorize(s, 2) then 2 else 1
  }

  /** FastDiv cannot divide by one. */
  predicate CanUseFastDiv(s: Shape, v: nat)
    requires v > 0
  {
    !(s.channels / v == 1 || s.rows == 1 || s.cols == 1)
  }

  lemma FactorAtMostProduct(a: nat, b: nat)
    ensures b > 0 ==> a <= Product(a, b)
    ensures a > 0 ==> b <= Product(a, b)
  {
  }

  lemma DimensionsAtMostSize(s: Shape)
    requires s.Positive()
    ensures s.rows <= s.Size() && s.cols <= s.Size() && s.channels <= s.Size()
  {
    s.SizeOfLayouts();
    FactorAtMostProduct(s.batch, s.rows);
    FactorAtMostProduct(Product(s.batch, s.rows), s.cols);
    FactorAtMostProduct(Product(Product(s.batch, s.rows), s.cols), s.channels);
  }

  lemma VectorsPositive(channels: nat, v: nat)
    requires channels > 0 && v > 0 && channels % v == 0
    ensures 0 < channels / v <= channels
  {
    QuotientShrinks(channels, v);
  }

  /** Whenever the launcher picks the fast variant, every divisor is one that FastDiv supports. */
  lemma FastDivisorsSupported(s: Shape, v: nat, w: nat)
    requires s.Positive() && SupportsWidth(s, v) && CanUseFastDiv(s, v) && w >= 1 && s.Size() < Pow2(w - 1)
    ensures 1 < s.rows < Pow2(w - 1) && 1 < s.cols < Pow2(w - 1) && 1 < s.channels / v < Pow2(w - 1)
  {
    DimensionsAtMostSize(s);
    VectorsPositive(s.channels, v);
  }

  /** The coordinates of lane l of the vector whose first element is at t. */
  function Lane(t: Index4, l: int): Index4
  {
    t.(s3 := t.s3 + l)
  }

  /** t is the first element of vector `index`. */
  ghost predicate IsVector(s: Shape, v: nat, index: nat, t: Index4)
    requires s.Positive()
  {
    forall l :: 0 <= l < v ==> IsLane(s, index * v + l, Lane(t, l))
  }

  /** Element k is the one at t. */
  ghost predicate IsLane(s: Shape, k: int, t: Index4)
    requires s.Positive()
  {
    0 <= k < s.Size() && s.Has(t) && s.Coord(k) == t
  }

  /** A work-item's coordinates, by multiply-and-shift division where that is possible. */
  method Decode(s: Shape, v: nat, w: nat, index: nat) returns (t: Index4)
    requires s.Positive() && SupportsWidth(s, v) && index < s.Size() / v && w >= 3 && s.Size() < Pow2(w - 1)
    ensures IsVector(s, v, index, t)
  {
    QuotientShrinks(s.Size(), v);
    VectorsPositive(s.channels, v);
    var s1, s2, s3 := s.rows, s.cols, s.channels / v;
    if s.format == NCHW {
      s1, s2, s3 := s.channels, s.rows, s.cols;
    }
    if CanUseFastDiv(s, v) {
      FastDivisorsSupported(s, v, w);
      var div1 := new FastDiv(w, s1);
      var div2 := new FastDiv(w, s2);
      var div3 := new FastDiv(w, s3);
      t := UnflattenFast4(index, div1, s1, div2, s2, div3, s3);
    } else {
      t := Unflatten4(index, s1, s2, s3);
    }
    DecodedIsVector(s, v, index);
    match s.format {
      case NHWC => t := t.(s3 := t.s3 * v);
      case NCHW => t := Index4(t.s0, t.s2, t.s3, t.s1);
    }
  }

  lemma DecodedIsVector(s: Shape, v: nat, index: nat)
    requires s.Positive() && SupportsWidth(s, v) && index < s.Size() / v
    ensures s.channels / v > 0
    ensures IsVector(s, v, index, match s.format
                                  case NHWC => DecodedVector(s, v, index)
                                  case NCHW => s.Coord(index))
  {
    VectorsPositive(s.channels, v);
    match s.format {
      case NHWC =>
        forall l | 0 <= l < v
          ensures IsLane(s, index * v + l, Lane(DecodedVector(s, v, index), l))
        {
          DecodedLane(s, v, index, l);
        }
      case NCHW => s.IndexOfCoord(index);
    }
  }

  /** The first lane of a vector of channels. */
  function DecodedVector(s: Shape, v: nat, index: nat): Index4
    requires s.Positive() && v > 0 && s.channels / v > 0
  {
    var t := Unflatten4(index, s.rows, s.cols, s.channels / v);
    t.(s3 := t.s3 * v)
  }

  lemma DecodedLane(s: Shape, v: nat, index: nat, l: nat)
    requires s.Positive() && SupportsWidth(s, v) && index < s.Size() / v && s.channels / v > 0
    requires s.format == NHWC && l < v
    ensures IsLane(s, index * v + l, Lane(DecodedVector(s, v, index), l))
  {
    LaneOfItem(index, v, l, s.batch, s.rows, s.cols, s.channels);
    ProductSign(index, v);
  }

  lemma LanesConsecutive(s: Shape, v: nat, t: Index4)
    requires SupportsWidth(s, v) && forall l :: 0 <= l < v ==> s.Has(Lane(t, l))
    ensures 0 <= s.Index(t) && s.Index(t) + v <= s.Size()
    ensures forall l :: 0 <= l < v ==> s.Index(Lane(t, l)) == s.Index(t) + l
  {
    assert Lane(t, 0) == t;
    s.CoordOfIndex(Lane(t, 0));
    s.CoordOfIndex(Lane(t, v - 1));
  }

  lemma SizeInVectors(s: Shape, v: nat)
    requires s.Positive() && SupportsWidth(s, v)
    ensures s.Size() == (s.Size() / v) * v
  {
    if s.format == NHWC {
      WholeVectors(Product(Product(s.batch, s.rows), s.cols), s.channels, v);
    }
  }

  /** The lanes of a work-item are the elements it owns. */
  lemma ItemOwns(s: Shape, v: nat, index: nat)
    requires s.Positive() && SupportsWidth(s, v) && index < s.Size() / v
    ensures 0 <= index * v && index * v + v <= s.Size()
  {
    SizeInVectors(s, v);
    ProductSign(index, v);
    MulMono(index + 1, s.Size() / v, v);
    MulDist(v, index, 1);
  }

  /** In any schedule every element's owner runs. */
  lemma OwnerRuns(s: Shape, v: nat, order: seq<nat>, k: nat)
    requires s.Positive() && SupportsWidth(s, v) && k < s.Size() && IsSchedule(order, s.Size() / v)
    ensures exists i :: 0 <= i < |order| && Owns(order[i], v, k)
  {
    SizeInVectors(s, v);
    QuotientBelow(k, v, s.Size() / v);
    OwnerScheduled(order, s.Size() / v, v, k);
  }
}
