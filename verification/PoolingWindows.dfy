/** One-dimensional pooling windows, seen from the output and from the input. */
module PoolingWindows {
  import opened Arithmetic

  /** Indices begin, ..., end-1 (none when end <= begin). */
  datatype Window = Window(begin: int, end: int) {
    predicate Contains(i: int) { begin <= i < end }
  }

  /** Input position i lies under the window of output o, padding included. */
  predicate InWindow(o: int, i: int, windowSize: int, stride: int, pad: int)
  {
    o * stride - pad <= i < o * stride - pad + windowSize
  }

  /** The outputs whose windows contain the (padded) input index idx. */
  function GetInputWindow(idx: nat, maxIdx: nat, windowSize: nat, stride: nat): Window
    requires stride > 0
  {
    var begin := if idx < windowSize then 0 else (idx - windowSize) / stride + 1;
    var end := if idx / stride + 1 < maxIdx then idx / stride + 1 else maxIdx;
    Window(begin, end)
  }

  /** The inputs in the window of output idx. */
  function GetOutputWindow(idx: int, maxIdx: nat, windowSize: nat, stride: nat, pad: nat): Window
  {
    var start := idx * stride - pad;
    var end := if start + windowSize < maxIdx then start + windowSize else maxIdx;
    Window(if start > 0 then start else 0, end)
  }

  function GetActualWindowSize(idx: int, maxIdx: nat, windowSize: nat, stride: nat, pad: nat): (size: int)
    ensures var w := GetOutputWindow(idx, maxIdx, windowSize, stride, pad); size == w.end - w.begin
  {
    var start := idx * stride - pad;
    var end := if start + windowSize < maxIdx then start + windowSize else maxIdx;
    end - (if start > 0 then start else 0)
  }

  lemma AtMostQuotient(o: int, x: int, stride: nat)
    requires stride > 0
    ensures o <= x / stride <==> o * stride <= x
  {
    if o <= x / stride {
      MulMono(o, x / stride, stride);
    } else {
      MulMono(x / stride + 1, o, stride);
      MulDist(stride, x / stride, 1);
    }
  }

  /** Duality: output o is in the input window of i exactly when i is in the output window of o. */
  lemma WindowsAreDual(o: int, i: nat, maxIn: nat, maxOut: nat, windowSize: nat, stride: nat, pad: nat)
    requires stride > 0
    ensures GetInputWindow(i + pad, maxOut, windowSize, stride).Contains(o)
            <==> 0 <= o < maxOut && InWindow(o, i, windowSize, stride, pad)
    ensures GetOutputWindow(o, maxIn, windowSize, stride, pad).Contains(i)
            <==> i < maxIn && InWindow(o, i, windowSize, stride, pad)
  {
    var idx := i + pad;
    AtMostQuotient(o, idx, stride);
    AtMostQuotient(o, idx - windowSize, stride);
    if idx >= windowSize {
      QuotientNonNegative(idx - windowSize, stride);
    } else if o >= 0 {
      MulMono(0, o, stride);
    }
  }

  predicate NonEmpty(o: int, maxIn: nat, windowSize: nat, stride: nat, pad: nat)
  {
    GetActualWindowSize(o, maxIn, windowSize, stride, pad) > 0
  }

  /** No window is empty exactly when the first reaches into the input and the last starts inside it. */
  lemma AllWindowsNonEmpty(maxIn: nat, maxOut: nat, windowSize: nat, stride: nat, pad: nat)
    requires maxIn > 0 && maxOut > 0 && windowSize > 0
    ensures (forall o :: 0 <= o < maxOut ==> NonEmpty(o, maxIn, windowSize, stride, pad))
            <==> pad < windowSize && (maxOut - 1) * stride - pad < maxIn
  {
    assert NonEmpty(0, maxIn, windowSize, stride, pad) <==> pad < windowSize;
    if pad < windowSize && (maxOut - 1) * stride - pad < maxIn {
      forall o | 0 <= o < maxOut
        ensures NonEmpty(o, maxIn, windowSize, stride, pad)
      {
        MulMono(o, maxOut - 1, stride);
        MulMono(0, o, stride);
      }
    } else if pad < windowSize {
      assert !NonEmpty(maxOut - 1, maxIn, windowSize, stride, pad);
    }
  }
}
