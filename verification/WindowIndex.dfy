/** Rounded ratios, and the windows that relate an output index to input indices and back. */
module WindowIndex {
  import opened Arithmetic

  /** The ratio rounded up, or zero for a negative numerator. */
  function RoundRatioUpAboveZero(num: int, div: int): (r: int)
    requires div > 0
    ensures r >= 0
    ensures r * div >= num
    ensures r > 0 ==> (r - 1) * div < num
  {
    if num < 0 then 0 else if num % div != 0 then num / div + 1 else num / div
  }

  /** The ratio rounded toward positive infinity. (The original's division truncates toward zero, which
      already rounds a negative ratio up.) */
  function RoundRatioUp(num: int, div: int): (r: int)
    requires div > 0
    ensures (r - 1) * div < num <= r * div
  {
    if num < 0 then -((-num) / div) else num / div + if num % div == 0 then 0 else 1
  }

  function RoundUpToNearestMultiple(val: int, multiplier: int): (r: int)
    requires val >= 0 && multiplier > 0
    ensures val <= r < val + multiplier && r % multiplier == 0
  {
    MultipleAbove(val, multiplier);
    var diff := val % multiplier;
    if diff > 0 then val + (multiplier - diff) else val
  }

  datatype WindowIndices = WindowIndices(windowStart: int, filterStart: int)

  function InWindowFromOutput(index: int, stride: int, pad: int): WindowIndices
  {
    WindowIndices(index * stride - pad, 0)
  }

  /** The first output whose window covers an input, and the filter element it uses; neither is
      ever negative, and the output before it (if any) is out of reach. */
  function OutWindowFromInput(index: int, stride: int, pad: int): (r: WindowIndices)
    requires stride > 0
    ensures r.windowStart >= 0 && r.filterStart >= 0
    ensures r.filterStart == r.windowStart * stride - (index - pad)
    ensures r.windowStart > 0 ==> r.filterStart < stride
  {
    var padded := index - pad;
    var windowStart := RoundRatioUpAboveZero(padded, stride);
    var filterStart := windowStart * stride - padded;
    WindowIndices(windowStart, filterStart)
  }
}
