/** The accumulators of the forward kernel. Each holds one vector of values. */
module PoolingOperators {
  import opened Adjoints
  import opened VectorIO

  class Max {
    var max: seq<real>

    /** `lowest` is the least value of the element type. */
    constructor (lowest: real, v: nat)
      ensures max == Splat(lowest, v)
    {
      max := Splat(lowest, v);
    }

    method Accumulate(val: seq<real>)
      requires |val| == |max|
      modifies this
      ensures |max| == |val|
      ensures forall l :: 0 <= l < |val| ==>
                max[l] >= val[l] && max[l] >= old(max)[l] && (max[l] == val[l] || max[l] == old(max)[l])
    {
      var before := max;
      max := seq(|val|, l requires 0 <= l < |val| && |val| == |before| =>
                          if val[l] > before[l] then val[l] else before[l]);
    }
  }

  class Average {
    var tally: nat
    var sum: seq<real>

    constructor (v: nat)
      ensures tally == 0 && sum == Splat(0.0, v)
    {
      tally, sum := 0, Splat(0.0, v);
    }

    method Accumulate(val: seq<real>)
      requires |val| == |sum|
      modifies this
      ensures tally == old(tally) + 1
      ensures |sum| == |val| && forall l :: 0 <= l < |val| ==> sum[l] == old(sum)[l] + val[l]
    {
      var before := sum;
      tally := tally + 1;
      sum := seq(|val|, l requires 0 <= l < |val| && |val| == |before| => before[l] + val[l]);
    }

    /** The mean of the accumulated values; `empty` stands for the 0/0 of an empty accumulation. */
    function Value(empty: real): (mean: seq<real>)
      reads this
      ensures |mean| == |sum|
      ensures forall l :: 0 <= l < |sum| ==>
              if tally == 0 then mean[l] == empty else Times(mean[l], tally as real) == sum[l]
    {
      seq(|sum|, l requires 0 <= l < |sum| reads this => if tally == 0 then empty else sum[l] / tally as real)
    }
  }
}
