/** Running statistics of a sequence of samples. */
module Statistic {
  import opened Adjoints
  import opened Sums

  ghost function SumOf(s: seq<real>): real
  {
    if s == [] then 0.0 else SumOf(s[..|s| - 1]) + s[|s| - 1]
  }

  function Square(x: real): real
  {
    x * x
  }

  ghost function SquaredDeviations(s: seq<real>, mean: real): real
  {
    if s == [] then 0.0 else SquaredDeviations(s[..|s| - 1], mean) + Square(s[|s| - 1] - mean)
  }

  lemma {:induction false} SumOfSamples(s: seq<real>)
    ensures SumOf(s) == Sum(|s|, i => At(s, i))
  {
    if s != [] {
      var t := s[..|s| - 1];
      SumOfSamples(t);
      SumExt(|t|, i => At(t, i), i => At(s, i));
    }
  }

  lemma {:induction false} SquaresOfSamples(s: seq<real>, mean: real)
    ensures SquaredDeviations(s, mean) == Sum(|s|, i => (At(s, i) - mean) * (At(s, i) - mean))
  {
    if s != [] {
      var t, f := s[..|s| - 1], i => (At(s, i) - mean) * (At(s, i) - mean);
      SquaresOfSamples(t, mean);
      SumExt(|t|, i => (At(t, i) - mean) * (At(t, i) - mean), f);
    }
  }

  datatype Moments = Moments(mean: real, varianceMultiple: real)

  /** The recurrence for one more sample, the n-th. */
  function Next(m: Moments, n: nat, sample: real): Moments
    requires n > 0
  {
    if n == 1 then Moments(sample, m.varianceMultiple)
    else
      var mean := m.mean + (sample - m.mean) / n as real;
      Moments(mean, m.varianceMultiple + Times(sample - m.mean, sample - mean))
  }

  ghost function Running(s: seq<real>): Moments
  {
    if s == [] then Moments(0.0, 0.0) else Next(Running(s[..|s| - 1]), |s|, s[|s| - 1])
  }

  /** A sum of squared deviations when the centre moves down by d; b is the sum of the deviations. */
  ghost function Recentred(squares: real, d: real, b: real, n: real): real
  {
    squares + 2.0 * Times(d, b) + Times(n, Square(d))
  }

  lemma RecentreStep(squares: real, d: real, b: real, n: real, a: real)
    ensures Recentred(squares, d, b, n) + Square(a + d) == Recentred(squares + Square(a), d, b + a, n + 1.0)
  {
  }

  /** The sum of the deviations from m. */
  ghost function Deviation(s: seq<real>, m: real): real
  {
    SumOf(s) - Times(|s| as real, m)
  }

  lemma DeviationStep(s: seq<real>, m: real)
    requires s != []
    ensures Deviation(s, m) == Deviation(s[..|s| - 1], m) + (s[|s| - 1] - m)
  {
  }

  lemma {:induction false} Recentre(s: seq<real>, m: real, d: real)
    ensures SquaredDeviations(s, m - d) == Recentred(SquaredDeviations(s, m), d, Deviation(s, m), |s| as real)
  {
    if s != [] {
      var t, x := s[..|s| - 1], s[|s| - 1];
      Recentre(t, m, d);
      DeviationStep(s, m);
      RecentreStep(SquaredDeviations(t, m), d, Deviation(t, m), |t| as real, x - m);
    }
  }

  /** The algebra of one step: n samples went before, the mean m moves by q, and the new sample is x. */
  lemma StepAlgebra(n: real, m: real, x: real, q: real, total: real)
    requires n >= 0.0 && q == (x - m) / (n + 1.0) && Times(m, n) == total
    ensures Times(m + q, n + 1.0) == total + x
    ensures Times(n, Square(q)) + Square(x - (m + q)) == Times(x - m, x - (m + q))
  {
  }

  lemma NextIsExact(t: seq<real>, x: real, r: Moments)
    requires |t| >= 1 && Times(r.mean, |t| as real) == SumOf(t) && r.varianceMultiple == SquaredDeviations(t, r.mean)
    ensures var r' := Next(r, |t| + 1, x);
            Times(r'.mean, |t| as real + 1.0) == SumOf(t) + x
            && r'.varianceMultiple == SquaredDeviations(t, r'.mean) + Square(x - r'.mean)
  {
    var n, m := |t| as real, r.mean;
    var q := (x - m) / (n + 1.0);
    StepAlgebra(n, m, x, q, SumOf(t));
    Recentre(t, m, -q);
    assert Deviation(t, m) == 0.0;
    NoDrift(SquaredDeviations(t, m), q, n);
  }

  lemma NoDrift(squares: real, q: real, n: real)
    ensures Recentred(squares, -q, 0.0, n) == squares + Times(n, Square(q))
  {
  }

  /** Theorem: after any samples the mean times their number is their sum, and the variance multiple is
      the sum of the squared deviations from the final mean. */
  lemma {:induction false} RunningIsExact(s: seq<real>)
    ensures Times(Running(s).mean, |s| as real) == SumOf(s)
    ensures Running(s).varianceMultiple == SquaredDeviations(s, Running(s).mean)
  {
    if |s| == 1 {
      assert s[..0] == [];
    } else if |s| > 1 {
      var t := s[..|s| - 1];
      RunningIsExact(t);
      NextIsExact(t, s[|s| - 1], Running(t));
    }
  }

  class StdDevStatistic {
    var nSamples: nat
    var mean: real
    var varianceMultiple: real
    ghost var samples: seq<real>

    ghost predicate Valid()
      reads this
    {
      nSamples == |samples| && Moments(mean, varianceMultiple) == Running(samples)
    }

    constructor ()
      ensures Valid() && samples == []
    {
      nSamples, mean, varianceMultiple := 0, 0.0, 0.0;
      samples := [];
    }

    method AddIterationTime(seconds: real)
      requires Valid()
      modifies this
      ensures Valid() && samples == old(samples) + [seconds]
      ensures Times(mean, nSamples as real) == SumOf(samples)
      ensures varianceMultiple == SquaredDeviations(samples, mean)
    {
      nSamples := nSamples + 1;
      if nSamples == 1 {
        mean := seconds;
      } else {
        var previousMean := mean;
        mean := mean + (seconds - previousMean) / nSamples as real;
        varianceMultiple := varianceMultiple + Times(seconds - previousMean, seconds - mean);
      }
      ghost var before := samples;
      samples := samples + [seconds];
      assert samples[..|samples| - 1] == before;
      RunningIsExact(samples);
    }

    /** The unbiased sample variance. */
    method Variance() returns (variance: real)
      requires Valid()
      ensures nSamples <= 1 ==> variance == 0.0
      ensures nSamples > 1 ==> Times(variance, (nSamples - 1) as real) == SquaredDeviations(samples, mean)
    {
      RunningIsExact(samples);
      variance := 0.0;
      if nSamples > 1 {
        variance := Quotient(varianceMultiple, nSamples - 1);
      }
    }
  }

  function Quotient(x: real, n: nat): (q: real)
    requires n > 0
    ensures Times(q, n as real) == x
  {
    x / n as real
  }

  /** The samples' maximum, or `lowest` when no sample exceeds it. */
  class MaxStatistic {
    var maxTime: real
    const lowest: real
    ghost var samples: seq<real>

    ghost predicate Valid()
      reads this
    {
      && maxTime >= lowest && (maxTime == lowest || maxTime in samples)
      && forall i :: 0 <= i < |samples| ==> samples[i] <= maxTime
    }

    constructor (lowestValue: real)
      ensures Valid() && samples == [] && lowest == lowestValue
    {
      lowest, maxTime, samples := lowestValue, lowestValue, [];
    }

    method AddIterationTime(sample: real)
      requires Valid()
      modifies this
      ensures Valid() && samples == old(samples) + [sample]
      ensures forall i :: 0 <= i < |samples| ==> samples[i] <= maxTime
      ensures sample >= lowest ==> maxTime in samples
    {
      if sample > maxTime {
        maxTime := sample;
      }
      samples := samples + [sample];
    }
  }

  class MinStatistic {
    var minTime: real
    const highest: real
    ghost var samples: seq<real>

    ghost predicate Valid()
      reads this
    {
      && minTime <= highest && (minTime == highest || minTime in samples)
      && forall i :: 0 <= i < |samples| ==> minTime <= samples[i]
    }

    constructor (highestValue: real)
      ensures Valid() && samples == [] && highest == highestValue
    {
      highest, minTime, samples := highestValue, highestValue, [];
    }

    method AddIterationTime(sample: real)
      requires Valid()
      modifies this
      ensures Valid() && samples == old(samples) + [sample]
      ensures forall i :: 0 <= i < |samples| ==> minTime <= samples[i]
      ensures sample <= highest ==> minTime in samples
    {
      if sample < minTime {
        minTime := sample;
      }
      samples := samples + [sample];
    }
  }
}
