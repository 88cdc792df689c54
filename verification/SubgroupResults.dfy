/** What the multi-pass reduction computes, compared with the single-pass kernel. */
module SubgroupResults {
  import opened Arithmetic
  import opened Sums
  import opened TensorIndex
  import opened Reduction
  import opened OptionalFolds
  import opened SubgroupReduction

  /** The single-pass kernel joins the row to its start value. */
  lemma {:induction false} FoldedIsJoin(op: Op, seed: real, x: seq<real>, outer: nat, b: int, n: nat)
    ensures Value(Folded(op, seed, x, outer, 1, b, 0, n))
            == Join(op, Value(Init(op, seed)), RowJoin(op, x, b * outer, n))
  {
    if n > 0 {
      FoldedIsJoin(op, seed, x, outer, b, n - 1);
      NextJoined(op, x, outer, b, n - 1);
      JoinLaws(op, Value(Init(op, seed)), RowJoin(op, x, b * outer, n - 1), Value(Element(x, outer, 1, b, 0, n - 1)));
    }
  }

  lemma NextJoined(op: Op, x: seq<real>, outer: nat, b: int, n: nat)
    ensures RowJoin(op, x, b * outer, n + 1)
            == Join(op, RowJoin(op, x, b * outer, n), Value(Element(x, outer, 1, b, 0, n)))
  {
    assert Flatten3(b, n, 0, outer, 1) == b * outer + n;
  }

  /** For Max and Min, a row that no zero has joined yields its extreme element. */
  lemma {:induction false} JoinIsExtreme(op: Op, x: seq<real>, outer: nat, b: int, n: nat)
    requires (op.Max? || op.Min?) && n > 0
    ensures RowJoin(op, x, b * outer, n).Value?
    ensures var v := RowJoin(op, x, b * outer, n).v;
            && (exists k :: 0 <= k < n && Element(x, outer, 1, b, 0, k) == v)
            && forall k :: 0 <= k < n ==> AtLeast(op, v, Element(x, outer, 1, b, 0, k))
  {
    NextJoined(op, x, outer, b, n - 1);
    if n == 1 {
      assert Element(x, outer, 1, b, 0, 0) == RowJoin(op, x, b * outer, 1).v;
    } else {
      JoinIsExtreme(op, x, outer, b, n - 1);
      assert Element(x, outer, 1, b, 0, n - 1) == Element(x, outer, 1, b, 0, n - 1);
    }
  }

  /** The result for row b before it is finalised: the single-pass result for sums; and for extremes, the
      single-pass result with a seed of zero where a pass has padded, or with no seed at all. */
  ghost predicate IsUnfinalised(op: Op, seed: real, pads: bool, x: seq<real>, outer: nat, b: int, v: real)
  {
    if op.Add? || op.Mean? then v == Folded(op, seed, x, outer, 1, b, 0, outer)
    else if pads then v == Folded(op, 0.0, x, outer, 1, b, 0, outer)
    else IsExtreme(op, x, outer, 1, b, 0, v)
  }

  lemma RowResult(op: Op, seed: real, pads: bool, x: seq<real>, outer: nat, b: int, v: real)
    requires outer > 0 && Value(v) == Padded(op, RowJoin(op, x, b * outer, outer), pads)
    ensures IsUnfinalised(op, seed, pads, x, outer, b, v)
  {
    var row := RowJoin(op, x, b * outer, outer);
    if op.Max? || op.Min? {
      JoinIsExtreme(op, x, outer, b, outer);
      FoldedIsJoin(op, 0.0, x, outer, b, outer);
      JoinLaws(op, row, Value(0.0), Nothing);
    } else {
      FoldedIsJoin(op, seed, x, outer, b, outer);
      RowPresent(op, x, b * outer, outer);
    }
  }

  lemma RowPresent(op: Op, x: seq<real>, start: int, n: nat)
    requires n > 0
    ensures RowJoin(op, x, start, n).Value?
  {
    JoinedPresent(op, n, 0, i => Value(At(x, start + i)));
  }

  /** All passes and the final division, or the single-pass kernel where the device offers no sub-groups of two or
      more. Sums and means come out as from the single-pass kernel, maxima and minima exactly, unless a pass pads its
      rows: then they come out as from the single-pass kernel seeded with zero. */
  method QueueSubgroupKernel(op: Op, seed: real, batches: nat, outer: nat, s: nat, alignment: nat,
                             schedules: Schedules, input: array<real>, output: array<real>)
    requires batches > 0 && outer > 0 && 1 <= s <= alignment && AreSchedules(schedules)
    requires input.Length == Product(batches, outer) && output.Length == batches && input != output
    modifies output
    ensures s == 1 || op.Add? || op.Mean? ==>
              forall b :: 0 <= b < batches ==> output[b] == Reduced(op, seed, input[..], outer, 1, outer, b, 0)
    ensures s > 1 && (op.Max? || op.Min?) && Pads(outer, s, alignment) ==>
              forall b :: 0 <= b < batches ==> output[b] == Reduced(op, 0.0, input[..], outer, 1, outer, b, 0)
    ensures s > 1 && (op.Max? || op.Min?) && !Pads(outer, s, alignment) ==>
              forall b :: 0 <= b < batches ==> IsExtreme(op, input[..], outer, 1, b, 0, output[b])
  {
    if s <= 1 {
      LaunchReduce(op, batches, outer, 1, outer, seed, schedules(0, batches, 1), input[..], output);
      assert forall b :: 0 <= b < batches ==> output[b] == At(output[..], b * 1 + 0);
      return;
    }
    var job := Job(op, batches, s, alignment, schedules);
    RunPasses(job, outer, input, output);
    forall b: nat | b < batches
      ensures IsUnfinalised(op, seed, Pads(outer, s, alignment), input[..], outer, b, output[b])
    {
      LastElement(job, outer, output[..], input[..], b);
      RowResult(op, seed, Pads(outer, s, alignment), input[..], outer, b, output[b]);
    }
    if op == Mean {
      RunFinalize(outer, schedules(0, batches, 1), output);
    }
  }

  /** Theorem: for rows of any length and sub-groups of one constant size the passes end and stay inside their
      buffers. Add gives the sum of every row; Mean times the row length is that sum; Max and Min give a bound on the
      row that is one of its elements, or else the zero of a pass that padded (with no passes, the seed). */
  method ReduceBySubgroups(op: Op, seed: real, batches: nat, outer: nat, s: nat, alignment: nat, schedules: Schedules,
                           input: array<real>, output: array<real>)
    requires batches > 0 && outer > 0 && 1 <= s <= alignment && AreSchedules(schedules)
    requires input.Length == Product(batches, outer) && output.Length == batches && input != output
    modifies output
    ensures forall b :: 0 <= b < batches ==> IsRowSum(op, input[..], outer, b, output[b])
    ensures s == 1 || op.Add? || op.Mean? ==>
              forall b :: 0 <= b < batches ==> output[b] == Reduced(op, seed, input[..], outer, 1, outer, b, 0)
    ensures s > 1 && (op.Max? || op.Min?) && Pads(outer, s, alignment) ==>
              forall b :: 0 <= b < batches ==> output[b] == Reduced(op, 0.0, input[..], outer, 1, outer, b, 0)
    ensures s > 1 && (op.Max? || op.Min?) && !Pads(outer, s, alignment) ==>
              forall b :: 0 <= b < batches ==> IsExtreme(op, input[..], outer, 1, b, 0, output[b])
  {
    QueueSubgroupKernel(op, seed, batches, outer, s, alignment, schedules, input, output);
    if op == Add || op == Mean {
      RowSums(op, seed, input[..], outer, batches, output[..]);
    }
  }

  lemma RowSums(op: Op, seed: real, x: seq<real>, outer: nat, batches: nat, y: seq<real>)
    requires outer > 0 && |y| == batches
    requires forall b :: 0 <= b < batches ==> y[b] == Reduced(op, seed, x, outer, 1, outer, b, 0)
    ensures forall b :: 0 <= b < batches ==> IsRowSum(op, x, outer, b, y[b])
  {
    forall b | 0 <= b < batches
      ensures IsRowSum(op, x, outer, b, y[b])
    {
      ReducedValue(op, seed, x, outer, 1, outer, b, 0, y[b]);
    }
  }

  /** y is the sum of row b, or for Mean the number that times the row length is the sum. */
  ghost predicate IsRowSum(op: Op, x: seq<real>, outer: nat, b: int, y: real)
  {
    var total := Sum(outer, k => At(x, Flatten3(b, k, 0, outer, 1)));
    (op == Add ==> y == total) && (op == Mean ==> y * outer as real == total)
  }

  /** What an exact maximum or minimum is: an element that bounds the row. */
  lemma ExtremeValue(op: Op, x: seq<real>, outer: nat, b: int, v: real)
    requires (op == Max || op == Min) && IsExtreme(op, x, outer, 1, b, 0, v)
    ensures exists k :: 0 <= k < outer && v == At(x, Flatten3(b, k, 0, outer, 1))
    ensures forall k :: 0 <= k < outer ==>
              var u := At(x, Flatten3(b, k, 0, outer, 1));
              (op == Max ==> v >= u) && (op == Min ==> v <= u)
  {
    var e :| 0 <= e < outer && Element(x, outer, 1, b, 0, e) == v;
    assert v == At(x, Flatten3(b, e, 0, outer, 1));
    forall k | 0 <= k < outer
      ensures AtLeast(op, v, At(x, Flatten3(b, k, 0, outer, 1)))
    {
      assert AtLeast(op, v, Element(x, outer, 1, b, 0, k));
    }
  }

  /** A row of one element is its own value. */
  lemma LastElement(job: Job, outer: nat, results: seq<real>, x: seq<real>, b: nat)
    requires job.Valid() && b < job.batches == |results|
    requires Holds(job.op, job.Results(), 1, results, x, outer, Pads(outer, job.s, job.alignment))
    ensures Value(results[b]) == Padded(job.op, RowJoin(job.op, x, b * outer, outer), Pads(outer, job.s, job.alignment))
  {
    assert job.Results().Start(b) == b;
    assert RowJoin(job.op, results, b, 1) == Value(At(results, b));
  }

  /** When maxima and minima are exact: when no pass pads, or some element is at least as extreme as zero. */
  lemma ExtremeBySubgroupsIff(op: Op, pads: bool, x: seq<real>, outer: nat, b: int, v: real)
    requires (op.Max? || op.Min?) && IsUnfinalised(op, 0.0, pads, x, outer, b, v)
    ensures IsExtreme(op, x, outer, 1, b, 0, v)
            <==> !pads || Reaches(op, 0.0, x, outer, 1, b, 0)
  {
    ExtremeIff(op, 0.0, x, outer, 1, b, 0);
  }

  /** A failing request: s + 1 negative elements where sub-groups and work-groups hold s work-items. */
  lemma PaddedMaximumLost(s: nat, x: seq<real>, v: real)
    requires s >= 2 && x == seq(s + 1, _ => -1.0) && IsUnfinalised(Max, 0.0, Pads(s + 1, s, s), x, s + 1, 0, v)
    ensures !IsExtreme(Max, x, s + 1, 1, 0, 0, v)
  {
    var outer := s + 1;
    DivModOfSum(1, s, 1);
    forall k | 0 <= k < outer
      ensures Element(x, outer, 1, 0, 0, k) < 0.0
    {
      assert Flatten3(0, k, 0, outer, 1) == k;
    }
    ExtremeBySubgroupsIff(Max, true, x, outer, 0, v);
  }
}
