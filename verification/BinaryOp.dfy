/** Element-wise binary operations with broadcasting: the launcher pads, folds and normalises the
    dimensions, picks a kernel and a vector width, and runs it. */
module BinaryOp {
  import opened Arithmetic
  import opened Shapes

  const MAX_DIMS := 4

  /** The operand element that output element x uses. Dimensions are aligned at the last one; an operand
      dimension of size one (or a missing one) is broadcast. */
  function BroadcastIndex(dims: Dims, outDims: Dims, x: int): int
    requires |dims| <= |outDims| && Positive(outDims)
  {
    if dims == [] then 0
    else
      var m, n := |dims| - 1, |outDims| - 1;
      BroadcastIndex(dims[..m], outDims[..n], x / outDims[n]) * dims[m] + (if dims[m] == 1 then 0 else x % outDims[n])
  }

  /** One dimension of an operand against the output's. */
  predicate Fits(d: nat, o: nat)
  {
    d == o || d == 1
  }

  /** One dimension of both operands and of the output. */
  predicate Matches(l: nat, r: nat, o: nat)
  {
    o > 0 && Fits(l, o) && Fits(r, o) && (l == o || r == o)
  }

  predicate AllMatch(lhs: Dims, rhs: Dims, out: Dims)
  {
    && |lhs| == |rhs| == |out|
    && forall i :: 0 <= i < |out| ==> Matches(lhs[i], rhs[i], out[i])
  }

  /** dims with as many leading ones as it takes to reach rank n. */
  function Padded(dims: Dims, n: nat): (r: Dims)
    requires |dims| <= n
    ensures |r| == n
  {
    seq(n - |dims|, _ => 1) + dims
  }

  predicate Compatible(lhs: Dims, rhs: Dims, out: Dims)
  {
    && |lhs| <= |out| && |rhs| <= |out|
    && AllMatch(Padded(lhs, |out|), Padded(rhs, |out|), out)
  }

  lemma {:induction false} BroadcastBound(dims: Dims, outDims: Dims, x: nat)
    requires |dims| == |outDims| && Positive(outDims) && Positive(dims)
    requires forall i :: 0 <= i < |dims| ==> Fits(dims[i], outDims[i])
    requires x < Total(outDims)
    ensures 0 <= BroadcastIndex(dims, outDims, x) < Total(dims)
  {
    if dims != [] {
      var n := |dims| - 1;
      SplitBound(x, Total(outDims[..n]), outDims[n]);
      BroadcastBound(dims[..n], outDims[..n], x / outDims[n]);
      var c := if dims[n] == 1 then 0 else x % outDims[n];
      PairBound(BroadcastIndex(dims[..n], outDims[..n], x / outDims[n]), Total(dims[..n]), c, dims[n]);
    }
  }

  /** Theorem: the index is the per-dimension one: c has the coordinates of id, aligned at the last one, with those
      of broadcast dimensions dropped to zero. */
  lemma {:induction false} BroadcastCoordinates(dims: Dims, outDims: Dims, id: seq<int>, c: seq<int>)
    requires |c| == |dims| <= |outDims| && Positive(outDims) && InRange(outDims, id)
    requires forall i :: 0 <= i < |dims| ==> c[i] == if dims[i] == 1 then 0 else id[i + |outDims| - |dims|]
    ensures BroadcastIndex(dims, outDims, Ravel(outDims, id)) == Ravel(dims, c)
  {
    if dims != [] {
      var m, n := |dims| - 1, |outDims| - 1;
      BroadcastCoordinates(dims[..m], outDims[..n], id[..n], c[..m]);
      DivModOfSum(Ravel(outDims[..n], id[..n]), outDims[n], id[n]);
    }
  }

  // ---------------------------------------------------------------- padding

  lemma {:induction false} PadOne(dims: Dims, outDims: Dims, x: int)
    requires |dims| < |outDims| && Positive(outDims)
    ensures BroadcastIndex([1] + dims, outDims, x) == BroadcastIndex(dims, outDims, x)
    ensures Total([1] + dims) == Total(dims)
  {
    if dims == [] {
      assert ([1] + dims)[..0] == [];
      assert Total([1]) == Product(Total([]), 1);
    } else {
      var m, n := |dims| - 1, |outDims| - 1;
      PadOne(dims[..m], outDims[..n], x / outDims[n]);
      assert ([1] + dims)[..m + 1] == [1] + dims[..m];
    }
  }

  // ---------------------------------------------------------------- folding

  /** The broadcast direction of a dimension: 0 for none, -1 when the left operand is broadcast. */
  function BroadcastDirection(l: nat, r: nat): int
  {
    if l == r then 0 else if l == 1 then -1 else 1
  }

  /** A dimension appended to both sides of an operand. */
  lemma BroadcastAppend(dims: Dims, outDims: Dims, d: nat, o: nat, x: int)
    requires |dims| <= |outDims| && Positive(outDims) && o > 0
    ensures Positive(outDims + [o])
    ensures BroadcastIndex(dims + [d], outDims + [o], x) ==
            BroadcastIndex(dims, outDims, x / o) * d + (if d == 1 then 0 else x % o)
    ensures Total(dims + [d]) == Total(dims) * d
  {
  }

  /** Two neighbouring dimensions that are both kept, or both broadcast, are one dimension. */
  lemma BroadcastMerge(dims: Dims, outDims: Dims, d: nat, o: nat, d': nat, o': nat, x: nat)
    requires |dims| <= |outDims| && Positive(outDims) && o > 0 && o' > 0
    requires (d == o && d' == o') || (d == 1 && d' == 1)
    ensures Positive(outDims + [Product(o, o')]) && Positive(outDims + [o] + [o'])
    ensures BroadcastIndex(dims + [Product(d, d')], outDims + [Product(o, o')], x) ==
            BroadcastIndex(dims + [d] + [d'], outDims + [o] + [o'], x)
  {
    BroadcastAppend(dims, outDims, Product(d, d'), Product(o, o'), x);
    BroadcastAppend(dims, outDims, d, o, x / o');
    BroadcastAppend(dims + [d], outDims + [o], d', o', x);
    DivModProduct(x, o, o');
    MergedIndex(BroadcastIndex(dims, outDims, x / Product(o, o')), (x / o') % o, x % o', d, o, d', o');
  }

  lemma MergedIndex(outer: int, c: int, c': int, d: nat, o: nat, d': nat, o': nat)
    requires o > 0 && o' > 0 && 0 <= c < o && 0 <= c' < o'
    requires (d == o && d' == o') || (d == 1 && d' == 1)
    ensures outer * Product(d, d') + (if Product(d, d') == 1 then 0 else c * o' + c') ==
            (outer * d + (if d == 1 then 0 else c)) * d' + (if d' == 1 then 0 else c')
  {
  }

  /** The three lists of dimensions that the launcher folds in step. */
  datatype Folded = Folded(lhs: Dims, rhs: Dims, out: Dims)
  {
    function Direction(i: nat): int
      requires i < |lhs| && i < |rhs|
    {
      BroadcastDirection(lhs[i], rhs[i])
    }

    /** Well-formed, with neighbouring dimensions in different directions. */
    ghost predicate Valid()
    {
      && AllMatch(lhs, rhs, out)
      && forall i :: 0 <= i < |out| - 1 ==> Direction(i) != Direction(i + 1)
    }
  }

  /** One more than the number of changes of direction. */
  function Runs(lhs: Dims, rhs: Dims): nat
    requires |lhs| == |rhs|
  {
    var n := |lhs|;
    if n <= 1 then n
    else
      Runs(lhs[..n - 1], rhs[..n - 1])
      + if BroadcastDirection(lhs[n - 1], rhs[n - 1]) == BroadcastDirection(lhs[n - 2], rhs[n - 2]) then 0 else 1
  }

  lemma {:induction false} RunsAtMostRank(lhs: Dims, rhs: Dims)
    requires |lhs| == |rhs|
    ensures Runs(lhs, rhs) <= |lhs|
  {
    if |lhs| > 1 {
      RunsAtMostRank(lhs[..|lhs| - 1], rhs[..|lhs| - 1]);
    }
  }

  /** Both operands are indexed as before, and have as many elements. */
  ghost predicate SameOperands(lhs: Dims, rhs: Dims, out: Dims, f: Folded)
  {
    && |lhs| <= |out| && |rhs| <= |out| && Positive(out)
    && |f.lhs| <= |f.out| && |f.rhs| <= |f.out| && Positive(f.out)
    && Total(f.lhs) == Total(lhs) && Total(f.rhs) == Total(rhs) && Total(f.out) == Total(out)
    && forall x: nat :: SameIndices(lhs, rhs, out, f, x)
  }

  ghost predicate SameIndices(lhs: Dims, rhs: Dims, out: Dims, f: Folded, x: nat)
    requires |lhs| <= |out| && |rhs| <= |out| && Positive(out)
    requires |f.lhs| <= |f.out| && |f.rhs| <= |f.out| && Positive(f.out)
  {
    && BroadcastIndex(f.lhs, f.out, x) == BroadcastIndex(lhs, out, x)
    && BroadcastIndex(f.rhs, f.out, x) == BroadcastIndex(rhs, out, x)
  }

  /** f has the shape of the folded dimensions: one per run of equal directions. */
  ghost predicate Folds(lhs: Dims, rhs: Dims, out: Dims, f: Folded)
  {
    && f.Valid() && AllMatch(lhs, rhs, out) && |out| > 0
    && |f.out| == Runs(lhs, rhs) > 0
    && f.Direction(|f.out| - 1) == BroadcastDirection(lhs[|out| - 1], rhs[|out| - 1])
  }

  lemma FoldFirst(l: nat, r: nat, o: nat)
    requires Matches(l, r, o)
    ensures Folds([l], [r], [o], Folded([l], [r], [o]))
    ensures SameOperands([l], [r], [o], Folded([l], [r], [o]))
  {
  }

  /** The given dimensions with one more at the end; f with one more, or with its last one grown. */
  function Push(f: Folded, l: nat, r: nat, o: nat): Folded
  {
    Folded(f.lhs + [l], f.rhs + [r], f.out + [o])
  }

  function Grow(f: Folded, l: nat, r: nat, o: nat): Folded
    requires |f.lhs| == |f.rhs| == |f.out| > 0
  {
    Folded(GrowLast(f.lhs, l), GrowLast(f.rhs, r), GrowLast(f.out, o))
  }

  /** The last dimension multiplied by d. */
  function GrowLast(dims: Dims, d: nat): Dims
    requires |dims| > 0
  {
    var n := |dims| - 1;
    dims[..n] + [Product(dims[n], d)]
  }

  lemma RunsAppend(lhs: Dims, rhs: Dims, l: nat, r: nat)
    requires |lhs| == |rhs| > 0
    ensures Runs(lhs + [l], rhs + [r]) ==
            Runs(lhs, rhs)
            + if BroadcastDirection(l, r) == BroadcastDirection(lhs[|lhs| - 1], rhs[|rhs| - 1]) then 0 else 1
  {
  }

  lemma FoldPush(lhs: Dims, rhs: Dims, out: Dims, f: Folded, l: nat, r: nat, o: nat)
    requires Folds(lhs, rhs, out, f) && Matches(l, r, o)
    requires BroadcastDirection(l, r) != f.Direction(|f.out| - 1)
    ensures Folds(lhs + [l], rhs + [r], out + [o], Push(f, l, r, o))
  {
    RunsAppend(lhs, rhs, l, r);
    PushValid(f, l, r, o);
  }

  lemma PushValid(f: Folded, l: nat, r: nat, o: nat)
    requires f.Valid() && |f.out| > 0 && Matches(l, r, o)
    requires BroadcastDirection(l, r) != f.Direction(|f.out| - 1)
    ensures Push(f, l, r, o).Valid()
  {
    var f' := Push(f, l, r, o);
    forall i | 0 <= i < |f'.out| - 1
      ensures f'.Direction(i) != f'.Direction(i + 1)
    {
      if i < |f.out| - 1 {
        assert f.Direction(i) != f.Direction(i + 1);
      }
    }
  }

  lemma PushKeepsOperands(lhs: Dims, rhs: Dims, out: Dims, f: Folded, l: nat, r: nat, o: nat)
    requires SameOperands(lhs, rhs, out, f) && o > 0
    ensures SameOperands(lhs + [l], rhs + [r], out + [o], Push(f, l, r, o))
  {
    forall x: nat
      ensures Positive(out + [o]) && Positive(f.out + [o])
      ensures SameIndices(lhs + [l], rhs + [r], out + [o], Push(f, l, r, o), x)
    {
      AppendKeepsIndices(lhs, rhs, out, f, l, r, o, x);
    }
    TotalAppend(lhs, l);
    TotalAppend(rhs, r);
    TotalAppend(out, o);
    TotalAppend(f.lhs, l);
    TotalAppend(f.rhs, r);
    TotalAppend(f.out, o);
    AppendKeepsIndices(lhs, rhs, out, f, l, r, o, 0);
  }

  lemma TotalAppend(dims: Dims, d: nat)
    ensures Total(dims + [d]) == Total(dims) * d
  {
  }

  lemma FoldGrow(lhs: Dims, rhs: Dims, out: Dims, f: Folded, l: nat, r: nat, o: nat)
    requires Folds(lhs, rhs, out, f) && Matches(l, r, o)
    requires BroadcastDirection(l, r) == f.Direction(|f.out| - 1)
    ensures Folds(lhs + [l], rhs + [r], out + [o], Grow(f, l, r, o))
  {
    RunsAppend(lhs, rhs, l, r);
    GrowValid(f, l, r, o);
  }

  lemma GrowValid(f: Folded, l: nat, r: nat, o: nat)
    requires f.Valid() && |f.out| > 0 && Matches(l, r, o)
    requires BroadcastDirection(l, r) == f.Direction(|f.out| - 1)
    ensures Grow(f, l, r, o).Valid()
    ensures Grow(f, l, r, o).Direction(|f.out| - 1) == f.Direction(|f.out| - 1)
  {
    var f' := Grow(f, l, r, o);
    var n := |f.out| - 1;
    assert Matches(f.lhs[n], f.rhs[n], f.out[n]);
    GrownMatches(f.lhs[n], f.rhs[n], f.out[n], l, r, o);
    forall i | 0 <= i < n
      ensures f'.Direction(i) != f'.Direction(i + 1)
    {
      assert f.Direction(i) != f.Direction(i + 1);
    }
  }

  /** Growing a dimension by one of the same direction keeps the direction. */
  lemma GrownMatches(l: nat, r: nat, o: nat, l': nat, r': nat, o': nat)
    requires Matches(l, r, o) && Matches(l', r', o') && BroadcastDirection(l, r) == BroadcastDirection(l', r')
    ensures Matches(Product(l, l'), Product(r, r'), Product(o, o'))
    ensures BroadcastDirection(Product(l, l'), Product(r, r')) == BroadcastDirection(l, r)
    ensures (l == o && l' == o') || (l == 1 && l' == 1)
    ensures (r == o && r' == o') || (r == 1 && r' == 1)
  {
  }

  lemma GrowKeepsOperands(lhs: Dims, rhs: Dims, out: Dims, f: Folded, l: nat, r: nat, o: nat)
    requires f.Valid() && |f.out| > 0 && Matches(l, r, o)
    requires BroadcastDirection(l, r) == f.Direction(|f.out| - 1)
    requires SameOperands(lhs, rhs, out, Push(f, l, r, o))
    ensures SameOperands(lhs, rhs, out, Grow(f, l, r, o))
  {
    var p, g := Push(f, l, r, o), Grow(f, l, r, o);
    GrowValid(f, l, r, o);
    GrowSizes(f, l, r, o);
    BothGrow(f, l, r, o);
    forall x: nat
      ensures SameIndices(lhs, rhs, out, g, x)
    {
      assert SameIndices(lhs, rhs, out, p, x);
      GrowIndices(f, l, r, o, x);
    }
  }

  lemma GrowSizes(f: Folded, l: nat, r: nat, o: nat)
    requires |f.lhs| == |f.rhs| == |f.out| > 0
    ensures var p, g := Push(f, l, r, o), Grow(f, l, r, o);
            Total(g.lhs) == Total(p.lhs) && Total(g.rhs) == Total(p.rhs) && Total(g.out) == Total(p.out)
  {
    GrownSize(f.lhs, l);
    GrownSize(f.rhs, r);
    GrownSize(f.out, o);
  }

  lemma GrownSize(dims: Dims, d: nat)
    requires |dims| > 0
    ensures Total(GrowLast(dims, d)) == Total(dims + [d])
  {
    SplitLast(dims);
    GroupSize(dims[..|dims| - 1], dims[|dims| - 1], d);
  }

  /** An operand's last dimension may grow by d when the output's grows by o. */
  predicate GrowsWith(dims: Dims, outDims: Dims, d: nat, o: nat)
  {
    |dims| == |outDims| > 0
    && var n := |dims| - 1; (dims[n] == outDims[n] && d == o) || (dims[n] == 1 && d == 1)
  }

  lemma BothGrow(f: Folded, l: nat, r: nat, o: nat)
    requires f.Valid() && |f.out| > 0 && Matches(l, r, o)
    requires BroadcastDirection(l, r) == f.Direction(|f.out| - 1)
    ensures Positive(f.out) && o > 0 && GrowsWith(f.lhs, f.out, l, o) && GrowsWith(f.rhs, f.out, r, o)
  {
    var n := |f.out| - 1;
    assert Matches(f.lhs[n], f.rhs[n], f.out[n]);
    GrownMatches(f.lhs[n], f.rhs[n], f.out[n], l, r, o);
  }

  lemma GrowIndices(f: Folded, l: nat, r: nat, o: nat, x: nat)
    requires Positive(f.out) && o > 0 && GrowsWith(f.lhs, f.out, l, o) && GrowsWith(f.rhs, f.out, r, o)
    ensures var p, g := Push(f, l, r, o), Grow(f, l, r, o);
            && Positive(p.out) && Positive(g.out)
            && BroadcastIndex(g.lhs, g.out, x) == BroadcastIndex(p.lhs, p.out, x)
            && BroadcastIndex(g.rhs, g.out, x) == BroadcastIndex(p.rhs, p.out, x)
  {
    GrowIndex(f.lhs, f.out, l, o, x);
    GrowIndex(f.rhs, f.out, r, o, x);
  }

  lemma GrowIndex(dims: Dims, outDims: Dims, d: nat, o: nat, x: nat)
    requires Positive(outDims) && o > 0 && GrowsWith(dims, outDims, d, o)
    ensures Positive(outDims + [o]) && Positive(GrowLast(outDims, o))
    ensures BroadcastIndex(GrowLast(dims, d), GrowLast(outDims, o), x) == BroadcastIndex(dims + [d], outDims + [o], x)
  {
    var n := |dims| - 1;
    SplitLast(dims);
    SplitLast(outDims);
    BroadcastMerge(dims[..n], outDims[..n], dims[n], outDims[n], d, o, x);
  }

  lemma SplitLast(dims: Dims)
    requires |dims| > 0
    ensures dims == dims[..|dims| - 1] + [dims[|dims| - 1]]
  {
  }

  /** A pushed dimension and a grown one give the same size. */
  lemma GroupSize(base: Dims, a: nat, d: nat)
    ensures Total(base + [Product(a, d)]) == Total(base + [a] + [d])
  {
    TotalAppend(base, a);
    TotalAppend(base + [a], d);
    TotalAppend(base, Product(a, d));
    MulAssoc(Total(base), a, d);
  }

  lemma AppendKeepsIndices(lhs: Dims, rhs: Dims, out: Dims, f: Folded, l: nat, r: nat, o: nat, x: nat)
    requires SameOperands(lhs, rhs, out, f) && o > 0
    ensures Positive(out + [o]) && Positive(f.out + [o])
    ensures SameIndices(lhs + [l], rhs + [r], out + [o], Push(f, l, r, o), x)
  {
    QuotientShrinks(x, o);
    assert SameIndices(lhs, rhs, out, f, x / o);
    BroadcastAppend(lhs, out, l, o, x);
    BroadcastAppend(rhs, out, r, o, x);
    BroadcastAppend(f.lhs, f.out, l, o, x);
    BroadcastAppend(f.rhs, f.out, r, o, x);
  }

  // ---------------------------------------------------------------- the launcher's preparation

  /** Leading ones change neither the indices nor the size. */
  lemma {:induction false} PaddedIndex(dims: Dims, n: nat, outDims: Dims, x: int)
    requires |dims| <= n <= |outDims| && Positive(outDims)
    ensures BroadcastIndex(Padded(dims, n), outDims, x) == BroadcastIndex(dims, outDims, x)
    ensures Total(Padded(dims, n)) == Total(dims)
  {
    if n == |dims| {
      assert Padded(dims, n) == dims;
    } else {
      PaddedIndex(dims, n - 1, outDims, x);
      PadOne(Padded(dims, n - 1), outDims, x);
      assert Padded(dims, n) == [1] + Padded(dims, n - 1);
    }
  }

  method PadDims(dims: Dims, numDims: nat) returns (r: Dims)
    requires |dims| <= numDims
    ensures r == Padded(dims, numDims)
  {
    r := dims;
    while |r| < numDims
      invariant |dims| <= |r| <= numDims && r == Padded(dims, |r|)
      decreases numDims - |r|
    {
      r := [1] + r;
    }
  }

  /** The output dimensions of a multidirectional broadcast, if there is one. */
  method ComputeOutDims(lhs: Dims, rhs: Dims) returns (ok: bool, out: Dims)
    requires Positive(lhs) && Positive(rhs)
    ensures ok ==> |out| == (if |lhs| <= |rhs| then |rhs| else |lhs|) && Compatible(lhs, rhs, out)
    ensures !ok ==> forall o :: !Compatible(lhs, rhs, o)
    ensures ok <==> forall i, j :: 0 <= i < |lhs| && 0 <= j < |rhs| && |lhs| - i == |rhs| - j ==>
                      lhs[i] == rhs[j] || lhs[i] == 1 || rhs[j] == 1
  {
    var smallest := if |lhs| <= |rhs| then lhs else rhs;
    var largest := if |lhs| <= |rhs| then rhs else lhs;
    var numDims := |largest|;
    smallest := PadDims(smallest, numDims);
    out := [];
    for i := 0 to numDims
      invariant |out| == i
      invariant forall j :: 0 <= j < i ==> Matches(smallest[j], largest[j], out[j])
    {
      if !(smallest[i] == largest[i] || smallest[i] == 1 || largest[i] == 1) {
        forall o
          ensures !Compatible(lhs, rhs, o)
        {
          NoDimensionMatches(lhs, rhs, o, i);
        }
        MismatchAligned(lhs, rhs, i);
        return false, [];
      }
      out := out + [if smallest[i] > largest[i] then smallest[i] else largest[i]];
    }
    ok := true;
    PaddedToLonger(lhs, rhs, out);
    CompatibleAligned(lhs, rhs, out);
  }

  /** Compatibility in terms of the dimensions as given, aligned at the last one. */
  lemma CompatibleAligned(lhs: Dims, rhs: Dims, out: Dims)
    requires Compatible(lhs, rhs, out)
    ensures forall i, j :: 0 <= i < |lhs| && 0 <= j < |rhs| && |lhs| - i == |rhs| - j ==>
              lhs[i] == rhs[j] || lhs[i] == 1 || rhs[j] == 1
    ensures forall i, k :: 0 <= i < |lhs| && 0 <= k < |out| && |lhs| - i == |out| - k ==>
            lhs[i] == out[k] || lhs[i] == 1
    ensures forall j, k :: 0 <= j < |rhs| && 0 <= k < |out| && |rhs| - j == |out| - k ==>
            rhs[j] == out[k] || rhs[j] == 1
    ensures forall k :: 0 <= k < |out| ==>
              || out[k] == 1 || (exists i :: 0 <= i < |lhs| && |lhs| - i == |out| - k && lhs[i] == out[k])
              || exists j :: 0 <= j < |rhs| && |rhs| - j == |out| - k && rhs[j] == out[k]
  {
    var l, r := Padded(lhs, |out|), Padded(rhs, |out|);
    forall i, j | 0 <= i < |lhs| && 0 <= j < |rhs| && |lhs| - i == |rhs| - j
      ensures lhs[i] == rhs[j] || lhs[i] == 1 || rhs[j] == 1
    {
      var k := |out| - |lhs| + i;
      assert Matches(l[k], r[k], out[k]);
    }
    forall k | 0 <= k < |out|
      ensures |out| - k <= |lhs| ==> var d := lhs[|lhs| - (|out| - k)]; d == l[k] && (d == out[k] || d == 1)
      ensures |out| - k <= |rhs| ==> var d := rhs[|rhs| - (|out| - k)]; d == r[k] && (d == out[k] || d == 1)
      ensures |out| - k > |lhs| ==> l[k] == 1
      ensures |out| - k > |rhs| ==> r[k] == 1
      ensures l[k] == out[k] || r[k] == out[k]
    {
      assert Matches(l[k], r[k], out[k]);
    }
  }

  lemma MismatchAligned(lhs: Dims, rhs: Dims, k: nat)
    requires var n := if |lhs| <= |rhs| then |rhs| else |lhs|;
             k < n && var l, r := Padded(lhs, n)[k], Padded(rhs, n)[k]; l != r && l != 1 && r != 1
    ensures exists i, j :: 0 <= i < |lhs| && 0 <= j < |rhs| && |lhs| - i == |rhs| - j
                           && lhs[i] != rhs[j] && lhs[i] != 1 && rhs[j] != 1
  {
    var n := if |lhs| <= |rhs| then |rhs| else |lhs|;
    var i, j := k - (n - |lhs|), k - (n - |rhs|);
    assert lhs[i] != rhs[j];
  }

  lemma PaddedToLonger(lhs: Dims, rhs: Dims, out: Dims)
    requires |out| == if |lhs| <= |rhs| then |rhs| else |lhs|
    requires if |lhs| <= |rhs| then AllMatch(Padded(lhs, |rhs|), rhs, out) else AllMatch(Padded(rhs, |lhs|), lhs, out)
    ensures Compatible(lhs, rhs, out)
  {
  }

  lemma NoDimensionMatches(lhs: Dims, rhs: Dims, out: Dims, i: nat)
    requires var n := if |lhs| <= |rhs| then |rhs| else |lhs|;
             i < n && var l, r := Padded(lhs, n)[i], Padded(rhs, n)[i]; l != r && l != 1 && r != 1
    ensures !Compatible(lhs, rhs, out)
  {
    var n := if |lhs| <= |rhs| then |rhs| else |lhs|;
    if n <= |out| {
      var j := i + |out| - n;
      assert !Matches(Padded(lhs, |out|)[j], Padded(rhs, |out|)[j], out[j]);
    }
  }

  /** Folding, one dimension after another. */
  function FoldDims(lhs: Dims, rhs: Dims, out: Dims): (f: Folded)
    requires |lhs| == |rhs| == |out| > 0
    ensures |f.lhs| == |f.rhs| == |f.out| > 0
  {
    var n := |out| - 1;
    if n == 0 then Folded([lhs[0]], [rhs[0]], [out[0]])
    else
      NextFold(lhs, rhs, out, n, FoldDims(lhs[..n], rhs[..n], out[..n]))
  }

  /** Theorem: folding keeps the operand indices of every output element and leaves alternating directions. */
  lemma {:induction false} FoldDimsCorrect(lhs: Dims, rhs: Dims, out: Dims)
    requires AllMatch(lhs, rhs, out) && |out| > 0
    ensures Folds(lhs, rhs, out, FoldDims(lhs, rhs, out))
    ensures SameOperands(lhs, rhs, out, FoldDims(lhs, rhs, out))
  {
    var n := |out| - 1;
    if n == 0 {
      FoldOne(lhs, rhs, out);
    } else {
      var f := FoldDims(lhs[..n], rhs[..n], out[..n]);
      FoldDimsCorrect(lhs[..n], rhs[..n], out[..n]);
      FoldStepOf(lhs, rhs, out, f);
    }
  }

  lemma FoldOne(lhs: Dims, rhs: Dims, out: Dims)
    requires AllMatch(lhs, rhs, out) && |out| == 1
    ensures Folds(lhs, rhs, out, FoldDims(lhs, rhs, out)) && SameOperands(lhs, rhs, out, FoldDims(lhs, rhs, out))
  {
    FoldFirst(lhs[0], rhs[0], out[0]);
    assert lhs == [lhs[0]] && rhs == [rhs[0]] && out == [out[0]];
  }

  /** The step from the first n dimensions to n + 1. (The conclusions are equations so that each is proved
      as one fact.) */
  lemma FoldStepOf(lhs: Dims, rhs: Dims, out: Dims, f: Folded)
    requires AllMatch(lhs, rhs, out) && |out| > 1
    requires var n := |out| - 1; Folds(lhs[..n], rhs[..n], out[..n], f) && SameOperands(lhs[..n], rhs[..n], out[..n], f)
    ensures true == Folds(lhs, rhs, out, NextFold(lhs, rhs, out, |out| - 1, f))
    ensures true == SameOperands(lhs, rhs, out, NextFold(lhs, rhs, out, |out| - 1, f))
  {
    var n := |out| - 1;
    SplitLast(lhs);
    SplitLast(rhs);
    SplitLast(out);
    FoldStepFrom(lhs[..n], rhs[..n], out[..n], f, lhs[n], rhs[n], out[n], lhs, rhs, out);
  }

  lemma FoldStepFrom(lhs: Dims, rhs: Dims, out: Dims, f: Folded, l: nat, r: nat, o: nat, lhs': Dims, rhs': Dims,
                     out': Dims)
    requires true == Folds(lhs, rhs, out, f) && true == SameOperands(lhs, rhs, out, f) && Matches(l, r, o)
    requires lhs' == lhs + [l] && rhs' == rhs + [r] && out' == out + [o]
    requires |lhs| == |rhs| == |out| > 0 && |f.lhs| == |f.rhs| == |f.out| > 0
    ensures true == Folds(lhs', rhs', out', NextFold(lhs', rhs', out', |out|, f))
    ensures true == SameOperands(lhs', rhs', out', NextFold(lhs', rhs', out', |out|, f))
  {
    FoldStep(lhs, rhs, out, f, l, r, o);
  }

  lemma FoldStep(lhs: Dims, rhs: Dims, out: Dims, f: Folded, l: nat, r: nat, o: nat)
    requires Folds(lhs, rhs, out, f) && SameOperands(lhs, rhs, out, f) && Matches(l, r, o)
    ensures var same := BroadcastDirection(l, r) == BroadcastDirection(lhs[|lhs| - 1], rhs[|rhs| - 1]);
            var f' := if same then Grow(f, l, r, o) else Push(f, l, r, o);
            true == Folds(lhs + [l], rhs + [r], out + [o], f')
              && true == SameOperands(lhs + [l], rhs + [r], out + [o], f')
  {
    PushKeepsOperands(lhs, rhs, out, f, l, r, o);
    if BroadcastDirection(l, r) == BroadcastDirection(lhs[|lhs| - 1], rhs[|rhs| - 1]) {
      FoldGrow(lhs, rhs, out, f, l, r, o);
      GrowKeepsOperands(lhs + [l], rhs + [r], out + [o], f, l, r, o);
    } else {
      FoldPush(lhs, rhs, out, f, l, r, o);
    }
  }

  function NextFold(lhs: Dims, rhs: Dims, out: Dims, i: nat, f: Folded): Folded
    requires |lhs| == |rhs| == |out| && 0 < i < |out| && |f.lhs| == |f.rhs| == |f.out| > 0
  {
    if BroadcastDirection(lhs[i], rhs[i]) == BroadcastDirection(lhs[i - 1], rhs[i - 1])
    then Grow(f, lhs[i], rhs[i], out[i])
    else Push(f, lhs[i], rhs[i], out[i])
  }

  /** The folds of all the prefixes. */
  lemma {:induction false} FoldTrace(lhs: Dims, rhs: Dims, out: Dims) returns (trace: seq<Folded>)
    requires |lhs| == |rhs| == |out| > 0
    ensures |trace| == |out| && trace[0] == Folded([lhs[0]], [rhs[0]], [out[0]])
    ensures forall i :: 0 <= i < |out| ==> |trace[i].lhs| == |trace[i].rhs| == |trace[i].out| > 0
    ensures forall i :: 0 < i < |out| ==> trace[i] == NextFold(lhs, rhs, out, i, trace[i - 1])
    ensures trace[|out| - 1] == FoldDims(lhs, rhs, out)
  {
    var n := |out| - 1;
    if n == 0 {
      trace := [FoldDims(lhs, rhs, out)];
    } else {
      var before := FoldTrace(lhs[..n], rhs[..n], out[..n]);
      trace := before + [FoldDims(lhs, rhs, out)];
      forall i | 0 < i < n
        ensures trace[i] == NextFold(lhs, rhs, out, i, trace[i - 1])
      {
        assert before[i] == NextFold(lhs[..n], rhs[..n], out[..n], i, before[i - 1]);
      }
    }
  }

  /** Folds neighbouring dimensions of equal direction. */
  method Fold(lhs: Dims, rhs: Dims, out: Dims) returns (f: Folded)
    requires |lhs| == |rhs| == |out| > 0
    ensures f == FoldDims(lhs, rhs, out)
  {
    var foldedLhs, foldedRhs, foldedOut := [lhs[0]], [rhs[0]], [out[0]];
    var prevDir := BroadcastDirection(lhs[0], rhs[0]);
    ghost var trace := FoldTrace(lhs, rhs, out);
    for i := 1 to |out|
      invariant Folded(foldedLhs, foldedRhs, foldedOut) == trace[i - 1]
      invariant prevDir == BroadcastDirection(lhs[i - 1], rhs[i - 1])
    {
      var bcastDir := BroadcastDirection(lhs[i], rhs[i]);
      assert trace[i] == NextFold(lhs, rhs, out, i, trace[i - 1]);
      if prevDir == bcastDir {
        foldedLhs := GrowLast(foldedLhs, lhs[i]);
        foldedRhs := GrowLast(foldedRhs, rhs[i]);
        foldedOut := GrowLast(foldedOut, out[i]);
      } else {
        foldedLhs := foldedLhs + [lhs[i]];
        foldedRhs := foldedRhs + [rhs[i]];
        foldedOut := foldedOut + [out[i]];
      }
      prevDir := bcastDir;
    }
    f := Folded(foldedLhs, foldedRhs, foldedOut);
  }

  /** A folded dimension in which one operand is broadcast, and whether that is the left one. */
  datatype Broadcast = Broadcast(dim: nat, lhs: bool)

  ghost predicate ListsBroadcasts(f: Folded, n: nat, bs: seq<Broadcast>)
    requires n <= |f.out| && |f.lhs| == |f.rhs| == |f.out|
  {
    && (forall k :: 0 <= k < |bs| ==>
        bs[k].dim < n && f.Direction(bs[k].dim) != 0 && (bs[k].lhs <==> f.Direction(bs[k].dim) == -1))
    && (forall k, k' :: 0 <= k < k' < |bs| ==> bs[k].dim < bs[k'].dim)
    && (forall i :: 0 <= i < n && f.Direction(i) != 0 ==> exists k :: 0 <= k < |bs| && bs[k].dim == i)
  }

  method BroadcastDims(f: Folded) returns (bs: seq<Broadcast>)
    requires f.Valid()
    ensures ListsBroadcasts(f, |f.out|, bs)
  {
    bs := [];
    for i := 0 to |f.out|
      invariant ListsBroadcasts(f, i, bs)
    {
      DirectionOfBroadcast(f, i);
      if f.lhs[i] != f.rhs[i] {
        assert f.lhs[i] == 1 || f.rhs[i] == 1;
        AppendBroadcast(f, i, bs, Broadcast(i, f.lhs[i] == 1));
        bs := bs + [Broadcast(i, f.lhs[i] == 1)];
      }
    }
  }

  lemma AppendBroadcast(f: Folded, i: nat, bs: seq<Broadcast>, b: Broadcast)
    requires |f.lhs| == |f.rhs| == |f.out| && i < |f.out| && ListsBroadcasts(f, i, bs)
    requires b.dim == i && f.Direction(i) != 0 && (b.lhs <==> f.Direction(i) == -1)
    ensures ListsBroadcasts(f, i + 1, bs + [b])
  {
    var after := bs + [b];
    assert after[|bs|] == b;
    forall j | 0 <= j < i && f.Direction(j) != 0
      ensures exists k :: 0 <= k < |after| && after[k].dim == j
    {
      var k :| 0 <= k < |bs| && bs[k].dim == j;
      assert after[k].dim == j;
    }
  }

  lemma DirectionOfBroadcast(f: Folded, i: nat)
    requires f.Valid() && i < |f.out|
    ensures f.Direction(i) != 0 <==> f.lhs[i] != f.rhs[i]
    ensures f.lhs[i] != f.rhs[i] ==> (f.lhs[i] == 1 || f.rhs[i] == 1) && (f.lhs[i] == 1 <==> f.Direction(i) == -1)
  {
    assert Matches(f.lhs[i], f.rhs[i], f.out[i]);
  }

  /** Theorem: without broadcast dimensions the folded rank is one; with exactly one of them, the others
      (at most one on each side) surround it. */
  lemma FoldedShape(f: Folded, bs: seq<Broadcast>)
    requires f.Valid() && |f.out| > 0 && ListsBroadcasts(f, |f.out|, bs)
    ensures |bs| == 0 ==> |f.out| == 1
    ensures |bs| == 1 ==> bs[0].dim <= 1 && bs[0].dim + 1 <= |f.out| <= bs[0].dim + 2
    ensures |bs| <= 1 ==> forall i :: 0 <= i < |f.out| && (|bs| == 1 ==> i != bs[0].dim) ==>
            f.lhs[i] == f.rhs[i] == f.out[i]
  {
    if |bs| <= 1 {
      forall i | 0 <= i < |f.out| && (|bs| == 1 ==> i != bs[0].dim)
        ensures f.Direction(i) == 0 && f.lhs[i] == f.rhs[i] == f.out[i]
      {
        assert Matches(f.lhs[i], f.rhs[i], f.out[i]);
      }
      if |f.out| > 1 {
        NeighboursDiffer(f, 0);
      }
      if |f.out| > 2 {
        NeighboursDiffer(f, 1);
      }
      if |f.out| > 3 {
        NeighboursDiffer(f, 2);
      }
    }
  }

  lemma NeighboursDiffer(f: Folded, i: nat)
    requires f.Valid() && i + 1 < |f.out|
    ensures f.Direction(i) != f.Direction(i + 1)
  {
  }

  // ---------------------------------------------------------------- normalisation to rank 2 or 3

  lemma {:induction false} PadFront(dims: Dims, outDims: Dims, x: int)
    requires |dims| == |outDims| && Positive(outDims)
    ensures Positive([1] + outDims)
    ensures BroadcastIndex([1] + dims, [1] + outDims, x) == BroadcastIndex(dims, outDims, x)
    ensures Total([1] + dims) == Total(dims)
  {
    if dims == [] {
      assert ([1] + dims)[..0] == [] && ([1] + outDims)[..0] == [];
      assert Total([1]) == Product(Total([]), 1);
    } else {
      var n := |dims| - 1;
      PadFront(dims[..n], outDims[..n], x / outDims[n]);
      assert ([1] + dims)[..n + 1] == [1] + dims[..n] && ([1] + outDims)[..n + 1] == [1] + outDims[..n];
    }
  }

  /** One broadcast dimension, in the middle of three or last of two. */
  ghost predicate Normal(f: Folded, bcastLhs: bool)
  {
    && |f.lhs| == |f.rhs| == |f.out| && 2 <= |f.out| <= 3
    && (forall i :: 0 <= i < |f.out| ==> Matches(f.lhs[i], f.rhs[i], f.out[i]))
    && (if bcastLhs then f.lhs[1] == 1 && f.rhs == f.out else f.rhs[1] == 1 && f.lhs == f.out)
    && (forall i :: 0 <= i < |f.out| && i != 1 ==> f.lhs[i] == f.rhs[i])
  }

  lemma PadFrontKeepsOperands(f: Folded)
    requires AllMatch(f.lhs, f.rhs, f.out)
    ensures SameOperands(f.lhs, f.rhs, f.out, Folded([1] + f.lhs, [1] + f.rhs, [1] + f.out))
  {
    var g := Folded([1] + f.lhs, [1] + f.rhs, [1] + f.out);
    forall x: nat
      ensures Positive(g.out) && SameIndices(f.lhs, f.rhs, f.out, g, x)
    {
      PadFront(f.lhs, f.out, x);
      PadFront(f.rhs, f.out, x);
    }
    PadFront(f.lhs, f.out, 0);
    PadFront(f.rhs, f.out, 0);
    PadFront(f.out, f.out, 0);
  }

  lemma DropUnitKeepsOperands(f: Folded)
    requires AllMatch(f.lhs, f.rhs, f.out) && |f.out| > 0
    requires var n := |f.out| - 1; f.lhs[n] == f.rhs[n] == f.out[n] == 1
    ensures var n := |f.out| - 1; SameOperands(f.lhs, f.rhs, f.out, Folded(f.lhs[..n], f.rhs[..n], f.out[..n]))
  {
  }

  lemma SameOperandsTransitive(lhs: Dims, rhs: Dims, out: Dims, f: Folded, g: Folded)
    requires SameOperands(lhs, rhs, out, f) && SameOperands(f.lhs, f.rhs, f.out, g)
    ensures SameOperands(lhs, rhs, out, g)
  {
    forall x: nat
      ensures SameIndices(lhs, rhs, out, g, x)
    {
      assert SameIndices(lhs, rhs, out, f, x) && SameIndices(f.lhs, f.rhs, f.out, g, x);
    }
  }

  /** What normalisation makes of folded dimensions with one broadcast. */
  function Normalised(f: Folded, atFront: bool): Folded
    requires |f.lhs| == |f.rhs| == |f.out|
  {
    var g := if atFront then Folded([1] + f.lhs, [1] + f.rhs, [1] + f.out) else f;
    if |g.out| == 3 && g.out[2] == 1 then Folded(g.lhs[..2], g.rhs[..2], g.out[..2]) else g
  }

  lemma NormalisedShape(f: Folded, b: Broadcast)
    requires f.Valid() && |f.out| > 0 && ListsBroadcasts(f, |f.out|, [b])
    ensures Normal(Normalised(f, b.dim == 0), b.lhs)
  {
    FoldedShape(f, [b]);
    assert [b][0] == b;
    assert Matches(f.lhs[b.dim], f.rhs[b.dim], f.out[b.dim]);
  }

  lemma NormalisedOperands(f: Folded, b: Broadcast)
    requires f.Valid() && |f.out| > 0 && ListsBroadcasts(f, |f.out|, [b])
    ensures SameOperands(f.lhs, f.rhs, f.out, Normalised(f, b.dim == 0))
  {
    var g := if b.dim == 0 then Folded([1] + f.lhs, [1] + f.rhs, [1] + f.out) else f;
    FoldedShape(f, [b]);
    if b.dim == 0 {
      PadFrontKeepsOperands(f);
    }
    assert AllMatch(g.lhs, g.rhs, g.out);
    if |g.out| == 3 && g.out[2] == 1 {
      assert Matches(g.lhs[2], g.rhs[2], g.out[2]);
      DropUnitKeepsOperands(g);
      SameOperandsTransitive(f.lhs, f.rhs, f.out, g, Normalised(f, b.dim == 0));
    }
  }

  method Normalise(f: Folded, b: Broadcast) returns (g: Folded)
    requires f.Valid() && |f.out| > 0 && ListsBroadcasts(f, |f.out|, [b])
    ensures g == Normalised(f, b.dim == 0)
  {
    var lhs, rhs, out := f.lhs, f.rhs, f.out;
    if b.dim == 0 {
      lhs, rhs, out := [1] + lhs, [1] + rhs, [1] + out;
    }
    if |out| == 3 && out[|out| - 1] == 1 {
      lhs, rhs, out := lhs[..|lhs| - 1], rhs[..|rhs| - 1], out[..|out| - 1];
    }
    g := Folded(lhs, rhs, out);
  }
}
