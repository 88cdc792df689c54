/** Choosing the work-group of the filter-backprop kernel: a power of two of batch items times a
    power of two of column items, halved alternately until the product fits the device. */
module WorkgroupSizing {
  import opened Arithmetic
  import opened Sums
  import opened FastDivision
  import opened WorkgroupReduce

  /** The largest power of two that does not exceed val. */
  function Pow2LessThan(val: nat): (r: nat)
    requires val > 0
    ensures r <= val < 2 * r
    ensures r == Pow2(Up(val) - 1)
  {
    Pow2(Up(val) - 1)
  }

  /** With a device limit of one work-item the loop can overshoot: it drives the column count to zero
      when at least four batch items meet at least half as many columns. */
  predicate SizingSucceeds(limit: nat, batchItems: nat, colItems: nat)
  {
    limit >= 2 || batchItems < 4 || 2 * colItems < batchItems
  }

  /** The smallest failing request: four images and two filter columns on a device whose work-groups hold
      one item. */
  lemma SizingFails()
    ensures !SizingSucceeds(Pow2LessThan(1), Pow2LessThan(4), Pow2LessThan(2))
  {
    UpUnique(1, 1);
    UpUnique(2, 2);
    UpUnique(4, 3);
  }

  /** The same condition part-way through, on exponents and the loop's flag. */
  predicate Overshoots(i: nat, j: nat, divBatch: bool)
  {
    if divBatch then i >= 2 && j >= i - 1 else i == 1 || (i >= 2 && j >= i)
  }

  lemma OvershootsAtStart(i: nat, j: nat)
    ensures Overshoots(i, j, Pow2(i) > 1) <==> Pow2(i) >= 4 && 2 * Pow2(j) >= Pow2(i)
  {
  }

  lemma Pow2Order(a: nat, b: nat)
    ensures Pow2(a) > Pow2(b) <==> a > b
  {
  }

  /** Both factors as powers of two; colItems == 0 is the overshoot. */
  ghost predicate Shaped(batchItems: nat, colItems: nat, i: nat, j: nat)
  {
    batchItems == Pow2(i) && colItems == Pow2(j) && batchItems * colItems == Pow2(i + j)
  }

  lemma ShapedPowers(i: nat, j: nat)
    ensures Shaped(Pow2(i), Pow2(j), i, j)
  {
    Pow2Add(i, j);
  }

  /** What the loop maintains; `whole` is the exponent of the product it started from, 2^m the limit. */
  ghost predicate Sizing(m: nat, whole: nat, succeeds: bool, batchItems: nat, colItems: nat, i: nat, j: nat,
                         divBatch: bool)
  {
    if colItems == 0 then m == 0 && !succeeds
    else
      && Shaped(batchItems, colItems, i, j)
      && (if m == 0 then Overshoots(i, j, divBatch) <==> !succeeds else succeeds)
      && (divBatch ==> i >= 1 || j == 0) && (!divBatch ==> j >= 1 || i <= 1)
      && (i + j == whole || m <= i + j < whole)
  }

  lemma SizingStarts(limit: nat, m: nat, b0: nat, c0: nat, i: nat, j: nat)
    requires limit == Pow2(m) && b0 == Pow2(i) && c0 == Pow2(j)
    ensures Sizing(m, i + j, SizingSucceeds(limit, b0, c0), b0, c0, i, j, b0 > 1)
  {
    ShapedPowers(i, j);
    OvershootsAtStart(i, j);
    Pow2Order(i, 0);
    Pow2Order(m, 0);
  }

  /** Halving the batch items, and the flag that follows. */
  lemma HalveBatch(m: nat, whole: nat, succeeds: bool, b: nat, c: nat, i: nat, j: nat)
    requires Sizing(m, whole, succeeds, b, c, i, j, true) && c > 0 && b * c > Pow2(m)
    ensures i > 0 && Sizing(m, whole, succeeds, b / 2, c, i - 1, j, c < 2)
  {
    Pow2Order(i + j, m);
    Pow2Order(1, j);
    ShapedPowers(i - 1, j);
  }

  /** Halving the column items; from one column it overshoots to none. */
  lemma HalveCols(m: nat, whole: nat, succeeds: bool, b: nat, c: nat, i: nat, j: nat)
    requires Sizing(m, whole, succeeds, b, c, i, j, false) && c > 0 && b * c > Pow2(m)
    ensures Sizing(m, whole, succeeds, b, c / 2, i, if j > 0 then j - 1 else 0, b > 2)
  {
    Pow2Order(i + j, m);
    Pow2Order(i, 1);
    if j > 0 {
      ShapedPowers(i, j - 1);
    }
  }

  lemma SizingEnds(limit: nat, m: nat, b0: nat, c0: nat, i0: nat, j0: nat, b: nat, c: nat, i: nat, j: nat,
                   divBatch: bool)
    requires limit == Pow2(m) && Shaped(b0, c0, i0, j0) && b <= b0 && c <= c0
    requires Sizing(m, i0 + j0, SizingSucceeds(limit, b0, c0), b, c, i, j, divBatch) && b * c <= limit
    ensures SizingSucceeds(limit, b0, c0) <==> c > 0
    ensures c > 0 ==> Product(b, c) == Pow2(i + j) == Min(Product(b0, c0), limit)
  {
    if c > 0 {
      Pow2Order(i + j, m);
      Pow2Order(i0 + j0, m);
    }
  }

  /** The loop: halves either factor in turn until the product is within the limit. */
  method HalveUntilFits(limit: nat, b0: nat, c0: nat, ghost m: nat, ghost i0: nat, ghost j0: nat)
    returns (batchItems: nat, colItems: nat, ghost n: nat)
    requires limit == Pow2(m) && b0 == Pow2(i0) && c0 == Pow2(j0)
    ensures batchItems <= b0 && colItems <= c0
    ensures colItems > 0 <==> SizingSucceeds(limit, b0, c0)
    ensures colItems > 0 ==> Product(batchItems, colItems) == Pow2(n) == Min(Product(b0, c0), limit)
  {
    batchItems, colItems := b0, c0;
    ghost var i, j, succeeds := i0, j0, SizingSucceeds(limit, b0, c0);
    SizingStarts(limit, m, b0, c0, i, j);
    ShapedPowers(i, j);
    var divBatch := batchItems > 1;
    // (The invariant is an equation so that it is proved as one fact.)
    while batchItems * colItems > limit
      invariant true == Sizing(m, i0 + j0, succeeds, batchItems, colItems, i, j, divBatch)
      invariant batchItems <= b0 && colItems <= c0
      decreases batchItems + colItems
    {
      ProductPositive(batchItems, colItems);
      if divBatch {
        HalveBatch(m, i0 + j0, succeeds, batchItems, colItems, i, j);
        batchItems := batchItems / 2;
        divBatch := colItems < 2;
        i := i - 1;
      } else {
        HalveCols(m, i0 + j0, succeeds, batchItems, colItems, i, j);
        colItems := colItems / 2;
        divBatch := batchItems > 2;
        j := if j > 0 then j - 1 else 0;
      }
    }
    n := i + j;
    SizingEnds(limit, m, b0, c0, i0, j0, batchItems, colItems, i, j, divBatch);
  }

  /** Theorem: the loop ends, never raises a factor, and leaves a power of two of items, as many as the starting
      point and the limit allow; or, exactly when sizing does not succeed, no items at all. */
  method SizeWorkgroup(maxWorkgroupSize: nat, batch: nat, outCols: nat)
    returns (batchItems: nat, colItems: nat, ghost n: nat)
    requires maxWorkgroupSize > 0 && batch > 0 && outCols > 0
    ensures batchItems <= Pow2LessThan(batch) && colItems <= Pow2LessThan(outCols)
    ensures var limit, b0, c0 := Pow2LessThan(maxWorkgroupSize), Pow2LessThan(batch), Pow2LessThan(outCols);
            colItems > 0 <==> limit >= 2 || b0 < 4 || 2 * c0 < b0
    ensures colItems > 0 ==>
              Product(batchItems, colItems) == Pow2(n)
              == Min(Product(Pow2LessThan(batch), Pow2LessThan(outCols)), Pow2LessThan(maxWorkgroupSize))
  {
    batchItems, colItems, n := HalveUntilFits(Pow2LessThan(maxWorkgroupSize), Pow2LessThan(batch), Pow2LessThan(outCols),
                                              Up(maxWorkgroupSize) - 1, Up(batch) - 1, Up(outCols) - 1);
  }

  lemma ProductPositive(a: nat, b: nat)
    requires a * b > 0
    ensures a > 0 && b > 0
  {
  }
}
