/** The multi-pass reduction by sub-groups, for inner size one: each pass replaces every sub-group of a row
    by its combined value, alternating between two buffers, until one value per row is left. */
module SubgroupReduction {
  import opened Arithmetic
  import opened Sums
  import opened Reduction
  import opened OptionalFolds
  import opened SubgroupRanges

  /** A part of a buffer that holds rows of `stride` elements. */
  datatype View = View(offset: nat, rows: nat, stride: nat) {
    ghost predicate Inside(size: nat) { offset + Product(rows, stride) <= size }

    function Start(row: nat): nat
    {
      ProductSign(row, stride);
      offset + row * stride
    }

    ghost predicate Contains(k: int) { offset <= k < offset + Product(rows, stride) }

    predicate Disjoint(other: View)
    {
      offset + Product(rows, stride) <= other.offset || other.offset + Product(other.rows, other.stride) <= offset
    }

    lemma RowInside(row: nat, n: nat)
      requires row < rows && n <= stride
      ensures Start(row) + n <= offset + Product(rows, stride)
    {
      MulMono(row + 1, rows, stride);
      MulDist(stride, row, 1);
    }
  }

  /** The parameters of one pass. */
  datatype Pass = Pass(op: Op, range: nat, local: nat, s: nat, reduceSize: nat, source: View, target: View) {
    ghost predicate Valid(srcSize: nat, dstSize: nat, aliased: bool)
    {
      && s > 0 && SuitableLocal(range, local, s) && reduceSize <= range && reduceSize <= source.stride
      && source.rows == target.rows && DivideCeil(range, s) <= target.stride
      && source.Inside(srcSize) && target.Inside(dstSize) && (aliased ==> source.Disjoint(target))
    }

    /** Where work-item id stores. */
    function Slot(id: Item): int
      requires s > 0
    {
      target.Start(id.row) + id.col / s
    }
  }

  /** The first n elements from `start`, joined. */
  ghost function RowJoin(op: Op, x: seq<real>, start: int, n: nat): Partial
  {
    Joined(op, n, i => Value(At(x, start + i)))
  }

  /** The value that work-item `id` of row b brings: zero past the elements to be reduced. */
  ghost function Brought(t: Pass, x: seq<real>, b: nat, id: int): real
  {
    if 0 <= id < t.reduceSize then At(x, t.source.Start(b) + id) else 0.0
  }

  /** The same, for the members of the sub-group of `member` only. */
  ghost function BroughtTo(t: Pass, x: seq<real>, b: nat, member: nat, id: int): Partial
    requires t.local > 0 && t.s > 0
  {
    if id >= 0 && SameSubgroup(id, member, t.local, t.s) then Value(Brought(t, x, b, id)) else Nothing
  }

  /** What the members of a sub-group reduce their values to. */
  ghost function GroupJoin(t: Pass, x: seq<real>, b: nat, member: nat, n: nat): Partial
    requires t.local > 0 && t.s > 0
  {
    Joined(t.op, n, id => BroughtTo(t, x, b, member, id))
  }

  ghost function GroupValue(t: Pass, x: seq<real>, id: Item): Partial
    requires t.local > 0 && t.s > 0
  {
    GroupJoin(t, x, id.row, id.col, t.range)
  }

  /** A work-item is a member of its own sub-group, so there is something to reduce. */
  lemma GroupHasValue(t: Pass, x: seq<real>, id: Item)
    requires t.local > 0 && t.s > 0 && id.col < t.range
    ensures GroupValue(t, x, id).Value?
  {
    JoinedPresent(t.op, t.range, id.col, y => BroughtTo(t, x, id.row, id.col, y));
  }

  lemma NextMember(t: Pass, x: seq<real>, b: nat, member: nat, n: nat)
    requires t.local > 0 && t.s > 0
    ensures GroupJoin(t, x, b, member, n + 1)
            == Join(t.op, GroupJoin(t, x, b, member, n), BroughtTo(t, x, b, member, n))
  {
  }

  /** The collective reduction: every work-item learns the combined value of its own sub-group. */
  method SubgroupReduce(t: Pass, id: Item, src: array<real>) returns (total: real)
    requires t.local > 0 && t.s > 0 && t.reduceSize <= t.source.stride && t.source.Inside(src.Length)
    requires id.row < t.source.rows && id.col < t.range
    ensures Value(total) == GroupValue(t, src[..], id)
  {
    t.source.RowInside(id.row, t.reduceSize);
    var start := t.source.Start(id.row);
    var joined := Nothing;
    for y := 0 to t.range
      invariant joined == GroupJoin(t, src[..], id.row, id.col, y)
    {
      NextMember(t, src[..], id.row, id.col, y);
      if SameSubgroup(y, id.col, t.local, t.s) {
        var inputVal := if y < t.reduceSize then src[start + y] else 0.0;
        joined := Join(t.op, joined, Value(inputVal));
      }
    }
    GroupHasValue(t, src[..], id);
    total := joined.v;
  }

  lemma ChunkBelow(range: nat, s: nat, id: nat)
    requires s > 0 && id < range
    ensures 0 <= id / s < DivideCeil(range, s)
  {
    QuotientNonNegative(id, s);
    QuotientBelow(id, s, DivideCeil(range, s));
  }

  /** One work-item: stores what its sub-group was reduced to. */
  method SubgroupItem(t: Pass, id: Item, src: array<real>, dst: array<real>)
    requires t.Valid(src.Length, dst.Length, src == dst) && id.row < t.source.rows && id.col < t.range
    modifies dst
    ensures t.target.Contains(t.Slot(id)) && 0 <= t.Slot(id) < dst.Length
    ensures GroupValue(t, old(src[..]), id).Value?
    ensures dst[..] == old(dst[..])[t.Slot(id) := GroupValue(t, old(src[..]), id).v]
  {
    var total := SubgroupReduce(t, id, src);
    SlotInside(t, id, dst.Length);
    dst[t.Slot(id)] := total;
  }

  lemma SlotInside(t: Pass, id: Item, size: nat)
    requires t.s > 0 && id.col < t.range && id.row < t.target.rows && DivideCeil(t.range, t.s) <= t.target.stride
    requires t.target.Inside(size)
    ensures t.target.Contains(t.Slot(id)) && 0 <= t.Slot(id) < size
  {
    ChunkBelow(t.range, t.s, id.col);
    t.target.RowInside(id.row, id.col / t.s + 1);
  }

  /** Work-items store to one slot only if they share a sub-group, and then they store one value. */
  lemma OneSlotOneValue(t: Pass, x: seq<real>, id: Item, id': Item)
    requires t.s > 0 && SuitableLocal(t.range, t.local, t.s) && DivideCeil(t.range, t.s) <= t.target.stride
    requires id.col < t.range && id'.col < t.range && t.Slot(id) == t.Slot(id')
    ensures GroupValue(t, x, id) == GroupValue(t, x, id')
  {
    ChunkBelow(t.range, t.s, id.col);
    ChunkBelow(t.range, t.s, id'.col);
    SameSlot(id.row, id.col / t.s, id'.row, id'.col / t.s, t.target.stride);
    var f, g := y => BroughtTo(t, x, id.row, id.col, y), y => BroughtTo(t, x, id'.row, id'.col, y);
    forall y | 0 <= y < t.range
      ensures f(y) == g(y)
    {
      SubgroupsAreChunks(t.range, t.local, t.s, y, id.col);
      SubgroupsAreChunks(t.range, t.local, t.s, y, id'.col);
    }
    JoinedExt(t.op, t.range, f, g);
  }

  /** Sub-groups read the source only. */
  lemma SameGroupValue(t: Pass, x: seq<real>, x': seq<real>, id: Item)
    requires t.local > 0 && t.s > 0 && t.reduceSize <= t.source.stride && id.row < t.source.rows
    requires forall k :: t.source.Contains(k) ==> At(x, k) == At(x', k)
    ensures GroupValue(t, x, id) == GroupValue(t, x', id)
  {
    t.source.RowInside(id.row, t.reduceSize);
    var f, g := y => BroughtTo(t, x, id.row, id.col, y), y => BroughtTo(t, x', id.row, id.col, y);
    forall y | 0 <= y < t.range
      ensures f(y) == g(y)
    {
      assert Brought(t, x, id.row, y) == Brought(t, x', id.row, y);
    }
    JoinedExt(t.op, t.range, f, g);
  }

  /** The first n work-items have stored their values, and nothing outside the target has changed. */
  ghost predicate Stored(t: Pass, order: seq<Item>, n: nat, x: seq<real>, before: seq<real>, after: seq<real>)
    requires t.local > 0 && t.s > 0
  {
    && |after| == |before|
    && (forall i :: 0 <= i < n && i < |order| ==> Value(At(after, t.Slot(order[i]))) == GroupValue(t, x, order[i]))
    && (forall k :: 0 <= k < |after| && !t.target.Contains(k) ==> after[k] == before[k])
  }

  lemma StoreStep(t: Pass, order: seq<Item>, n: nat, x: seq<real>, before: seq<real>, mid: seq<real>,
                  after: seq<real>, v: real)
    requires t.s > 0 && t.local > 0 && n < |order| && Stored(t, order, n, x, before, mid)
    requires t.target.Contains(t.Slot(order[n])) && 0 <= t.Slot(order[n]) < |mid|
    requires after == mid[t.Slot(order[n]) := v] && Value(v) == GroupValue(t, x, order[n])
    requires forall i :: 0 <= i < n && t.Slot(order[i]) == t.Slot(order[n]) ==>
               GroupValue(t, x, order[i]) == GroupValue(t, x, order[n])
    ensures Stored(t, order, n + 1, x, before, after)
  {
    forall i | 0 <= i < n + 1
      ensures Value(At(after, t.Slot(order[i]))) == GroupValue(t, x, order[i])
    {
    }
  }

  /** Writing to the target leaves the source rows alone. */
  lemma SourceKept(t: Pass, x: seq<real>, src: seq<real>, aliased: bool, before: seq<real>, mid: seq<real>)
    requires aliased ==> x == before && src == mid && t.source.Disjoint(t.target)
    requires !aliased ==> x == src
    requires |mid| == |before| && forall k :: 0 <= k < |mid| && !t.target.Contains(k) ==> mid[k] == before[k]
    ensures forall k :: t.source.Contains(k) ==> At(x, k) == At(src, k)
  {
  }

  /** Theorem: a pass keeps what every row combines to, up to the zero that surplus work-items bring, while
      making the rows shorter, in whatever order its work-items run. */
  method RunPass(t: Pass, order: seq<Item>, src: array<real>, dst: array<real>)
    requires t.Valid(src.Length, dst.Length, src == dst)
    requires IsSchedule(order, t.source.rows, t.range)
    modifies dst
    ensures forall b: nat :: b < t.source.rows ==>
              RowJoin(t.op, dst[..], t.target.Start(b), DivideCeil(t.range, t.s))
              == Padded(t.op, RowJoin(t.op, old(src[..]), t.source.Start(b), t.reduceSize), t.reduceSize < t.range)
    ensures forall k :: 0 <= k < dst.Length && !t.target.Contains(k) ==> dst[k] == old(dst[k])
  {
    ghost var x, before := src[..], dst[..];
    for n := 0 to |order|
      invariant true == Stored(t, order, n, x, before, dst[..])
    {
      RunOne(t, order, n, x, before, src, dst);
    }
    forall b: nat | b < t.source.rows
      ensures RowJoin(t.op, dst[..], t.target.Start(b), DivideCeil(t.range, t.s))
              == Padded(t.op, RowJoin(t.op, x, t.source.Start(b), t.reduceSize), t.reduceSize < t.range)
    {
      RowDone(t, order, x, before, dst[..], b);
    }
  }

  method RunOne(t: Pass, order: seq<Item>, n: nat, ghost x: seq<real>, ghost before: seq<real>,
                src: array<real>, dst: array<real>)
    requires t.Valid(src.Length, dst.Length, src == dst) && n < |order|
    requires forall i :: 0 <= i < |order| ==> order[i].row < t.source.rows && order[i].col < t.range
    requires Stored(t, order, n, x, before, dst[..]) && (if src == dst then x == before else x == src[..])
    modifies dst
    ensures Stored(t, order, n + 1, x, before, dst[..])
  {
    ghost var mid := dst[..];
    SourceKept(t, x, src[..], src == dst, before, mid);
    SameGroupValue(t, x, src[..], order[n]);
    SubgroupItem(t, order[n], src, dst);
    forall i | 0 <= i < n && t.Slot(order[i]) == t.Slot(order[n])
      ensures GroupValue(t, x, order[i]) == GroupValue(t, x, order[n])
    {
      OneSlotOneValue(t, x, order[i], order[n]);
    }
    StoreStep(t, order, n, x, before, mid, dst[..], GroupValue(t, x, order[n]).v);
  }

  lemma ChunkInRange(range: nat, s: nat, j: nat)
    requires s > 0 && j < DivideCeil(range, s)
    ensures 0 <= j * s < range && (j * s) / s == j
  {
    ProductSign(j, s);
    MulMono(j + 1, DivideCeil(range, s), s);
    MulDist(s, j, 1);
    DivModOfSum(j, s, 0);
  }

  /** Once all work-items have stored, slot j of a row holds the value of the j-th sub-group. */
  lemma SlotDone(t: Pass, order: seq<Item>, x: seq<real>, before: seq<real>, after: seq<real>, b: nat, j: nat)
    requires t.s > 0 && t.local > 0 && b < t.source.rows && IsSchedule(order, t.source.rows, t.range)
    requires Stored(t, order, |order|, x, before, after) && j < DivideCeil(t.range, t.s)
    ensures 0 <= j * t.s < t.range
    ensures Value(At(after, t.target.Start(b) + j)) == GroupJoin(t, x, b, j * t.s, t.range)
  {
    ChunkInRange(t.range, t.s, j);
    var id := Item(b, j * t.s);
    var i :| 0 <= i < |order| && order[i] == id;
    assert t.Slot(id) == t.target.Start(b) + j;
  }

  /** The sub-groups together have every work-item of the row once. */
  lemma GroupsPartitionRow(t: Pass, x: seq<real>, b: nat, groups: int -> Partial)
    requires t.s > 0 && SuitableLocal(t.range, t.local, t.s)
    requires forall j: nat :: j < DivideCeil(t.range, t.s) ==>
               0 <= j * t.s && groups(j) == GroupJoin(t, x, b, j * t.s, t.range)
    ensures Joined(t.op, DivideCeil(t.range, t.s), groups) == Joined(t.op, t.range, id => Value(Brought(t, x, b, id)))
  {
    var c := DivideCeil(t.range, t.s);
    var table: Table := (j, id) => if j >= 0 && j * t.s >= 0 then BroughtTo(t, x, b, j * t.s, id) else Nothing;
    var all := id => Value(Brought(t, x, b, id));
    forall j: nat | j < c
      ensures groups(j) == RowJoined(t.op, t.range, table, j)
    {
      JoinedExt(t.op, t.range, id => BroughtTo(t, x, b, j * t.s, id), id => table(j, id));
    }
    forall id: nat | id < t.range
      ensures all(id) == ColumnJoined(t.op, c, table, id)
    {
      OneGroupHas(t, x, b, id, c, j => table(j, id));
    }
    JoinedSwap(t.op, c, t.range, table, groups, all);
  }

  /** Work-item id belongs to sub-group id / s and to no other. */
  lemma OneGroupHas(t: Pass, x: seq<real>, b: nat, id: nat, c: nat, column: int -> Partial)
    requires t.s > 0 && SuitableLocal(t.range, t.local, t.s) && id < t.range && c == DivideCeil(t.range, t.s)
    requires forall j: nat :: j < c ==> j * t.s >= 0 && column(j) == BroughtTo(t, x, b, j * t.s, id)
    ensures Joined(t.op, c, column) == Value(Brought(t, x, b, id))
  {
    ChunkBelow(t.range, t.s, id);
    forall j: nat | j < c
      ensures column(j) == if j == id / t.s then Value(Brought(t, x, b, id)) else Nothing
    {
      ChunkInRange(t.range, t.s, j);
      SubgroupsAreChunks(t.range, t.local, t.s, id, j * t.s);
    }
    JoinedOne(t.op, c, id / t.s, column);
  }

  lemma RowDone(t: Pass, order: seq<Item>, x: seq<real>, before: seq<real>, after: seq<real>, b: nat)
    requires t.s > 0 && SuitableLocal(t.range, t.local, t.s) && t.reduceSize <= t.range && b < t.source.rows
    requires IsSchedule(order, t.source.rows, t.range) && Stored(t, order, |order|, x, before, after)
    ensures RowJoin(t.op, after, t.target.Start(b), DivideCeil(t.range, t.s))
            == Padded(t.op, RowJoin(t.op, x, t.source.Start(b), t.reduceSize), t.reduceSize < t.range)
  {
    var groups := j => Value(At(after, t.target.Start(b) + j));
    forall j: nat | j < DivideCeil(t.range, t.s)
      ensures 0 <= j * t.s && groups(j) == GroupJoin(t, x, b, j * t.s, t.range)
    {
      SlotDone(t, order, x, before, after, b, j);
    }
    GroupsPartitionRow(t, x, b, groups);
    var all := id => Value(Brought(t, x, b, id));
    JoinedZeros(t.op, t.reduceSize, t.range, all);
    JoinedExt(t.op, t.reduceSize, all, i => Value(At(x, t.source.Start(b) + i)));
  }

  /** Every row of the view has been reduced to n elements that combine to what the row of the input does,
      up to a zero where some pass has padded. */
  ghost predicate Holds(op: Op, v: View, n: nat, data: seq<real>, x: seq<real>, outer: nat, padded: bool)
  {
    forall b: nat :: b < v.rows ==>
      RowJoin(op, data, v.Start(b), n) == Padded(op, RowJoin(op, x, b * outer, outer), padded)
  }

  /** Does a pass over n elements, or one that follows it, run more work-items than there are elements? */
  predicate Pads(n: nat, s: nat, alignment: nat)
    requires s >= 2
    decreases n
  {
    (n >= alignment && n % s != 0) || (n > 1 && (CeilShrinks(n, s); Pads(DivideCeil(n, s), s, alignment)))
  }

  lemma PadsNow(n: nat, s: nat, alignment: nat)
    requires 0 < s <= alignment && n > 0
    ensures n < (if n < alignment then n else Align(n, s)) <==> n >= alignment && n % s != 0
  {
  }

  /** A view over `extent` elements, whose row length the kernel finds by division. */
  function ViewOf(offset: nat, extent: nat, batches: nat): (v: View)
    requires batches > 0
    ensures v.rows == batches && v.offset == offset
    ensures forall stride: nat :: extent == Product(batches, stride) ==> v.stride == stride
  {
    forall stride: nat | extent == Product(batches, stride)
      ensures extent / batches == stride
    {
      DivModOfSum(stride, batches, 0);
    }
    QuotientNonNegative(extent, batches);
    View(offset, batches, extent / batches)
  }

  /** Divides every result by the length of the rows, in any order. */
  method RunFinalize(outer: nat, order: seq<Item>, output: array<real>)
    requires outer > 0 && IsSchedule(order, output.Length, 1)
    modifies output
    ensures forall b :: 0 <= b < output.Length ==> output[b] * outer as real == old(output[b])
    ensures forall b :: 0 <= b < output.Length ==> output[b] == Finalize(Mean, old(output[b]), outer)
  {
    for n := 0 to |order|
      invariant forall i :: 0 <= i < n ==> output[order[i].row] == Finalize(Mean, old(output[order[i].row]), outer)
      invariant forall i :: n <= i < |order| ==> output[order[i].row] == old(output[order[i].row])
    {
      assert forall i :: 0 <= i < |order| && i != n ==> order[i] != order[n] && order[i].col == order[n].col;
      output[order[n].row] := Finalize(Mean, output[order[n].row], outer);
    }
    forall b | 0 <= b < output.Length
      ensures output[b] == Finalize(Mean, old(output[b]), outer)
    {
      assert Item(b, 0) in order;
    }
  }

  /** The orders in which the work-items of each pass run. */
  type Schedules = (nat, nat, nat) -> seq<Item>

  ghost predicate AreSchedules(f: Schedules)
  {
    forall pass, rows, cols :: IsSchedule(f(pass, rows, cols), rows, cols)
  }

  /** What stays the same from pass to pass. */
  datatype Job = Job(op: Op, batches: nat, s: nat, alignment: nat, schedules: Schedules) {
    ghost predicate Valid()
    {
      batches > 0 && 2 <= s <= alignment && AreSchedules(schedules)
    }

    /** Where the results go. */
    function Results(): View
    {
      View(0, batches, 1)
    }
  }

  /** One pass, which keeps what the rows combine to. */
  method NextPass(t: Pass, order: seq<Item>, src: array<real>, dst: array<real>, ghost x: seq<real>, ghost outer: nat,
                  ghost padded: bool)
    requires t.Valid(src.Length, dst.Length, src == dst) && IsSchedule(order, t.source.rows, t.range)
    requires Holds(t.op, t.source, t.reduceSize, src[..], x, outer, padded)
    modifies dst
    ensures Holds(t.op, t.target, DivideCeil(t.range, t.s), dst[..], x, outer, padded || t.reduceSize < t.range)
  {
    RunPass(t, order, src, dst);
    forall b: nat | b < t.target.rows
      ensures RowJoin(t.op, dst[..], t.target.Start(b), DivideCeil(t.range, t.s))
              == Padded(t.op, RowJoin(t.op, x, b * outer, outer), padded || t.reduceSize < t.range)
    {
      PaddedAgain(t.op, RowJoin(t.op, x, b * outer, outer), padded, t.reduceSize < t.range);
    }
  }

  /** The rows after the pass before iteration `iter` left n elements in each. */
  ghost predicate AfterPass(job: Job, mem1: View, mem2: View, iter: nat, n: nat, buffer: seq<real>, output: seq<real>,
                            x: seq<real>, outer: nat, padded: bool)
  {
    if n == 1 then Holds(job.op, job.Results(), 1, output, x, outer, padded)
    else Holds(job.op, if iter % 2 == 0 then mem1 else mem2, n, buffer, x, outer, padded)
  }

  /** The two halves of the buffer, sized by the first pass. */
  ghost predicate AreHalves(job: Job, mem1: View, mem2: View, size: nat)
  {
    && mem1.rows == mem2.rows == job.batches && mem1.Disjoint(mem2) && mem1.Inside(size) && mem2.Inside(size)
    && mem1.stride > 1 && job.s > 0 && mem2.stride == DivideCeil(mem1.stride, job.s)
  }

  /** Rows of n elements fit the half that iteration `iter` reads. */
  ghost predicate FitsHalf(mem1: View, mem2: View, iter: nat, n: nat)
  {
    n <= mem1.stride && (iter > 0 ==> n <= mem2.stride)
  }

  /** The passes after the first: the buffer that the last pass wrote is read, the other one (or in the
      end the output) is written. */
  method RemainingPasses(job: Job, mem1: View, mem2: View, firstRange: nat, buffer: array<real>, output: array<real>,
                         ghost x: seq<real>, ghost outer: nat, ghost padded: bool)
    requires job.Valid() && buffer != output && output.Length == job.batches
    requires AreHalves(job, mem1, mem2, buffer.Length) && DivideCeil(firstRange, job.s) == mem1.stride
    requires Holds(job.op, mem1, mem1.stride, buffer[..], x, outer, padded)
    modifies buffer, output
    ensures Holds(job.op, job.Results(), 1, output[..], x, outer, padded || Pads(mem1.stride, job.s, job.alignment))
  {
    var kernelRange, nextReduceSize, iter := firstRange, mem1.stride, 0;
    ghost var pads := padded;
    while nextReduceSize > 1
      invariant nextReduceSize >= 1 && FitsHalf(mem1, mem2, iter, nextReduceSize)
      invariant DivideCeil(kernelRange, job.s) == nextReduceSize
      invariant padded || Pads(mem1.stride, job.s, job.alignment)
                <==> pads || Pads(nextReduceSize, job.s, job.alignment)
      invariant true == AfterPass(job, mem1, mem2, iter, nextReduceSize, buffer[..], output[..], x, outer, pads)
      decreases nextReduceSize
    {
      var reduceSize := nextReduceSize;
      nextReduceSize := DivideCeil(nextReduceSize, job.s);
      kernelRange := DivideCeil(kernelRange, job.s);
      var local;
      kernelRange, local := UpdateLocalRange(kernelRange, job.alignment, job.s);
      PassSizes(job, mem1, mem2, iter, reduceSize, kernelRange);
      RunIteration(job, Pass(job.op, kernelRange, local, job.s, reduceSize, if iter % 2 == 0 then mem1 else mem2,
                             if iter % 2 == 0 then mem2 else mem1),
                   nextReduceSize, iter + 1, buffer, output, x, outer, pads);
      pads := pads || reduceSize < kernelRange;
      iter := iter + 1;
    }
    assert !Pads(1, job.s, job.alignment);
  }

  /** The sizes of one iteration: the rows get shorter and fit the half that is written. */
  lemma PassSizes(job: Job, mem1: View, mem2: View, iter: nat, n: nat, range: nat)
    requires job.Valid() && mem2.stride == DivideCeil(mem1.stride, job.s) && n > 1 && FitsHalf(mem1, mem2, iter, n)
    requires range == if n < job.alignment then n else Align(n, job.s)
    ensures n <= range && 0 < DivideCeil(n, job.s) == DivideCeil(range, job.s) < n
    ensures FitsHalf(mem1, mem2, iter + 1, DivideCeil(n, job.s))
    ensures Pads(n, job.s, job.alignment) <==> n < range || Pads(DivideCeil(n, job.s), job.s, job.alignment)
  {
    CeilShrinks(n, job.s);
    AlignKeepsChunks(n, job.s);
    CeilMonotone(n, mem1.stride, job.s);
    PadsNow(n, job.s, job.alignment);
  }

  method RunIteration(job: Job, t: Pass, nextReduceSize: nat, pass: nat, buffer: array<real>, output: array<real>,
                      ghost x: seq<real>, ghost outer: nat, ghost padded: bool)
    requires job.Valid() && t.op == job.op && t.Valid(buffer.Length, buffer.Length, true) && buffer != output
    requires t.source.rows == job.batches == output.Length && nextReduceSize == DivideCeil(t.range, t.s)
    requires Holds(t.op, t.source, t.reduceSize, buffer[..], x, outer, padded)
    modifies buffer, output
    ensures if nextReduceSize == 1
            then Holds(job.op, job.Results(), 1, output[..], x, outer, padded || t.reduceSize < t.range)
            else Holds(job.op, t.target, nextReduceSize, buffer[..], x, outer, padded || t.reduceSize < t.range)
  {
    var order := job.schedules(pass, job.batches, t.range);
    if nextReduceSize == 1 {
      NextPass(t.(target := ViewOf(0, output.Length, job.batches)), order, buffer, output, x, outer, padded);
    } else {
      NextPass(t, order, buffer, buffer, x, outer, padded);
    }
  }

  /** All passes, from the input to the unfinalised output. */
  method RunPasses(job: Job, outer: nat, input: array<real>, output: array<real>)
    requires job.Valid() && outer > 0
    requires input.Length == Product(job.batches, outer) && output.Length == job.batches && input != output
    modifies output
    ensures Holds(job.op, job.Results(), 1, output[..], input[..], outer, Pads(outer, job.s, job.alignment))
  {
    var kernelRange, local := UpdateLocalRange(outer, job.alignment, job.s);
    FirstSizes(job, outer, kernelRange);
    var nextReduceSize := DivideCeil(outer, job.s);
    var size1 := Product(job.batches, nextReduceSize);
    var size2 := Product(job.batches, DivideCeil(nextReduceSize, job.s));
    var buffer := new real[size1 + size2];
    var mem1, mem2 := ViewOf(0, size1, job.batches), ViewOf(size1, size2, job.batches);
    var first := Pass(job.op, kernelRange, local, job.s, outer, ViewOf(0, input.Length, job.batches), mem1);
    FirstHolds(job, first.source, input[..], outer);
    var order := job.schedules(0, job.batches, kernelRange);
    if nextReduceSize == 1 {
      NextPass(first.(target := ViewOf(0, output.Length, job.batches)), order, input, output, input[..], outer, false);
    } else {
      NextPass(first, order, input, buffer, input[..], outer, false);
      RemainingPasses(job, mem1, mem2, kernelRange, buffer, output, input[..], outer, outer < kernelRange);
    }
  }

  lemma FirstSizes(job: Job, outer: nat, range: nat)
    requires job.Valid() && outer > 0 && range == if outer < job.alignment then outer else Align(outer, job.s)
    ensures outer <= range && 0 < DivideCeil(outer, job.s) == DivideCeil(range, job.s)
    ensures DivideCeil(outer, job.s) == 1 || outer > 1
    ensures Pads(outer, job.s, job.alignment) <==> outer < range || Pads(DivideCeil(outer, job.s), job.s, job.alignment)
  {
    AlignKeepsChunks(outer, job.s);
    PadsNow(outer, job.s, job.alignment);
    if outer > 1 {
      CeilShrinks(outer, job.s);
    } else {
      DivideCeilUnique(1, job.s, 1);
    }
  }

  lemma FirstHolds(job: Job, rows: View, x: seq<real>, outer: nat)
    requires rows.offset == 0 && rows.stride == outer
    ensures Holds(job.op, rows, outer, x, x, outer, false)
  {
  }
}
