/** The ranges of a sub-group pass: rounding, the choice of the local range, and what it means for the
    sub-groups. */
module SubgroupRanges {
  import opened Arithmetic

  function DivideCeil(x: nat, y: nat): (r: nat)
    requires y > 0
    ensures x <= r * y < x + y
  {
    QuotientNonNegative(x + y - 1, y);
    (x + y - 1) / y
  }

  function Align(x: nat, alignment: nat): (r: nat)
    requires alignment > 0
    ensures x <= r < x + alignment && r % alignment == 0
  {
    var rem := x % alignment;
    MultipleAbove(x, alignment);
    x + if rem == 0 then 0 else alignment - rem
  }

  lemma DivideCeilUnique(x: nat, y: nat, r: nat)
    requires y > 0 && x <= r * y < x + y
    ensures DivideCeil(x, y) == r
  {
    MulDist(y, r, 1);
    DivUnique(x + y - 1, y, r);
  }

  lemma AlignKeepsChunks(x: nat, s: nat)
    requires s > 0
    ensures DivideCeil(Align(x, s), s) == DivideCeil(x, s)
  {
    var a := Align(x, s);
    SplitExactly(a, s);
    DivideCeilUnique(x, s, a / s);
    DivideCeilUnique(a, s, a / s);
  }

  lemma SplitExactly(a: nat, s: nat)
    requires s > 0 && a % s == 0
    ensures (a / s) * s == a
  {
  }

  /** Chunking makes any row of two or more elements shorter. */
  lemma CeilShrinks(n: nat, s: nat)
    requires s >= 2 && n > 1
    ensures 0 < DivideCeil(n, s) < n
  {
    var r := DivideCeil(n, s);
    if r >= n {
      MulMono(n, r, s);
      MulMono(2, s, n);
      MulMono(2, n, s);
    }
  }

  lemma CeilMonotone(m: nat, n: nat, s: nat)
    requires s > 0 && m <= n
    ensures DivideCeil(m, s) <= DivideCeil(n, s)
  {
    if DivideCeil(m, s) > DivideCeil(n, s) {
      MulMono(DivideCeil(n, s) + 1, DivideCeil(m, s), s);
      MulDist(s, DivideCeil(n, s), 1);
    }
  }

  /** The work-group that item x of a row belongs to, and its sub-group within that work-group. */
  predicate SameSubgroup(x: nat, y: nat, local: nat, s: nat)
    requires local > 0 && s > 0
  {
    x / local == y / local && (x % local) / s == (y % local) / s
  }

  /** A local range in which sub-groups are aligned chunks of the row. */
  predicate SuitableLocal(range: nat, local: nat, s: nat)
    requires s > 0
  {
    local > 0 && range % local == 0 && (local == range || local % s == 0)
  }

  /** The sub-groups of a suitable local range are the chunks that the kernel numbers by id / s. */
  lemma SubgroupsAreChunks(range: nat, local: nat, s: nat, x: nat, y: nat)
    requires s > 0 && SuitableLocal(range, local, s) && x < range && y < range
    ensures SameSubgroup(x, y, local, s) <==> x / s == y / s
  {
    if local == range {
      DivUnique(x, local, 0);
      DivUnique(y, local, 0);
      SmallMod(x, local);
      SmallMod(y, local);
    } else {
      ChunkOfItem(x, local, s);
      ChunkOfItem(y, local, s);
      var c := local / s;
      PairUnique(x / local, (x % local) / s, y / local, (y % local) / s, c);
    }
  }

  lemma ChunkOfItem(x: nat, local: nat, s: nat)
    requires s > 0 && local > 0 && local % s == 0
    ensures x / s == (x / local) * (local / s) + (x % local) / s
    ensures 0 <= (x % local) / s < local / s
  {
    var b := x % local;
    SplitExactly(local, s);
    SplitBound(b, local / s, s);
    ChunkOf(x, x / local, local / s, s, b / s, b % s);
  }

  lemma ChunkOf(x: nat, a: int, c: int, s: nat, q: int, r: nat)
    requires r < s && x == a * (c * s) + (q * s + r)
    ensures x / s == a * c + q
  {
    Regroup(a, c, s, q, r);
    DivModOfSum(a * c + q, s, r);
  }

  lemma Regroup(a: int, c: int, s: int, q: int, r: int)
    ensures a * (c * s) + (q * s + r) == (a * c + q) * s + r
  {
  }

  lemma PairUnique(a: int, r: int, a': int, r': int, c: nat)
    requires 0 <= r < c && 0 <= r' < c
    ensures a * c + r == a' * c + r' <==> a == a' && r == r'
  {
    DivModOfSum(a, c, r);
    DivModOfSum(a', c, r');
  }

  /** The kernel range of a pass and its local range: the whole row if that is small, and otherwise
      the largest admissible multiple of the sub-group size. */
  method UpdateLocalRange(kernelRange: nat, alignment: nat, s: nat) returns (range: nat, local: nat)
    requires kernelRange > 0 && 0 < s <= alignment
    ensures range == if kernelRange < alignment then kernelRange else Align(kernelRange, s)
    ensures SuitableLocal(range, local, s) && local <= alignment
    ensures kernelRange >= alignment ==>
              forall i :: 1 <= i && s * i <= alignment && s * i <= range && range % (s * i) == 0 ==> s * i <= local
  {
    range, local := kernelRange, kernelRange;
    if kernelRange >= alignment {
      range := Align(kernelRange, s);
      local := s;
      var i := range / s;
      ghost var multiple := i;
      QuotientNonNegative(range, s);
      while i > 1
        invariant 0 <= i <= multiple && local == s
        invariant forall k :: i < k <= multiple ==> s * k > alignment || range % (s * k) != 0
      {
        ProductSign(s, i);
        var newSize := local * i;
        if newSize <= alignment && range % newSize == 0 {
          local := newSize;
          DivModOfSum(i, s, 0);
          break;
        }
        i := i - 1;
      }
      LargestMultiple(range, alignment, s, multiple, i, local);
    }
  }

  lemma LargestMultiple(range: nat, alignment: nat, s: nat, multiple: nat, i: nat, local: nat)
    requires s > 0 && range > 0 && range % s == 0 && multiple == range / s && i <= multiple
    requires local == s * i || (local == s && i <= 1)
    requires forall k :: i < k <= multiple ==> s * k > alignment || range % (s * k) != 0
    ensures forall k :: 1 <= k && s * k <= alignment && s * k <= range && range % (s * k) == 0 ==> s * k <= local
  {
  }
}
