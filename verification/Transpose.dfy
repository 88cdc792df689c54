/** Transposing a tensor of any rank: simplification of the request, and the kernel. */
module Transpose {
  import opened Arithmetic
  import opened Shapes
  import opened VectorIO

  /** What the public launch function validates: every dimension is named, and named once. */
  predicate IsPermutation(perm: seq<int>)
  {
    && (forall i :: 0 <= i < |perm| ==> 0 <= perm[i] < |perm|)
    && (forall i, j :: 0 <= i < j < |perm| ==> perm[i] != perm[j])
  }

  predicate IsRequest(dims: Dims, perm: seq<int>)
  {
    |dims| == |perm| && Positive(dims) && IsPermutation(perm)
  }

  function Permuted<T>(s: seq<T>, perm: seq<int>): (r: seq<T>)
    requires |s| == |perm| && forall i :: 0 <= i < |perm| ==> 0 <= perm[i] < |perm|
    ensures |r| == |s| && forall i :: 0 <= i < |perm| ==> r[i] == s[perm[i]]
  {
    seq(|perm|, i requires 0 <= i < |perm| => s[perm[i]])
  }

  /** Where the element at flat index x goes. */
  function FlatMap(dims: Dims, perm: seq<int>, x: int): int
    requires IsRequest(dims, perm)
  {
    Ravel(Permuted(dims, perm), Permuted(Unravel(dims, x), perm))
  }

  /** output is input with its dimensions permuted. */
  ghost predicate IsTransposed<T>(dims: Dims, perm: seq<int>, input: seq<T>, output: seq<T>)
    requires IsRequest(dims, perm)
  {
    && |input| == |output| == Total(dims)
    && forall x :: 0 <= x < Total(dims) ==>
       0 <= FlatMap(dims, perm, x) < Total(dims) && output[FlatMap(dims, perm, x)] == input[x]
  }

  // ---------------------------------------------------------------- merging two dimensions

  function MergeDims(dims: Dims, q: nat): (r: Dims)
    requires q + 1 < |dims|
    ensures |r| == |dims| - 1
  {
    dims[..q] + [Product(dims[q], dims[q + 1])] + dims[q + 2..]
  }

  function MergeId(dims: Dims, id: seq<int>, q: nat): (r: seq<int>)
    requires q + 1 < |dims| == |id|
    ensures |r| == |dims| - 1
  {
    id[..q] + [id[q] * dims[q + 1] + id[q + 1]] + id[q + 2..]
  }

  /** The position a dimension has once dimension q+1 is gone. */
  function Shifted(q: int, perm: int): int
  {
    if perm > q + 1 then perm - 1 else perm
  }

  function MergePerm(perm: seq<int>, k: nat): (r: seq<int>)
    requires k + 1 < |perm|
    ensures |r| == |perm| - 1
    ensures forall i :: 0 <= i < |r| ==> r[i] == Shifted(perm[k], perm[if i <= k then i else i + 1])
  {
    seq(|perm| - 1, i requires 0 <= i < |perm| - 1 => Shifted(perm[k], perm[if i <= k then i else i + 1]))
  }

  ghost predicate Adjacent(perm: seq<int>, k: nat)
  {
    k + 1 < |perm| && perm[k + 1] == perm[k] + 1
  }

  lemma {:induction false} RavelMerge(dims: Dims, id: seq<int>, q: nat)
    requires q + 1 < |dims| == |id|
    ensures Ravel(MergeDims(dims, q), MergeId(dims, id, q)) == Ravel(dims, id)
    ensures Total(MergeDims(dims, q)) == Total(dims)
  {
    var n := |dims| - 1;
    var dims', id' := MergeDims(dims, q), MergeId(dims, id, q);
    if q + 2 == |dims| {
      assert dims'[..n - 1] == dims[..q] && id'[..n - 1] == id[..q];
      assert dims[..n][..q] == dims[..q] && id[..n][..q] == id[..q];
      var r := Ravel(dims[..q], id[..q]);
      MulDist(dims[n], r * dims[q], id[q]);
      MulAssoc(r, dims[q], dims[n]);
      MulAssoc(Total(dims[..q]), dims[q], dims[n]);
    } else {
      assert dims'[..n - 1] == MergeDims(dims[..n], q);
      assert id'[..n - 1] == MergeId(dims[..n], id[..n], q);
      RavelMerge(dims[..n], id[..n], q);
    }
  }

  lemma MergeInRange(dims: Dims, id: seq<int>, q: nat)
    requires q + 1 < |dims| && InRange(dims, id) && Positive(dims)
    ensures Positive(MergeDims(dims, q)) && InRange(MergeDims(dims, q), MergeId(dims, id, q))
  {
    PairBound(id[q], dims[q], id[q + 1], dims[q + 1]);
  }

  lemma MergePermValid(perm: seq<int>, k: nat)
    requires IsPermutation(perm) && Adjacent(perm, k)
    ensures IsPermutation(MergePerm(perm, k))
    ensures forall i :: 0 <= i < |perm| && i != k + 1 ==> perm[i] != perm[k] + 1
    ensures forall i :: 0 <= i < |perm| && i != k ==> perm[i] != perm[k]
  {
  }

  /** Merging commutes with permuting when the permutation keeps the two dimensions together. */
  lemma PermutedMerge(dims: Dims, id: seq<int>, perm: seq<int>, k: nat)
    requires IsRequest(dims, perm) && |id| == |dims| && Adjacent(perm, k)
    ensures IsPermutation(MergePerm(perm, k))
    ensures Permuted(MergeDims(dims, perm[k]), MergePerm(perm, k)) == MergeDims(Permuted(dims, perm), k)
    ensures Permuted(MergeId(dims, id, perm[k]), MergePerm(perm, k))
            == MergeId(Permuted(dims, perm), Permuted(id, perm), k)
  {
    MergePermValid(perm, k);
    PermutedMergeOf(dims, perm, k, Product(dims[perm[k]], dims[perm[k] + 1]));
    PermutedMergeOf(id, perm, k, id[perm[k]] * dims[perm[k] + 1] + id[perm[k] + 1]);
  }

  lemma PermutedMergeOf<T>(s: seq<T>, perm: seq<int>, k: nat, merged: T)
    requires |s| == |perm| && IsPermutation(perm) && Adjacent(perm, k) && IsPermutation(MergePerm(perm, k))
    ensures var q := perm[k];
            Permuted(s[..q] + [merged] + s[q + 2..], MergePerm(perm, k))
              == Permuted(s, perm)[..k] + [merged] + Permuted(s, perm)[k + 2..]
  {
    var q, perm' := perm[k], MergePerm(perm, k);
    var s' := s[..q] + [merged] + s[q + 2..];
    MergePermValid(perm, k);
    forall i | 0 <= i < |perm'|
      ensures s'[perm'[i]] == if i == k then merged else s[perm[if i <= k then i else i + 1]]
    {
      var i0 := if i <= k then i else i + 1;
      assert i != k ==> perm[i0] != q && perm[i0] != q + 1;
    }
  }

  /** Theorem (one step): merging leaves the map from flat inputs to flat outputs unchanged. */
  lemma MergeKeepsMap(dims: Dims, perm: seq<int>, k: nat, x: int)
    requires IsRequest(dims, perm) && Adjacent(perm, k) && 0 <= x < Total(dims)
    ensures IsRequest(MergeDims(dims, perm[k]), MergePerm(perm, k))
    ensures Total(MergeDims(dims, perm[k])) == Total(dims)
    ensures FlatMap(MergeDims(dims, perm[k]), MergePerm(perm, k), x) == FlatMap(dims, perm, x)
  {
    var q, id := perm[k], Unravel(dims, x);
    var dims', perm' := MergeDims(dims, q), MergePerm(perm, k);
    RavelOfUnravel(dims, x);
    RavelMerge(dims, id, q);
    MergeInRange(dims, id, q);
    UnravelOfRavel(dims', MergeId(dims, id, q));
    PermutedMerge(dims, id, perm, k);
    RavelMerge(Permuted(dims, perm), Permuted(id, perm), k);
  }

  // ---------------------------------------------------------------- simplification

  ghost predicate IsIdentity(perm: seq<int>)
  {
    forall i :: 0 <= i < |perm| ==> perm[i] == i
  }

  /** Merging keeps identities, and makes none. */
  lemma MergeKeepsIdentity(perm: seq<int>, k: nat)
    requires IsPermutation(perm) && Adjacent(perm, k)
    ensures IsIdentity(MergePerm(perm, k)) <==> IsIdentity(perm)
  {
    var perm' := MergePerm(perm, k);
    MergePermValid(perm, k);
    if IsIdentity(perm') {
      assert perm'[k] == k;
      forall i | 0 <= i < |perm|
        ensures perm[i] == i
      {
        if i <= k {
          assert perm'[i] == i;
        } else if i > k + 1 {
          assert perm'[i - 1] == i - 1;
        }
      }
    }
  }

  /** How many of the first n places are followed by the next dimension. */
  function PairsUpTo(perm: seq<int>, n: nat): (r: nat)
    requires n <= |perm|
    ensures n > 0 ==> r < n
  {
    if n <= 1 then 0 else PairsUpTo(perm, n - 1) + if perm[n - 1] == perm[n - 2] + 1 then 1 else 0
  }

  /** The rank that is left when no dimension is followed by the next one any more. */
  function SimplifiedRank(perm: seq<int>): nat
  {
    |perm| - PairsUpTo(perm, |perm|)
  }

  /** A pair other than the merged one is a pair afterwards, one place forward if it came later. */
  lemma PairMoves(perm: seq<int>, k: nat, j: nat)
    requires IsPermutation(perm) && Adjacent(perm, k) && 0 < j < |perm| - 1
    ensures var perm', i := MergePerm(perm, k), if j <= k then j else j + 1;
            perm'[j] == perm'[j - 1] + 1 <==> perm[i] == perm[i - 1] + 1
  {
    var i := if j <= k then j else j + 1;
    assert perm[i] != perm[k + 1] && perm[i - 1] != perm[k];
  }

  /** Merging removes the pair at k, and moves the later ones one place forward. */
  lemma {:induction false} MergeRemovesPair(perm: seq<int>, k: nat, n: nat)
    requires IsPermutation(perm) && Adjacent(perm, k) && n < |perm|
    ensures PairsUpTo(MergePerm(perm, k), n) == if n <= k + 1 then PairsUpTo(perm, n) else PairsUpTo(perm, n + 1) - 1
    ensures n > k ==> PairsUpTo(perm, k + 2) == PairsUpTo(perm, k + 1) + 1
  {
    if n > 1 {
      MergeRemovesPair(perm, k, n - 1);
      PairMoves(perm, k, n - 1);
    }
  }

  lemma MergeKeepsRank(perm: seq<int>, k: nat)
    requires IsPermutation(perm) && Adjacent(perm, k)
    ensures SimplifiedRank(MergePerm(perm, k)) == SimplifiedRank(perm)
  {
    MergeRemovesPair(perm, k, |perm| - 1);
  }

  ghost predicate NoPairBefore(perm: seq<int>, n: nat)
  {
    forall k: nat :: k + 1 < n ==> !Adjacent(perm, k)
  }

  lemma NoPairHere(perm: seq<int>, n: nat)
    requires n < |perm| && NoPairBefore(perm, n) && (n == 0 || perm[n - 1] + 1 != perm[n])
    ensures NoPairBefore(perm, n + 1)
  {
  }

  lemma {:induction false} NoPairs(perm: seq<int>, n: nat)
    requires n <= |perm| && forall k: nat :: !Adjacent(perm, k)
    ensures PairsUpTo(perm, n) == 0
  {
    if n > 1 {
      NoPairs(perm, n - 1);
      assert !Adjacent(perm, n - 2);
    }
  }

  /** The dimensions and permutation that the simplification rewrites in place. */
  class Transposition {
    var dimensions: Dims
    var permutation: seq<int>

    constructor (dims: Dims, perm: seq<int>)
      ensures dimensions == dims && permutation == perm
    {
      dimensions, permutation := dims, perm;
    }

    ghost predicate Valid()
      reads this
    {
      IsRequest(dimensions, permutation)
    }

    /** Merges the dimension that follows permutation[index] into it. */
    method MergeConsecutiveIndices(index: nat)
      requires Valid() && Adjacent(permutation, index)
      modifies this
      ensures dimensions == MergeDims(old(dimensions), old(permutation)[index])
      ensures permutation == MergePerm(old(permutation), index)
      ensures Valid() && SameTranspose(old(dimensions), old(permutation), dimensions, permutation)
    {
      var permutedIndex := permutation[index];
      var toRemove := permutation[index + 1];
      var removedSize := dimensions[toRemove];
      dimensions := dimensions[..toRemove] + dimensions[toRemove + 1..];
      dimensions := dimensions[permutedIndex := Product(dimensions[permutedIndex], removedSize)];

      permutation := permutation[..index + 1] + permutation[index + 2..];
      assert dimensions == MergeDims(old(dimensions), permutedIndex);
      ghost var merged, erased := dimensions, permutation;
      for i := 0 to |permutation|
        invariant dimensions == merged && |permutation| == |erased|
        invariant forall j :: 0 <= j < |erased| ==>
                    permutation[j] == if j < i && erased[j] > toRemove then erased[j] - 1 else erased[j]
      {
        if permutation[i] > toRemove {
          permutation := permutation[i := permutation[i] - 1];
        }
      }
      assert permutation == MergePerm(old(permutation), index);
      MergedAgain(old(dimensions), old(permutation), old(dimensions), old(permutation), index);
    }

    /** Merges until no two neighbours are left to merge. */
    method SimplifyTranspose()
      requires Valid()
      modifies this
      ensures Valid() && SameTranspose(old(dimensions), old(permutation), dimensions, permutation)
      ensures forall k: nat :: !Adjacent(permutation, k)
      ensures |permutation| == SimplifiedRank(old(permutation))
      ensures |old(permutation)| > 0 ==> (|permutation| == 1 <==> IsIdentity(old(permutation)))
    {
      ghost var dims0, perm0 := dimensions, permutation;
      var changed := true;
      while changed
        invariant Valid() && true == SameTranspose(dims0, perm0, dimensions, permutation)
        invariant !changed ==> true == NoPairBefore(permutation, |permutation|)
        decreases |permutation|, changed
      {
        changed := false;
        ghost var dims, perm := dimensions, permutation;
        var previous, idx, size := -2, 0, |permutation|;
        while idx < size
          invariant dimensions == dims && permutation == perm
          invariant 0 <= idx <= size == |perm|
          invariant previous == if idx == 0 then -2 else perm[idx - 1]
          invariant true == NoPairBefore(perm, idx)
        {
          var thisPerm := permutation[idx];
          if previous + 1 == thisPerm {
            MergeConsecutiveIndices(idx - 1);
            MergedAgain(dims0, perm0, dims, perm, idx - 1);
            changed := true;
            break;
          }
          NoPairHere(perm, idx);
          previous := thisPerm;
          idx := idx + 1;
        }
      }
      IdentityIsRankOne(permutation);
      NoPairs(permutation, |permutation|);
    }
  }

  /** Two requests for the same rearrangement of the same buffer, the second of no higher rank. */
  ghost predicate SameTranspose(dims0: Dims, perm0: seq<int>, dims: Dims, perm: seq<int>)
  {
    && IsRequest(dims0, perm0) && IsRequest(dims, perm)
    && |perm| <= |perm0| && (|perm0| > 0 ==> |perm| > 0)
    && Total(dims) == Total(dims0)
    && (forall x :: 0 <= x < Total(dims) ==> FlatMap(dims, perm, x) == FlatMap(dims0, perm0, x))
    && (IsIdentity(perm) <==> IsIdentity(perm0))
    && SimplifiedRank(perm) == SimplifiedRank(perm0)
  }

  lemma MergedAgain(dims0: Dims, perm0: seq<int>, dims: Dims, perm: seq<int>, k: nat)
    requires true == SameTranspose(dims0, perm0, dims, perm) && Adjacent(perm, k)
    ensures SameTranspose(dims0, perm0, MergeDims(dims, perm[k]), MergePerm(perm, k))
  {
    MergeKeepsMap(dims, perm, k, 0);
    forall x | 0 <= x < Total(dims)
      ensures FlatMap(MergeDims(dims, perm[k]), MergePerm(perm, k), x) == FlatMap(dims0, perm0, x)
    {
      MergeKeepsMap(dims, perm, k, x);
    }
    MergeKeepsIdentity(perm, k);
    MergeKeepsRank(perm, k);
  }

  /** Without neighbours to merge, only the identity of rank one is an identity. */
  lemma IdentityIsRankOne(perm: seq<int>)
    requires IsPermutation(perm) && forall k: nat :: !Adjacent(perm, k)
    ensures |perm| > 0 ==> (|perm| == 1 <==> IsIdentity(perm))
  {
    if |perm| > 1 {
      assert !Adjacent(perm, 0);
      assert perm[0] != 0 || perm[1] != 1;
    }
  }

  /** Theorem: the identity permutation moves nothing. */
  lemma IdentityMovesNothing(dims: Dims, perm: seq<int>, x: int)
    requires IsRequest(dims, perm) && IsIdentity(perm) && 0 <= x < Total(dims)
    ensures FlatMap(dims, perm, x) == x
  {
    var id := Unravel(dims, x);
    RavelOfUnravel(dims, x);
    assert Permuted(dims, perm) == dims && Permuted(id, perm) == id;
  }

  // ---------------------------------------------------------------- the map is a bijection

  ghost function Below(n: nat): (r: set<int>)
    ensures |r| == n && forall j :: j in r <==> 0 <= j < n
  {
    if n == 0 then {} else Below(n - 1) + {n - 1}
  }

  ghost function Named(perm: seq<int>, k: nat): set<int>
    requires k <= |perm|
  {
    set i | 0 <= i < k :: perm[i]
  }

  /** The next entry names one more dimension. */
  lemma NamedNext(perm: seq<int>, k: nat)
    requires k < |perm| && IsPermutation(perm)
    ensures Named(perm, k + 1) == Named(perm, k) + {perm[k]} && perm[k] !in Named(perm, k)
  {
  }

  lemma {:induction false} NamedSize(perm: seq<int>, k: nat)
    requires k <= |perm| && true == IsPermutation(perm)
    ensures |Named(perm, k)| == k
  {
    if k > 0 {
      NamedSize(perm, k - 1);
      NamedNext(perm, k - 1);
    }
  }

  lemma SubsetOfSameSize(a: set<int>, b: set<int>)
    requires a <= b && |a| == |b|
    ensures a == b
  {
    assert |b - a| == 0;
  }

  /** Every dimension is named. */
  lemma NamesAll(perm: seq<int>, j: int)
    requires IsPermutation(perm) && 0 <= j < |perm|
    ensures exists i :: 0 <= i < |perm| && perm[i] == j
  {
    NamedSize(perm, |perm|);
    SubsetOfSameSize(Named(perm, |perm|), Below(|perm|));
    assert j in Below(|perm|);
  }

  /** An order of n work-items in which none occurs twice is a schedule: every one of them occurs. */
  lemma DistinctIsSchedule(order: seq<nat>, n: nat)
    requires |order| == n && (forall i :: 0 <= i < n ==> order[i] < n)
    requires forall i, j :: 0 <= i < j < n ==> order[i] != order[j]
    ensures IsSchedule(order, n)
  {
    forall t | 0 <= t < n
      ensures t in order
    {
      NamesAll(order, t);
    }
  }

  ghost predicate AreInverse(p: seq<int>, q: seq<int>)
  {
    && IsPermutation(p) && IsPermutation(q) && |p| == |q|
    && (forall i :: 0 <= i < |p| ==> q[p[i]] == i)
    && (forall i :: 0 <= i < |p| ==> p[q[i]] == i)
  }

  ghost function Inverse(perm: seq<int>): (r: seq<int>)
    requires IsPermutation(perm)
    ensures AreInverse(perm, r)
  {
    seq(|perm|, j requires 0 <= j < |perm| => PlaceOf(perm, j))
  }

  ghost function PlaceOf(perm: seq<int>, j: int): (i: int)
    requires IsPermutation(perm) && 0 <= j < |perm|
    ensures 0 <= i < |perm| && perm[i] == j
  {
    NamesAll(perm, j);
    var i :| 0 <= i < |perm| && perm[i] == j;
    i
  }

  /** The permutation of the dimensions other than the last one named. */
  ghost function DropLast(perm: seq<int>): (r: seq<int>)
    requires IsPermutation(perm) && |perm| > 0
    ensures |r| == |perm| - 1 && IsPermutation(r)
    ensures forall i :: 0 <= i < |r| ==> r[i] == if perm[i] > perm[|perm| - 1] then perm[i] - 1 else perm[i]
  {
    var n := |perm| - 1;
    seq(n, i requires 0 <= i < n => if perm[i] > perm[n] then perm[i] - 1 else perm[i])
  }

  lemma PermutedDropLast(dims: Dims, perm: seq<int>)
    requires IsRequest(dims, perm) && |perm| > 0
    ensures var n := |perm| - 1;
            Permuted(dims, perm)[..n] == Permuted(Without(dims, perm[n]), DropLast(perm))
  {
  }

  lemma RestIsRequest(dims: Dims, perm: seq<int>)
    requires IsRequest(dims, perm) && |perm| > 0
    ensures IsRequest(Without(dims, perm[|perm| - 1]), DropLast(perm))
  {
  }

  /** A permutation of the dimensions keeps the size. */
  lemma {:induction false} PermutedTotal(dims: Dims, perm: seq<int>)
    requires IsRequest(dims, perm)
    ensures Positive(Permuted(dims, perm)) && Total(Permuted(dims, perm)) == Total(dims)
  {
    if dims != [] {
      RestIsRequest(dims, perm);
      var n := |perm| - 1;
      PermutedTotal(Without(dims, perm[n]), DropLast(perm));
      PermutedTotalStep(dims, perm);
    } else {
      assert Permuted(dims, perm) == dims;
    }
  }

  lemma PermutedTotalStep(dims: Dims, perm: seq<int>)
    requires IsRequest(dims, perm) && |perm| > 0
    requires var rest := Without(dims, perm[|perm| - 1]);
             IsRequest(rest, DropLast(perm)) && Total(Permuted(rest, DropLast(perm))) == Total(rest)
    ensures Total(Permuted(dims, perm)) == Total(dims)
  {
    PermutedDropLast(dims, perm);
    TotalLast(Permuted(dims, perm));
    TotalWithout(dims, perm[|perm| - 1]);
  }

  lemma FlatMapBound(dims: Dims, perm: seq<int>, x: int)
    requires IsRequest(dims, perm) && 0 <= x < Total(dims)
    ensures 0 <= FlatMap(dims, perm, x) < Total(dims)
  {
    RavelOfUnravel(dims, x);
    RavelBound(Permuted(dims, perm), Permuted(Unravel(dims, x), perm));
    PermutedTotal(dims, perm);
  }

  /** Theorem: transposing and then transposing by the inverse puts every element back. */
  lemma InverseRestores(dims: Dims, perm: seq<int>, inv: seq<int>, x: int)
    requires IsRequest(dims, perm) && AreInverse(perm, inv) && 0 <= x < Total(dims)
    ensures IsRequest(Permuted(dims, perm), inv) && Permuted(Permuted(dims, perm), inv) == dims
    ensures FlatMap(Permuted(dims, perm), inv, FlatMap(dims, perm, x)) == x
  {
    var id := Unravel(dims, x);
    RavelOfUnravel(dims, x);
    UnravelOfRavel(Permuted(dims, perm), Permuted(id, perm));
    assert Permuted(Permuted(dims, perm), inv) == dims;
    assert Permuted(Permuted(id, perm), inv) == id;
  }

  /** Theorem: every output position is written, and by one input position only. */
  lemma MapIsBijection(dims: Dims, perm: seq<int>, y: int)
    requires IsRequest(dims, perm) && 0 <= y < Total(dims)
    ensures exists x :: 0 <= x < Total(dims) && FlatMap(dims, perm, x) == y
    ensures forall x, x' ::
              0 <= x < Total(dims) && 0 <= x' < Total(dims)
                && FlatMap(dims, perm, x) == y == FlatMap(dims, perm, x') ==>
                x == x'
  {
    var inv := Inverse(perm);
    var out := Permuted(dims, perm);
    PermutedTotal(dims, perm);
    InverseRestores(dims, perm, inv, 0);
    var x := FlatMap(out, inv, y);
    FlatMapBound(out, inv, y);
    InverseRestores(out, inv, perm, y);
    forall x | 0 <= x < Total(dims) && FlatMap(dims, perm, x) == y
      ensures x == FlatMap(out, inv, y)
    {
      InverseRestores(dims, perm, inv, x);
    }
  }

  /** Theorem: transposing back restores the tensor, element for element. */
  lemma RoundTrip<T>(dims: Dims, perm: seq<int>, inv: seq<int>, a: seq<T>, b: seq<T>, c: seq<T>)
    requires IsRequest(dims, perm) && AreInverse(perm, inv)
    requires IsTransposed(dims, perm, a, b)
    requires IsRequest(Permuted(dims, perm), inv) && IsTransposed(Permuted(dims, perm), inv, b, c)
    ensures c == a
  {
    PermutedTotal(dims, perm);
    forall x | 0 <= x < |a|
      ensures c[x] == a[x]
    {
      InverseRestores(dims, perm, inv, x);
    }
  }

  /** Theorem: output coordinate i is input coordinate perm[i], as documented. */
  lemma CoordinatesPermuted<T>(dims: Dims, perm: seq<int>, input: seq<T>, output: seq<T>, id: seq<int>)
    requires IsRequest(dims, perm) && IsTransposed(dims, perm, input, output) && InRange(dims, id)
    ensures var x, y := Ravel(dims, id), Ravel(Permuted(dims, perm), Permuted(id, perm));
            0 <= x < |input| && 0 <= y < |output| && output[y] == input[x]
  {
    RavelBound(dims, id);
    UnravelOfRavel(dims, id);
    assert FlatMap(dims, perm, Ravel(dims, id)) == Ravel(Permuted(dims, perm), Permuted(id, perm));
  }

  // ---------------------------------------------------------------- the kernel

  lemma UnravelPrefix(dims: Dims, id: seq<int>, i: nat, x: int)
    requires Positive(dims) && i < |dims| == |id| && id[..i + 1] == Unravel(dims[..i + 1], x)
    ensures id[..i] == Unravel(dims[..i], x / dims[i]) && id[i] == x % dims[i]
  {
    assert dims[..i + 1][..i] == dims[..i];
    assert id[..i + 1][..i] == id[..i] && id[i] == id[..i + 1][i];
  }

  /** The index arithmetic of a work-item: peels the input coordinates off the flat input index,
      permutes them, and builds the flat output index up again. */
  method FlatOutId(dims: Dims, perm: seq<int>, index: nat) returns (flatOutId: int)
    requires IsRequest(dims, perm) && |dims| > 0
    ensures flatOutId == FlatMap(dims, perm, index)
  {
    var nd := |dims|;
    var outDims := Permuted(dims, perm);
    var flatInId: int := index;
    var inId := seq(nd, _ => 0);
    var i := nd - 1;
    ghost var id := Unravel(dims, index);
    assert dims[..nd] == dims && id[..nd] == id;
    while i >= 0
      invariant -1 <= i < nd == |inId|
      invariant id[..i + 1] == Unravel(dims[..i + 1], flatInId)
      invariant forall j :: i < j < nd ==> inId[j] == id[j]
    {
      UnravelPrefix(dims, id, i, flatInId);
      inId := inId[i := flatInId % dims[i]];
      flatInId := flatInId / dims[i];
      i := i - 1;
    }
    assert inId == id;

    var outId := seq(nd, _ => 0);
    for k := 0 to nd
      invariant |outId| == nd && forall j :: 0 <= j < k ==> outId[j] == inId[perm[j]]
    {
      outId := outId[k := inId[perm[k]]];
    }
    assert outId == Permuted(inId, perm);
    flatOutId := Horner(outDims, outId);
  }

  method Horner(outDims: Dims, outId: seq<int>) returns (flatOutId: int)
    requires |outDims| == |outId| > 0
    ensures flatOutId == Ravel(outDims, outId)
  {
    var nd := |outDims|;
    flatOutId := outId[0];
    assert outDims[..1][..0] == [] && outId[..1][..0] == [];
    for k := 1 to nd
      invariant flatOutId == Ravel(outDims[..k], outId[..k])
    {
      assert outDims[..k + 1][..k] == outDims[..k] && outId[..k + 1][..k] == outId[..k];
      flatOutId := flatOutId * outDims[k];
      flatOutId := flatOutId + outId[k];
    }
    assert outDims[..nd] == outDims && outId[..nd] == outId;
  }

  /** One work-item: moves one element. */
  method TransposeItem<T>(dims: Dims, perm: seq<int>, index: nat, input: seq<T>, output: array<T>)
    requires IsRequest(dims, perm) && |dims| > 0
    requires |input| == output.Length == Total(dims)
    modifies output
    ensures forall y :: 0 <= y < output.Length ==>
              output[y] == if index < Total(dims) && y == FlatMap(dims, perm, index) then input[index]
                else old(output[y])
  {
    if index < Total(dims) {
      var inVal := input[index];
      var flatOutId := FlatOutId(dims, perm, index);
      FlatMapBound(dims, perm, index);
      output[flatOutId] := inVal;
    }
  }

  /** All work-items, in any order. */
  method RunKernel<T>(dims: Dims, perm: seq<int>, order: seq<nat>, input: seq<T>, output: array<T>)
    requires IsRequest(dims, perm) && |dims| > 0
    requires |input| == output.Length == Total(dims)
    requires IsSchedule(order, Total(dims))
    modifies output
    ensures IsTransposed(dims, perm, input, output[..])
  {
    for s := 0 to |order|
      invariant forall s' :: 0 <= s' < s ==>
                  0 <= FlatMap(dims, perm, order[s']) < output.Length
                    && output[FlatMap(dims, perm, order[s'])] == input[order[s']]
    {
      FlatMapBound(dims, perm, order[s]);
      forall s' | 0 <= s' < s
        ensures FlatMap(dims, perm, order[s']) != FlatMap(dims, perm, order[s])
      {
        MapIsBijection(dims, perm, FlatMap(dims, perm, order[s]));
      }
      TransposeItem(dims, perm, order[s], input, output);
    }
    forall x | 0 <= x < Total(dims)
      ensures 0 <= FlatMap(dims, perm, x) < Total(dims) && output[FlatMap(dims, perm, x)] == input[x]
    {
      var t: nat := x;
      assert t in order;
    }
  }

  datatype Status = OK | InvalidAlgorithm

  /** Theorem: the launch performs the requested transpose exactly when the rank that simplification leaves
      is one to six; otherwise it does nothing. */
  method Launch<T>(dims: Dims, perm: seq<int>, order: seq<nat>, input: seq<T>, output: array<T>)
    returns (status: Status)
    requires IsRequest(dims, perm)
    requires |input| == output.Length == Total(dims)
    requires IsSchedule(order, Total(dims))
    modifies output
    ensures status == OK ==> IsTransposed(dims, perm, input, output[..])
    ensures status == OK <==> 1 <= SimplifiedRank(perm) <= 6
    ensures status == InvalidAlgorithm ==> output[..] == old(output[..])
  {
    var t := new Transposition(dims, perm);
    t.SimplifyTranspose();
    var rank := |t.dimensions|;
    if 2 <= rank <= 6 {
      RunKernel(t.dimensions, t.permutation, order, input, output);
      forall x | 0 <= x < Total(dims)
        ensures 0 <= FlatMap(dims, perm, x) < Total(dims) && output[FlatMap(dims, perm, x)] == input[x]
      {
        assert FlatMap(t.dimensions, t.permutation, x) == FlatMap(dims, perm, x);
      }
      return OK;
    } else if rank == 1 {
      forall k | 0 <= k < output.Length {
        output[k] := input[k];
      }
      forall x | 0 <= x < Total(dims)
        ensures FlatMap(dims, perm, x) == x
      {
        IdentityMovesNothing(dims, perm, x);
      }
      return OK;
    }
    return InvalidAlgorithm;
  }
}
