/** Tensors of any rank: dimensions, coordinates and flat indices, the last dimension most packed. */
module Shapes {
  import opened Arithmetic

  type Dims = seq<nat>

  predicate Positive(dims: Dims)
  {
    forall i :: 0 <= i < |dims| ==> dims[i] > 0
  }

  /** The number of elements. */
  function Total(dims: Dims): (r: nat)
    ensures Positive(dims) ==> r > 0
  {
    if dims == [] then 1 else Product(Total(dims[..|dims| - 1]), dims[|dims| - 1])
  }

  predicate InRange(dims: Dims, id: seq<int>)
  {
    |id| == |dims| && forall i :: 0 <= i < |dims| ==> 0 <= id[i] < dims[i]
  }

  function Ravel(dims: Dims, id: seq<int>): int
    requires |id| == |dims|
  {
    if dims == [] then 0
    else
      var n := |dims| - 1;
      Ravel(dims[..n], id[..n]) * dims[n] + id[n]
  }

  function Unravel(dims: Dims, x: int): (id: seq<int>)
    requires Positive(dims)
    ensures |id| == |dims|
  {
    if dims == [] then []
    else
      var n := |dims| - 1;
      Unravel(dims[..n], x / dims[n]) + [x % dims[n]]
  }

  lemma {:induction false} RavelBound(dims: Dims, id: seq<int>)
    requires InRange(dims, id)
    ensures 0 <= Ravel(dims, id) < Total(dims)
  {
    if dims != [] {
      var n := |dims| - 1;
      RavelBound(dims[..n], id[..n]);
      PairBound(Ravel(dims[..n], id[..n]), Total(dims[..n]), id[n], dims[n]);
    }
  }

  lemma {:induction false} UnravelOfRavel(dims: Dims, id: seq<int>)
    requires Positive(dims) && InRange(dims, id)
    ensures Unravel(dims, Ravel(dims, id)) == id
  {
    if dims != [] {
      var n := |dims| - 1;
      UnravelOfRavel(dims[..n], id[..n]);
      DivModOfSum(Ravel(dims[..n], id[..n]), dims[n], id[n]);
    }
  }

  lemma {:induction false} RavelOfUnravel(dims: Dims, x: int)
    requires Positive(dims) && 0 <= x < Total(dims)
    ensures InRange(dims, Unravel(dims, x))
    ensures Ravel(dims, Unravel(dims, x)) == x
  {
    if dims != [] {
      var n := |dims| - 1;
      SplitBound(x, Total(dims[..n]), dims[n]);
      RavelOfUnravel(dims[..n], x / dims[n]);
      var id := Unravel(dims, x);
      assert id[..n] == Unravel(dims[..n], x / dims[n]);
    }
  }

  function Without<T>(s: seq<T>, k: nat): (r: seq<T>)
    requires k < |s|
    ensures |r| == |s| - 1
    ensures forall i :: 0 <= i < |r| ==> r[i] == s[if i < k then i else i + 1]
  {
    s[..k] + s[k + 1..]
  }

  /** Any one dimension may be factored out of the size. */
  lemma {:induction false} TotalWithout(dims: Dims, k: nat)
    requires k < |dims|
    ensures Total(dims) == Total(Without(dims, k)) * dims[k]
  {
    var n := |dims| - 1;
    if k == n {
      assert Without(dims, k) == dims[..n];
    } else {
      TotalWithout(dims[..n], k);
      assert Without(dims, k)[..n - 1] == Without(dims[..n], k);
      MulAssoc(Total(Without(dims[..n], k)), dims[k], dims[n]);
    }
  }

  lemma TotalLast(dims: Dims)
    requires |dims| > 0
    ensures Total(dims) == Total(dims[..|dims| - 1]) * dims[|dims| - 1]
  {
  }
}
