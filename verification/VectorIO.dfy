/** Vector-wide loads, stores and arithmetic: a vector of width v is v consecutive elements. */
module VectorIO {
  import opened Arithmetic
  import opened Adjoints

  function Load<T>(data: seq<T>, offset: int, v: nat): (r: seq<T>)
    requires 0 <= offset && offset + v <= |data|
    ensures |r| == v && forall l :: 0 <= l < v ==> r[l] == data[offset + l]
  {
    data[offset..offset + v]
  }

  method Store<T>(data: array<T>, offset: int, val: seq<T>)
    requires 0 <= offset && offset + |val| <= data.Length
    modifies data
    ensures forall k :: 0 <= k < data.Length ==>
              data[k] == if offset <= k < offset + |val| then val[k - offset] else old(data[k])
  {
    for l := 0 to |val|
      invariant forall k :: 0 <= k < data.Length ==>
                  data[k] == if offset <= k < offset + l then val[k - offset] else old(data[k])
    {
      data[offset + l] := val[l];
    }
  }

  function Splat<T>(c: T, v: nat): seq<T>
  {
    seq(v, _ => c)
  }

  /** Lane-wise a*b + c. */
  function Mad(a: seq<real>, b: seq<real>, c: seq<real>): (r: seq<real>)
    requires |a| == |b| == |c|
    ensures |r| == |a| && forall l :: 0 <= l < |a| ==> r[l] == Times(a[l], b[l]) + c[l]
  {
    seq(|a|, l requires 0 <= l < |a| => a[l] * b[l] + c[l])
  }

  /** An execution order of n work-items: every id occurs, and occurs once. */
  ghost predicate IsSchedule(order: seq<nat>, n: nat)
  {
    && (forall i :: 0 <= i < |order| ==> order[i] < n)
    && (forall t :: 0 <= t < n ==> t in order)
    && (forall i, j :: 0 <= i < j < |order| ==> order[i] != order[j])
  }

  /** Element k belongs to the vector that work-item `item` writes. */
  predicate Owns(item: nat, v: nat, k: int)
  {
    item * v <= k < item * v + v
  }

  /** The lanes of vals are the elements of y from base on. */
  ghost predicate LanesAre<T(!new)>(vals: seq<T>, base: int, y: seq<T>)
  {
    forall l :: 0 <= l < |vals| ==> LaneIs(vals, base, y, l)
  }

  ghost predicate LaneIs<T(!new)>(vals: seq<T>, base: int, y: seq<T>, l: int)
  {
    0 <= l < |vals| && 0 <= base + l < |y| && vals[l] == y[base + l]
  }

  /** What holds lane by lane holds for the elements the vector owns. */
  lemma OwnedLanes<T(!new)>(vals: seq<T>, item: nat, v: nat, base: int, y: seq<T>)
    requires |vals| == v > 0 && base == item * v && LanesAre(vals, base, y)
    ensures 0 <= base && base + v <= |y|
    ensures forall k {:trigger Owns(item, v, k)} :: Owns(item, v, k) ==> vals[k - base] == y[k]
  {
    OwnedLane(vals, base, y, base);
    OwnedLane(vals, base, y, base + v - 1);
    forall k {:trigger Owns(item, v, k)} | Owns(item, v, k)
      ensures vals[k - base] == y[k]
    {
      OwnedLane(vals, base, y, k);
    }
  }

  lemma OwnedLane<T(!new)>(vals: seq<T>, base: int, y: seq<T>, k: int)
    requires LanesAre(vals, base, y) && base <= k < base + |vals|
    ensures 0 <= k < |y| && vals[k - base] == y[k]
  {
    var l := k - base;
    assert LaneIs(vals, base, y, l);
  }

  /** Every element has exactly one owner. */
  lemma OwnerIsQuotient(item: nat, v: nat, k: nat)
    requires v > 0
    ensures Owns(item, v, k) <==> item == k / v
  {
    if Owns(item, v, k) {
      DivModOfSum(item, v, k - item * v);
    }
  }

  /** In any schedule of enough work-items the owner of element k runs. */
  lemma OwnerScheduled(order: seq<nat>, n: nat, v: nat, k: nat)
    requires v > 0 && IsSchedule(order, n) && k / v < n
    ensures exists s :: 0 <= s < |order| && Owns(order[s], v, k)
  {
    QuotientShrinks(k, v);
    OwnerIsQuotient(k / v, v, k);
    var item: nat := k / v;
    assert item in order;
  }
}
