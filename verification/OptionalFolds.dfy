/** Folds of a reduction operator over the values that are present. Having no value is neutral, so the
    folds need no neutral element of the operator itself. */
module OptionalFolds {
  import opened Reduction

  datatype Partial = Nothing | Value(v: real)

  function Join(op: Op, a: Partial, b: Partial): Partial
  {
    match (a, b)
    case (Nothing, _) => b
    case (_, Nothing) => a
    case (Value(x), Value(y)) => Value(Combine(op, x, y))
  }

  lemma JoinLaws(op: Op, a: Partial, b: Partial, c: Partial)
    ensures Join(op, a, b) == Join(op, b, a)
    ensures Join(op, Join(op, a, b), c) == Join(op, a, Join(op, b, c))
  {
  }

  /** f(0), ..., f(n-1) joined. */
  ghost function Joined(op: Op, n: nat, f: int -> Partial): Partial
  {
    if n == 0 then Nothing else Join(op, Joined(op, n - 1, f), f(n - 1))
  }

  lemma {:induction false} JoinedExt(op: Op, n: nat, f: int -> Partial, g: int -> Partial)
    requires forall i :: 0 <= i < n ==> f(i) == g(i)
    ensures Joined(op, n, f) == Joined(op, n, g)
  {
    if n > 0 {
      JoinedExt(op, n - 1, f, g);
    }
  }

  lemma {:induction false} JoinedNothing(op: Op, n: nat, f: int -> Partial)
    requires forall i :: 0 <= i < n ==> f(i) == Nothing
    ensures Joined(op, n, f) == Nothing
  {
    if n > 0 {
      JoinedNothing(op, n - 1, f);
    }
  }

  /** Only j has a value. */
  lemma {:induction false} JoinedOne(op: Op, n: nat, j: nat, f: int -> Partial)
    requires j < n && forall i :: 0 <= i < n && i != j ==> f(i) == Nothing
    ensures Joined(op, n, f) == f(j)
  {
    if j == n - 1 {
      JoinedNothing(op, n - 1, f);
    } else {
      JoinedOne(op, n - 1, j, f);
    }
  }

  /** Where one of the values is present, so is the result. */
  lemma {:induction false} JoinedPresent(op: Op, n: nat, j: nat, f: int -> Partial)
    requires j < n && f(j).Value?
    ensures Joined(op, n, f).Value?
  {
    if j < n - 1 {
      JoinedPresent(op, n - 1, j, f);
    }
  }

  lemma {:induction false} JoinedBoth(op: Op, n: nat, f: int -> Partial, g: int -> Partial, h: int -> Partial)
    requires forall i :: 0 <= i < n ==> h(i) == Join(op, f(i), g(i))
    ensures Joined(op, n, h) == Join(op, Joined(op, n, f), Joined(op, n, g))
  {
    if n > 0 {
      JoinedBoth(op, n - 1, f, g, h);
      FourJoined(op, Joined(op, n - 1, f), Joined(op, n - 1, g), f(n - 1), g(n - 1));
    }
  }

  lemma FourJoined(op: Op, a: Partial, b: Partial, c: Partial, d: Partial)
    ensures Join(op, Join(op, a, b), Join(op, c, d)) == Join(op, Join(op, a, c), Join(op, b, d))
  {
  }

  type Table = (int, int) -> Partial

  ghost function RowJoined(op: Op, n: nat, f: Table, i: int): Partial
  {
    Joined(op, n, j => f(i, j))
  }

  ghost function ColumnJoined(op: Op, m: nat, f: Table, j: int): Partial
  {
    Joined(op, m, i => f(i, j))
  }

  /** A table may be joined by rows or by columns. */
  lemma {:induction false} JoinedSwap(op: Op, m: nat, n: nat, f: Table, rows: int -> Partial, cols: int -> Partial)
    requires forall i :: 0 <= i < m ==> rows(i) == RowJoined(op, n, f, i)
    requires forall j :: 0 <= j < n ==> cols(j) == ColumnJoined(op, m, f, j)
    ensures Joined(op, m, rows) == Joined(op, n, cols)
  {
    if m == 0 {
      JoinedNothing(op, n, cols);
    } else {
      var fewer := j => ColumnJoined(op, m - 1, f, j);
      JoinedSwap(op, m - 1, n, f, rows, fewer);
      var last := j => f(m - 1, j);
      JoinedBoth(op, n, fewer, last, cols);
      JoinedExt(op, n, last, j => f(m - 1, j));
    }
  }

  /** A row of zeros after the first m values adds one zero, if it adds anything. */
  lemma {:induction false} JoinedZeros(op: Op, m: nat, n: nat, f: int -> Partial)
    requires m <= n && forall i :: m <= i < n ==> f(i) == Value(0.0)
    ensures Joined(op, n, f) == Padded(op, Joined(op, m, f), m < n)
  {
    if m < n {
      JoinedZeros(op, m, n - 1, f);
      PaddedAgain(op, Joined(op, m, f), m < n - 1, true);
    }
  }

  /** p, with one zero joined to it where something was padded. */
  function Padded(op: Op, p: Partial, pads: bool): Partial
  {
    if pads then Join(op, p, Value(0.0)) else p
  }

  lemma PaddedAgain(op: Op, p: Partial, a: bool, b: bool)
    ensures Padded(op, Padded(op, p, a), b) == Padded(op, p, a || b)
  {
  }
}
