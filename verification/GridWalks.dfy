/** Sums over a rectangle of a grid, accumulated row by row. */
module GridWalks {
  import opened Sums

  type Grid = (int, int) -> real

  /** All of the first r rows, and the first c elements of row r. */
  ghost function Walk(f: Grid, cols: nat, r: nat, c: nat): real
  {
    Sum2(r, cols, f) + Sum(c, j => f(r, j))
  }

  lemma SumIgnores(m: nat, n: nat, f: int -> real)
    requires forall i :: 0 <= i && (m <= i < n || n <= i < m) ==> f(i) == 0.0
    ensures Sum(m, f) == Sum(n, f)
  {
  }

  lemma WalkStart(f: Grid, cols: nat, r: nat)
    requires forall i, j :: 0 <= i < r && 0 <= j < cols ==> f(i, j) == 0.0
    ensures Walk(f, cols, r, 0) == 0.0
  {
    var row := i => Sum(cols, j => f(i, j));
    forall i | 0 <= i < r
      ensures row(i) == 0.0
    {
      SumZero(cols, j => f(i, j));
    }
    SumZero(r, row);
  }

  /** A row may be entered at column c when nothing is to the left of it. */
  lemma WalkEnterRow(f: Grid, cols: nat, r: nat, c: nat)
    requires forall j :: 0 <= j < c ==> f(r, j) == 0.0
    ensures Walk(f, cols, r, c) == Walk(f, cols, r, 0)
  {
    SumZero(c, j => f(r, j));
  }

  /** A row may be left at column c when nothing lies between it and the end of the row. */
  lemma WalkLeaveRow(f: Grid, cols: nat, r: nat, c: nat)
    requires forall j :: c <= j < cols || cols <= j < c ==> f(r, j) == 0.0
    ensures Walk(f, cols, r + 1, 0) == Walk(f, cols, r, c)
  {
    SumIgnores(c, cols, j => f(r, j));
    var row := i => Sum(cols, j => f(i, j));
    assert Sum(r + 1, row) == Sum(r, row) + row(r);
  }

  lemma WalkEnd(f: Grid, rows: nat, cols: nat, r: nat)
    requires forall i, j :: (r <= i < rows || rows <= i < r) && 0 <= j < cols ==> f(i, j) == 0.0
    ensures Walk(f, cols, r, 0) == Sum2(rows, cols, f)
  {
    var row := i => Sum(cols, j => f(i, j));
    forall i | r <= i < rows || rows <= i < r
      ensures row(i) == 0.0
    {
      SumZero(cols, j => f(i, j));
    }
    SumIgnores(r, rows, row);
  }

  /** One grid for each lane of a vector: f(l, r, c). */
  type LaneGrid = (int, int, int) -> real

  ghost function LaneOf(f: LaneGrid, l: int): Grid
  {
    (r, c) => f(l, r, c)
  }

  /** Nothing lies outside rows [rs, re) and columns [cs, ce). */
  ghost predicate Framed(f: LaneGrid, v: nat, rs: int, re: int, cs: int, ce: int)
  {
    forall l, r, c :: 0 <= l < v && r >= 0 && c >= 0 && !(rs <= r < re && cs <= c < ce) ==> f(l, r, c) == 0.0
  }

  /** Lane by lane, acc is the sum of what comes before (r, c). */
  ghost predicate Walked(f: LaneGrid, v: nat, cols: nat, r: nat, c: nat, acc: seq<real>)
  {
    |acc| == v && forall l :: 0 <= l < v ==> acc[l] == Walk(LaneOf(f, l), cols, r, c)
  }

  lemma WalkedStart(f: LaneGrid, v: nat, cols: nat, rs: nat, re: int, cs: int, ce: int, acc: seq<real>)
    requires Framed(f, v, rs, re, cs, ce) && |acc| == v && forall l :: 0 <= l < v ==> acc[l] == 0.0
    ensures Walked(f, v, cols, rs, 0, acc)
  {
    forall l | 0 <= l < v
      ensures Walk(LaneOf(f, l), cols, rs, 0) == 0.0
    {
      var g := LaneOf(f, l);
      forall i, j | 0 <= i < rs && 0 <= j < cols
        ensures g(i, j) == 0.0
      {
        assert f(l, i, j) == 0.0;
      }
      WalkStart(g, cols, rs);
    }
  }

  lemma WalkedEnter(f: LaneGrid, v: nat, cols: nat, r: nat, rs: int, re: int, cs: nat, ce: int, acc: seq<real>)
    requires Framed(f, v, rs, re, cs, ce) && Walked(f, v, cols, r, 0, acc)
    ensures Walked(f, v, cols, r, cs, acc)
  {
    forall l | 0 <= l < v
      ensures acc[l] == Walk(LaneOf(f, l), cols, r, cs)
    {
      var g := LaneOf(f, l);
      forall j | 0 <= j < cs
        ensures g(r, j) == 0.0
      {
        assert f(l, r, j) == 0.0;
      }
      WalkEnterRow(g, cols, r, cs);
    }
  }

  lemma WalkedStep(f: LaneGrid, v: nat, cols: nat, r: nat, c: nat, acc: seq<real>, acc': seq<real>)
    requires Walked(f, v, cols, r, c, acc)
    requires |acc'| == v && forall l :: 0 <= l < v ==> acc'[l] == acc[l] + f(l, r, c)
    ensures Walked(f, v, cols, r, c + 1, acc')
  {
  }

  lemma WalkedLeave(f: LaneGrid, v: nat, cols: nat, r: nat, rs: int, re: int, cs: int, ce: int, c: nat, acc: seq<real>)
    requires Framed(f, v, rs, re, cs, ce) && Walked(f, v, cols, r, c, acc) && c >= ce && ce <= cols
    ensures Walked(f, v, cols, r + 1, 0, acc)
  {
    forall l | 0 <= l < v
      ensures acc[l] == Walk(LaneOf(f, l), cols, r + 1, 0)
    {
      var g := LaneOf(f, l);
      forall j | c <= j < cols || cols <= j < c
        ensures g(r, j) == 0.0
      {
        assert f(l, r, j) == 0.0;
      }
      WalkLeaveRow(g, cols, r, c);
    }
  }

  lemma WalkedEnd(f: LaneGrid, v: nat, rows: nat, cols: nat, r: nat, rs: int, re: int, cs: int, ce: int, acc: seq<real>)
    requires Framed(f, v, rs, re, cs, ce) && Walked(f, v, cols, r, 0, acc) && r >= re && re <= rows
    ensures forall l :: 0 <= l < v ==> acc[l] == Sum2(rows, cols, LaneOf(f, l))
  {
    forall l | 0 <= l < v
      ensures acc[l] == Sum2(rows, cols, LaneOf(f, l))
    {
      var g := LaneOf(f, l);
      forall i, j | (r <= i < rows || rows <= i < r) && 0 <= j < cols
        ensures g(i, j) == 0.0
      {
        assert f(l, i, j) == 0.0;
      }
      WalkEnd(g, rows, cols, r);
    }
  }
}
