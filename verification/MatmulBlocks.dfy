/** The register blocks of the matrix multiply: loads (masked at the edges, transposed on demand),
    multiply-accumulate and stores. A block is an array of row vectors. */
module MatmulBlocks {
  import opened Arithmetic
  import opened Sums
  import opened Adjoints
  import opened VectorIO

  /** The first n of `size` lanes are valid. (Masks at matrix edges always have this form.) */
  predicate IsMask(mask: seq<bool>, size: nat, n: nat)
  {
    |mask| == size && n <= size && forall i :: 0 <= i < size ==> (mask[i] <==> i < n)
  }

  ghost predicate IsBlock(block: array<seq<real>>, rows: nat, cols: nat)
    reads block
  {
    block.Length == rows && forall i :: 0 <= i < rows ==> |block[i]| == cols
  }

  /** Offset of row i of a matrix with leading dimension ld. */
  function RowStart(input: int, ld: nat, i: int): int
  {
    input + i * ld
  }

  lemma NextRowStart(input: int, ld: nat, i: int)
    ensures RowStart(input, ld, i + 1) == RowStart(input, ld, i) + ld
  {
  }

  lemma RowsApart(input: int, ld: nat, i: int, i': int)
    requires i < i'
    ensures RowStart(input, ld, i) + ld <= RowStart(input, ld, i')
  {
    MulMono(i + 1, i', ld);
    NextRowStart(input, ld, i);
  }

  /** The valid part of a block lies inside the buffer. */
  ghost predicate Fits(size: int, input: int, ld: nat, nr: nat, nc: nat)
  {
    forall i :: 0 <= i < nr ==> 0 <= RowStart(input, ld, i) && RowStart(input, ld, i) + nc <= size
  }

  method LoadRow(data: seq<real>, rowStart: int, cols: nat, mask: seq<bool>, ghost n: nat) returns (output: seq<real>)
    requires cols > 0 && IsMask(mask, cols, n)
    requires 0 <= rowStart && rowStart + n <= |data|
    ensures |output| == cols
    ensures forall j :: 0 <= j < cols ==> output[j] == if j < n then data[rowStart + j] else 0.0
  {
    if mask[cols - 1] {
      output := Load(data, rowStart, cols);
    } else {
      output := Splat(0.0, cols);
      var p := rowStart;
      for i := 0 to cols
        invariant p == rowStart + i && |output| == cols
        invariant forall j :: 0 <= j < i ==> output[j] == if j < n then data[rowStart + j] else 0.0
      {
        var val := if mask[i] then data[p] else 0.0;
        output := output[i := val];
        p := p + 1;
      }
    }
  }

  /** Masked load: elements outside the mask read as zero, and are not read at all. */
  method LoadBlockMasked(data: seq<real>, input: int, ld: nat, rows: nat, cols: nat, rowMask: seq<bool>,
                         colMask: seq<bool>, ghost nr: nat, ghost nc: nat)
    returns (output: array<seq<real>>)
    requires cols > 0 && IsMask(rowMask, rows, nr) && IsMask(colMask, cols, nc)
    requires Fits(|data|, input, ld, nr, nc)
    ensures fresh(output) && IsBlock(output, rows, cols)
    ensures forall i, j :: 0 <= i < rows && 0 <= j < cols ==>
              output[i][j] == if i < nr && j < nc then At(data, RowStart(input, ld, i) + j) else 0.0
  {
    output := new seq<real>[rows](_ => Splat(0.0, cols));
    var rowStart := input;
    for i := 0 to rows
      invariant rowStart == RowStart(input, ld, if i < nr then i else nr)
      invariant IsBlock(output, rows, cols)
      invariant forall i', j :: 0 <= i' < i && 0 <= j < cols ==>
                  output[i'][j] == if i' < nr && j < nc then At(data, RowStart(input, ld, i') + j) else 0.0
    {
      if rowMask[i] {
        var row := LoadRow(data, rowStart, cols, colMask, nc);
        output[i] := row;
        NextRowStart(input, ld, i);
        rowStart := rowStart + ld;
      } else {
        output[i] := Splat(0.0, cols);
      }
    }
  }

  method LoadBlock(data: seq<real>, input: int, ld: nat, rows: nat, cols: nat) returns (output: array<seq<real>>)
    requires Fits(|data|, input, ld, rows, cols)
    ensures fresh(output) && IsBlock(output, rows, cols)
    ensures forall i, j :: 0 <= i < rows && 0 <= j < cols ==> output[i][j] == At(data, RowStart(input, ld, i) + j)
  {
    output := new seq<real>[rows](_ => Splat(0.0, cols));
    var rowStart := input;
    for i := 0 to rows
      invariant rowStart == RowStart(input, ld, i)
      invariant IsBlock(output, rows, cols)
      invariant forall i', j :: 0 <= i' < i && 0 <= j < cols ==> output[i'][j] == At(data, RowStart(input, ld, i') + j)
    {
      output[i] := Load(data, rowStart, cols);
      NextRowStart(input, ld, i);
      rowStart := rowStart + ld;
    }
  }

  method TransposeBlock(input: array<seq<real>>, rows: nat, cols: nat) returns (output: array<seq<real>>)
    requires IsBlock(input, rows, cols)
    ensures fresh(output) && IsBlock(output, cols, rows)
    ensures forall i, j :: 0 <= i < cols && 0 <= j < rows ==> output[i][j] == input[j][i]
  {
    output := new seq<real>[cols](_ => Splat(0.0, rows));
    for i := 0 to cols
      invariant IsBlock(output, cols, rows)
      invariant forall i', j :: 0 <= i' < i && 0 <= j < rows ==> output[i'][j] == input[j][i']
    {
      for j := 0 to rows
        invariant IsBlock(output, cols, rows)
        invariant forall i', j' :: 0 <= i' < i && 0 <= j' < rows ==> output[i'][j'] == input[j'][i']
        invariant forall j' :: 0 <= j' < j ==> output[i][j'] == input[j'][i]
      {
        output[i] := output[i][j := input[j][i]];
      }
    }
  }

  /** Where element (i, j) of a block is stored, given whether the matrix is stored transposed. */
  function ElementAt(transpose: bool, input: int, ld: nat, i: int, j: int): int
  {
    if transpose then RowStart(input, ld, j) + i else RowStart(input, ld, i) + j
  }

  ghost predicate FitsFor(transpose: bool, size: int, input: int, ld: nat, nr: nat, nc: nat)
  {
    if transpose then Fits(size, input, ld, nc, nr) else Fits(size, input, ld, nr, nc)
  }

  method LoadMasked(transpose: bool, data: seq<real>, input: int, ld: nat, rows: nat, cols: nat,
                    rowMask: seq<bool>, colMask: seq<bool>, ghost nr: nat, ghost nc: nat)
    returns (output: array<seq<real>>)
    requires rows > 0 && cols > 0 && IsMask(rowMask, rows, nr) && IsMask(colMask, cols, nc)
    requires FitsFor(transpose, |data|, input, ld, nr, nc)
    ensures fresh(output) && IsBlock(output, rows, cols)
    ensures forall i, j :: 0 <= i < rows && 0 <= j < cols ==>
              output[i][j] == if i < nr && j < nc then At(data, ElementAt(transpose, input, ld, i, j)) else 0.0
  {
    if transpose {
      var outTrans := LoadBlockMasked(data, input, ld, cols, rows, colMask, rowMask, nc, nr);
      output := TransposeBlock(outTrans, cols, rows);
      forall i, j | 0 <= i < rows && 0 <= j < cols
        ensures output[i][j] == if i < nr && j < nc then At(data, ElementAt(transpose, input, ld, i, j)) else 0.0
      {
        assert output[i][j] == outTrans[j][i];
      }
    } else {
      output := LoadBlockMasked(data, input, ld, rows, cols, rowMask, colMask, nr, nc);
    }
  }

  method LoadUnmasked(transpose: bool, data: seq<real>, input: int, ld: nat, rows: nat, cols: nat)
    returns (output: array<seq<real>>)
    requires FitsFor(transpose, |data|, input, ld, rows, cols)
    ensures fresh(output) && IsBlock(output, rows, cols)
    ensures forall i, j :: 0 <= i < rows && 0 <= j < cols ==>
            output[i][j] == At(data, ElementAt(transpose, input, ld, i, j))
  {
    if transpose {
      var outTrans := LoadBlock(data, input, ld, cols, rows);
      output := TransposeBlock(outTrans, cols, rows);
      forall i, j | 0 <= i < rows && 0 <= j < cols
        ensures output[i][j] == At(data, ElementAt(transpose, input, ld, i, j))
      {
        assert output[i][j] == outTrans[j][i];
      }
    } else {
      output := LoadBlock(data, input, ld, rows, cols);
    }
  }

  method ScalarMultiply(block: array<seq<real>>, rows: nat, cols: nat, val: real)
    requires IsBlock(block, rows, cols)
    modifies block
    ensures IsBlock(block, rows, cols)
    ensures forall i, j :: 0 <= i < rows && 0 <= j < cols ==> block[i][j] == Times(old(block[i])[j], val)
  {
    for row := 0 to rows
      invariant IsBlock(block, rows, cols)
      invariant forall i :: row <= i < rows ==> block[i] == old(block[i])
      invariant forall i, j :: 0 <= i < row && 0 <= j < cols ==> block[i][j] == Times(old(block[i])[j], val)
    {
      var before := block[row];
      block[row] := seq(cols, j requires 0 <= j < |before| => Times(before[j], val));
    }
  }

  /** Element (i, j) of a block's contents. */
  ghost function Cell(block: seq<seq<real>>, i: int, j: int): real
  {
    if 0 <= i < |block| then At(block[i], j) else 0.0
  }

  /** The first n terms of the inner product of row r of lhs and column c of rhs. */
  ghost function RowDot(lhsRow: seq<real>, rhs: seq<seq<real>>, c: int, n: nat): real
  {
    Sum(n, a => Times(At(lhsRow, a), Cell(rhs, a, c)))
  }

  method MaccRow(lhsRow: seq<real>, rhs: array<seq<real>>, cols: nat, accumulator: seq<real>) returns (sum: seq<real>)
    requires IsBlock(rhs, |lhsRow|, cols) && |accumulator| == cols
    ensures |sum| == cols
    ensures forall c :: 0 <= c < cols ==> sum[c] == accumulator[c] + RowDot(lhsRow, rhs[..], c, |lhsRow|)
  {
    sum := accumulator;
    for acc := 0 to |lhsRow|
      invariant |sum| == cols
      invariant forall c :: 0 <= c < cols ==> sum[c] == accumulator[c] + RowDot(lhsRow, rhs[..], c, acc)
    {
      sum := Mad(Splat(lhsRow[acc], cols), rhs[acc], sum);
    }
  }

  /** accumulator += lhs * rhs */
  method BlockMmacc(lhs: array<seq<real>>, rhs: array<seq<real>>, accumulator: array<seq<real>>, rows: nat, accs: nat,
                    cols: nat)
    requires IsBlock(lhs, rows, accs) && IsBlock(rhs, accs, cols) && IsBlock(accumulator, rows, cols)
    requires accumulator != lhs && accumulator != rhs
    modifies accumulator
    ensures IsBlock(accumulator, rows, cols)
    ensures forall r, c :: 0 <= r < rows && 0 <= c < cols ==>
              accumulator[r][c] == old(accumulator[r])[c] + RowDot(lhs[r], rhs[..], c, accs)
  {
    for row := 0 to rows
      invariant IsBlock(accumulator, rows, cols)
      invariant forall r :: row <= r < rows ==> accumulator[r] == old(accumulator[r])
      invariant forall r, c :: 0 <= r < row && 0 <= c < cols ==>
                  accumulator[r][c] == old(accumulator[r])[c] + RowDot(lhs[r], rhs[..], c, accs)
    {
      var sum := MaccRow(lhs[row], rhs, cols, accumulator[row]);
      accumulator[row] := sum;
    }
  }

  method StoreRow(rowVec: seq<real>, data: array<real>, rowStart: int, validCol: seq<bool>, ghost n: nat)
    requires IsMask(validCol, |rowVec|, n)
    requires 0 <= rowStart && rowStart + n <= data.Length
    modifies data
    ensures forall k :: 0 <= k < data.Length ==>
              data[k] == if rowStart <= k < rowStart + n then rowVec[k - rowStart] else old(data[k])
  {
    var p := rowStart;
    for i := 0 to |rowVec|
      invariant p == rowStart + if i < n then i else n
      invariant forall k :: 0 <= k < data.Length ==>
                  data[k] == if rowStart <= k < p then rowVec[k - rowStart] else old(data[k])
    {
      if validCol[i] {
        data[p] := rowVec[i];
        p := p + 1;
      }
    }
  }

  /** Position k is one of the nr by nc elements of the matrix part at output. */
  ghost predicate Covers(output: int, ld: nat, nr: nat, nc: nat, k: int)
  {
    exists i :: 0 <= i < nr && RowStart(output, ld, i) <= k < RowStart(output, ld, i) + nc
  }

  /** The part holds the block, and the rest of the buffer is as it was. */
  ghost predicate Stored(block: seq<seq<real>>, before: seq<real>, after: seq<real>, output: int, ld: nat, nr: nat,
                         nc: nat)
  {
    && |after| == |before|
    && (forall i, j :: 0 <= i < nr && 0 <= j < nc ==> At(after, RowStart(output, ld, i) + j) == Cell(block, i, j))
    && (forall k :: 0 <= k < |after| && !Covers(output, ld, nr, nc, k) ==> after[k] == before[k])
  }

  lemma StoredNext(block: seq<seq<real>>, before: seq<real>, mid: seq<real>, after: seq<real>, output: int, ld: nat,
                   nr: nat, nc: nat)
    requires Stored(block, before, mid, output, ld, nr, nc) && nr < |block| && nc <= ld && nc <= |block[nr]|
    requires Fits(|before|, output, ld, nr + 1, nc) && |after| == |mid|
    requires forall k :: 0 <= k < |after| ==>
               after[k] == if RowStart(output, ld, nr) <= k < RowStart(output, ld, nr) + nc
                           then block[nr][k - RowStart(output, ld, nr)] else mid[k]
    ensures Stored(block, before, after, output, ld, nr + 1, nc)
  {
    forall i, j | 0 <= i < nr + 1 && 0 <= j < nc
      ensures At(after, RowStart(output, ld, i) + j) == Cell(block, i, j)
    {
      assert 0 <= RowStart(output, ld, i) && RowStart(output, ld, i) + nc <= |before|;
      if i < nr {
        RowsApart(output, ld, i, nr);
        assert At(mid, RowStart(output, ld, i) + j) == Cell(block, i, j);
      }
    }
    forall k | 0 <= k < |after| && !Covers(output, ld, nr + 1, nc, k)
      ensures after[k] == before[k]
    {
      assert !(RowStart(output, ld, nr) <= k < RowStart(output, ld, nr) + nc);
      assert !Covers(output, ld, nr, nc, k);
    }
  }

  /** Masked store: only the valid part of the block is written. */
  method StoreBlockMasked(block: array<seq<real>>, rows: nat, cols: nat, data: array<real>, output: int, ld: nat,
                          validRow: seq<bool>, validCol: seq<bool>, ghost nr: nat, ghost nc: nat)
    requires IsBlock(block, rows, cols) && IsMask(validRow, rows, nr) && IsMask(validCol, cols, nc)
    requires Fits(data.Length, output, ld, nr, nc) && nc <= ld
    modifies data
    ensures Stored(block[..], old(data[..]), data[..], output, ld, nr, nc)
  {
    var rowStart := output;
    for i := 0 to rows
      invariant rowStart == RowStart(output, ld, if i < nr then i else nr)
      invariant true == Stored(block[..], old(data[..]), data[..], output, ld, if i < nr then i else nr, nc)
    {
      if validRow[i] {
        ghost var mid := data[..];
        StoreRow(block[i], data, rowStart, validCol, nc);
        StoredNext(block[..], old(data[..]), mid, data[..], output, ld, i, nc);
        NextRowStart(output, ld, i);
        rowStart := rowStart + ld;
      }
    }
  }

  method StoreBlock(block: array<seq<real>>, rows: nat, cols: nat, data: array<real>, output: int, ld: nat)
    requires IsBlock(block, rows, cols)
    requires Fits(data.Length, output, ld, rows, cols) && cols <= ld
    modifies data
    ensures Stored(block[..], old(data[..]), data[..], output, ld, rows, cols)
  {
    var p := output;
    for i := 0 to rows
      invariant p == RowStart(output, ld, i)
      invariant true == Stored(block[..], old(data[..]), data[..], output, ld, i, cols)
    {
      ghost var mid := data[..];
      Store(data, p, block[i]);
      StoredNext(block[..], old(data[..]), mid, data[..], output, ld, i, cols);
      NextRowStart(output, ld, i);
      p := p + ld;
    }
  }
}
