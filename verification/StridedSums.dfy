/** A triple sum split among items that stride through its first and last coordinates. */
module StridedSums {
  import opened Sums

  type Tap = (int, int, int) -> real

  /** The first n columns of row `row` of image b, as far as column item ki visits them. */
  ghost function ColumnsPart(tap: Tap, nk: nat, ki: int, b: int, row: int, n: nat): real
    requires nk > 0
  {
    ResidueSum(n, nk, ki, col => tap(b, row, col))
  }

  /** The first n rows of image b. */
  ghost function RowsPart(tap: Tap, nk: nat, ki: int, nCols: nat, b: int, n: nat): real
    requires nk > 0
  {
    Sum(n, row => ColumnsPart(tap, nk, ki, b, row, nCols))
  }

  /** The first n images, as far as batch item bi visits them. */
  ghost function ItemPart(tap: Tap, nb: nat, nk: nat, nRows: nat, nCols: nat, bi: int, ki: int, n: nat): real
    requires nb > 0 && nk > 0
  {
    ResidueSum(n, nb, bi, b => RowsPart(tap, nk, ki, nCols, b, nRows))
  }

  lemma ColumnsSplit(tap: Tap, nk: nat, nRows: nat, nCols: nat, b: int)
    requires nk > 0
    ensures Sum(nk, ki => RowsPart(tap, nk, ki, nCols, b, nRows)) == Sum2(nRows, nCols, (row, col) => tap(b, row, col))
  {
    var part := (ki, row) => ColumnsPart(tap, nk, ki, b, row, nCols);
    var item := ki => RowsPart(tap, nk, ki, nCols, b, nRows);
    forall ki | 0 <= ki < nk
      ensures item(ki) == Sum(nRows, row => part(ki, row))
    {
      SumExt(nRows, row => ColumnsPart(tap, nk, ki, b, row, nCols), row => part(ki, row));
    }
    SumExt(nk, item, ki => Sum(nRows, row => part(ki, row)));
    SumSwap(nk, nRows, part);
    var rows := row => Sum(nk, ki => part(ki, row));
    var f := (row, col) => tap(b, row, col);
    forall row | 0 <= row < nRows
      ensures rows(row) == Sum(nCols, col => f(row, col))
    {
      RowSplit(tap, nk, nCols, b, row);
      SumExt(nk, ki => part(ki, row), ki => ColumnsPart(tap, nk, ki, b, row, nCols));
      SumExt(nCols, col => f(row, col), col => tap(b, row, col));
    }
    Sum2Nested(nRows, nCols, f, rows);
  }

  lemma RowSplit(tap: Tap, nk: nat, nCols: nat, b: int, row: int)
    requires nk > 0
    ensures Sum(nk, ki => ColumnsPart(tap, nk, ki, b, row, nCols)) == Sum(nCols, col => tap(b, row, col))
  {
    var f := col => tap(b, row, col);
    SumResidues(nCols, nk, f);
    SumExt(nk, ki => ColumnsPart(tap, nk, ki, b, row, nCols), r => ResidueSum(nCols, nk, r, f));
  }

  /** Theorem: the items' parts add up to the whole sum; the split loses nothing and counts nothing twice. */
  lemma SplitIsLossless(tap: Tap, nb: nat, nk: nat, nImages: nat, nRows: nat, nCols: nat)
    requires nb > 0 && nk > 0
    ensures Sum2(nb, nk, (bi, ki) => ItemPart(tap, nb, nk, nRows, nCols, bi, ki, nImages))
            == Sum3(nImages, nRows, nCols, tap)
  {
    var part := (bi, ki) => ItemPart(tap, nb, nk, nRows, nCols, bi, ki, nImages);
    var image := b => Sum2(nRows, nCols, (row, col) => tap(b, row, col));
    var rows := bi => ResidueSum(nImages, nb, bi, image);
    forall bi | 0 <= bi < nb
      ensures rows(bi) == Sum(nk, ki => part(bi, ki))
    {
      ImagesOfItem(tap, nb, nk, nImages, nRows, nCols, bi, image);
      SumExt(nk, ki => part(bi, ki), ki => ItemPart(tap, nb, nk, nRows, nCols, bi, ki, nImages));
    }
    Sum2Nested(nb, nk, part, rows);
    SumResidues(nImages, nb, image);
    SumExt(nb, rows, r => ResidueSum(nImages, nb, r, image));
    OutermostFirst(nImages, nRows, nCols, tap, image);
  }

  lemma ImagesOfItem(tap: Tap, nb: nat, nk: nat, nImages: nat, nRows: nat, nCols: nat, bi: int, image: int -> real)
    requires nb > 0 && nk > 0
    requires forall b :: image(b) == Sum2(nRows, nCols, (row, col) => tap(b, row, col))
    ensures Sum(nk, ki => ItemPart(tap, nb, nk, nRows, nCols, bi, ki, nImages)) == ResidueSum(nImages, nb, bi, image)
  {
    var f := (ki, b) => RowsPart(tap, nk, ki, nCols, b, nRows);
    ResidueOfSums(nImages, nb, bi, nk, f);
    var item, itemG := ki => ItemPart(tap, nb, nk, nRows, nCols, bi, ki, nImages),
      ki => ResidueSum(nImages, nb, bi, b => f(ki, b));
    forall ki | 0 <= ki < nk
      ensures item(ki) == itemG(ki)
    {
      ResidueExt(nImages, nb, bi, b => RowsPart(tap, nk, ki, nCols, b, nRows), b => f(ki, b));
    }
    SumExt(nk, item, itemG);
    var whole := b => Sum(nk, ki => f(ki, b));
    forall b | 0 <= b < nImages
      ensures whole(b) == image(b)
    {
      ColumnsSplit(tap, nk, nRows, nCols, b);
      SumExt(nk, ki => f(ki, b), ki => RowsPart(tap, nk, ki, nCols, b, nRows));
    }
    ResidueExt(nImages, nb, bi, whole, image);
  }
}
