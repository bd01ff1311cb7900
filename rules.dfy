/** The 9x9 board as a value, the constraint index over it (the non-zero values of a row,
    a column or a box, and the box of a cell) and the move validator. Coordinates are
    1-based throughout, as in the grid class; 0 marks an empty cell. */
module SudokuRules {

  /** Rows of cells; a well-formed board has 9 rows of 9 cells. */
  type Board = seq<seq<int>>

  ghost predicate WellFormed(b: Board) {
    |b| == 9 && forall i :: 0 <= i < 9 ==> |b[i]| == 9
  }

  predicate InGrid(row: int, col: int) {
    1 <= row <= 9 && 1 <= col <= 9
  }

  /** The value of cell (row, col). */
  function Cell(b: Board, row: int, col: int): int
    requires WellFormed(b) && InGrid(row, col)
  {
    b[row - 1][col - 1]
  }

  /** The board with cell (row, col) set to val and every other cell as it was. */
  function Place(b: Board, row: int, col: int, val: int): (r: Board)
    requires WellFormed(b) && InGrid(row, col)
    ensures WellFormed(r)
    ensures Cell(r, row, col) == val
    ensures forall i, j :: InGrid(i, j) && (i, j) != (row, col) ==> Cell(r, i, j) == Cell(b, i, j)
  {
    b[row - 1 := b[row - 1][col - 1 := val]]
  }

  /** The non-zero elements of s, in their order in s. */
  function NonZero(s: seq<int>): (r: seq<int>)
    ensures |r| <= |s|
    ensures 0 !in r
    ensures forall v :: v in r <==> v != 0 && v in s
  {
    if s == [] then []
    else
      var init, last := s[..|s| - 1], s[|s| - 1];
      assert s == init + [last];
      NonZero(init) + (if last != 0 then [last] else [])
  }

  /** NonZero keeps every non-zero element of s as often as s holds it. */
  lemma {:induction false} NonZeroCounts(s: seq<int>)
    ensures multiset(NonZero(s)) == multiset(s)[0 := 0]
  {
    if s != [] {
      var init, last := s[..|s| - 1], s[|s| - 1];
      assert s == init + [last];
      NonZeroCounts(init);
    }
  }

  /** The box of a cell: boxes are numbered 1 to 9 in row-major order. */
  function BoxNumber(row: int, col: int): (box: int)
    requires InGrid(row, col)
    ensures 1 <= box <= 9
  {
    var boxRow := (row - 1) / 3;
    var boxCol := (col - 1) / 3;
    3 * boxRow + boxCol + 1
  }

  /** The top row and the left column of a box. */
  function BoxStartRow(box: int): (r: int)
    requires 1 <= box <= 9
    ensures r in {1, 4, 7}
  {
    ((box - 1) / 3) * 3 + 1
  }

  function BoxStartCol(box: int): (c: int)
    requires 1 <= box <= 9
    ensures c in {1, 4, 7}
  {
    ((box - 1) % 3) * 3 + 1
  }

  /** Column col, top to bottom. */
  function Column(b: Board, col: int): (r: seq<int>)
    requires WellFormed(b) && 1 <= col <= 9
    ensures |r| == 9
  {
    seq(9, i requires 0 <= i < 9 => b[i][col - 1])
  }

  /** The 9 cells of the 3x3 square whose top left cell is (startRow, startCol), its rows
      top to bottom, each row left to right. */
  function Square(b: Board, startRow: int, startCol: int): (r: seq<int>)
    requires WellFormed(b) && startRow in {1, 4, 7} && startCol in {1, 4, 7}
    ensures |r| == 9
  {
    var top, left := startRow - 1, startCol - 1;
    b[top][left..left + 3] + b[top + 1][left..left + 3] + b[top + 2][left..left + 3]
  }

  /** The 9 cells of a box in the order the scan visits them. */
  function BoxCells(b: Board, box: int): (r: seq<int>)
    requires WellFormed(b) && 1 <= box <= 9
    ensures |r| == 9
  {
    Square(b, BoxStartRow(box), BoxStartCol(box))
  }

  function RowValues(b: Board, row: int): seq<int>
    requires WellFormed(b) && 1 <= row <= 9
  {
    NonZero(b[row - 1])
  }

  function ColumnValues(b: Board, col: int): seq<int>
    requires WellFormed(b) && 1 <= col <= 9
  {
    NonZero(Column(b, col))
  }

  function BoxValues(b: Board, box: int): seq<int>
    requires WellFormed(b) && 1 <= box <= 9
  {
    NonZero(BoxCells(b, box))
  }

  /** The validator: val occurs in none of the three value lists of the cell. */
  predicate ValidMove(b: Board, row: int, col: int, val: int)
    requires WellFormed(b) && InGrid(row, col)
  {
    val !in RowValues(b, row) && val !in ColumnValues(b, col)
    && val !in BoxValues(b, BoxNumber(row, col))
  }

  /** Two cells share a row, a column or a box (a cell shares all three with itself). */
  predicate SameUnit(row1: int, col1: int, row2: int, col2: int)
    requires InGrid(row1, col1) && InGrid(row2, col2)
  {
    row1 == row2 || col1 == col2 || BoxNumber(row1, col1) == BoxNumber(row2, col2)
  }

  /** Some cell in the row, column or box of (row, col), that cell included, holds val. */
  ghost predicate Conflicts(b: Board, row: int, col: int, val: int)
    requires WellFormed(b) && InGrid(row, col)
  {
    exists row2, col2 :: InGrid(row2, col2) && SameUnit(row, col, row2, col2) && Cell(b, row2, col2) == val
  }

  /** No two distinct cells of one row, column or box hold the same non-zero value. */
  ghost predicate Consistent(b: Board)
    requires WellFormed(b)
  {
    forall row1, col1, row2, col2 ::
      InGrid(row1, col1) && InGrid(row2, col2) && (row1, col1) != (row2, col2)
      && SameUnit(row1, col1, row2, col2) && Cell(b, row1, col1) != 0
      ==> Cell(b, row1, col1) != Cell(b, row2, col2)
  }

  /** Two well-formed boards that agree on every cell are equal. */
  lemma SameCells(a: Board, b: Board)
    requires WellFormed(a) && WellFormed(b)
    requires forall row, col :: InGrid(row, col) ==> Cell(a, row, col) == Cell(b, row, col)
    ensures a == b
  {
    forall i | 0 <= i < 9 ensures a[i] == b[i] {
      forall j | 0 <= j < 9 ensures a[i][j] == b[i][j] {
        assert Cell(a, i + 1, j + 1) == Cell(b, i + 1, j + 1);
      }
    }
  }

  /** Scanning one more element extends the non-zero list by that element unless it is 0. */
  lemma NonZeroSnoc(s: seq<int>, k: nat)
    requires k < |s|
    ensures NonZero(s[..k + 1]) == NonZero(s[..k]) + (if s[k] != 0 then [s[k]] else [])
  {
    assert s[..k + 1][..k] == s[..k];
  }

  // ---------------------------------------------------------------------------
  // Boxes

  /** Boxes are numbered band by band: the box's band (box - 1) / 3 is the third of the grid
      the row lies in, and its place in the band (box - 1) % 3 the third the column lies in. */
  lemma BoxNumberThirds(row: int, col: int)
    requires InGrid(row, col)
    ensures (row - 1) / 3 == (BoxNumber(row, col) - 1) / 3
    ensures (col - 1) / 3 == (BoxNumber(row, col) - 1) % 3
  {
  }

  /** The corner cells and the centre cell land in boxes 1, 5 and 9. */
  lemma BoxNumberExamples(row: int, col: int)
    requires row == col && row in {1, 4, 9}
    ensures BoxNumber(row, col) == if row == 1 then 1 else if row == 4 then 5 else 9
  {
  }

  /** A row lies in the band of rows of box iff its third is the box's third. */
  lemma ThirdOf(x: int, start: int)
    requires 1 <= x <= 9 && start in {1, 4, 7}
    ensures (start <= x <= start + 2) <==> (x - 1) / 3 == (start - 1) / 3
  {
  }

  /** The scan of box visits exactly the cells whose box number is box: rows
      BoxStartRow(box) to BoxStartRow(box) + 2 and columns BoxStartCol(box) to
      BoxStartCol(box) + 2. */
  lemma BoxScan(box: int, row: int, col: int)
    requires 1 <= box <= 9 && InGrid(row, col)
    ensures BoxNumber(row, col) == box <==>
              BoxStartRow(box) <= row <= BoxStartRow(box) + 2
              && BoxStartCol(box) <= col <= BoxStartCol(box) + 2
  {
    var startRow, startCol := BoxStartRow(box), BoxStartCol(box);
    var q, m := (box - 1) / 3, (box - 1) % 3;
    assert box == 3 * q + m + 1 && 0 <= q < 3 && 0 <= m < 3;
    assert startRow == 3 * q + 1 && startCol == 3 * m + 1;
    assert (startRow - 1) / 3 == q && (startCol - 1) / 3 == m;
    ThirdOf(row, startRow);
    ThirdOf(col, startCol);
  }

  /** Every cell lies in the scan of its own box. */
  lemma CellInOwnBox(row: int, col: int)
    requires InGrid(row, col)
    ensures var box := BoxNumber(row, col);
            BoxStartRow(box) <= row <= BoxStartRow(box) + 2
            && BoxStartCol(box) <= col <= BoxStartCol(box) + 2
  {
    BoxScan(BoxNumber(row, col), row, col);
  }

  /** Position 3i + j of a square is its cell (startRow + i, startCol + j). */
  lemma SquareAt(b: Board, startRow: int, startCol: int, row: int, col: int)
    requires WellFormed(b) && startRow in {1, 4, 7} && startCol in {1, 4, 7}
    requires startRow <= row <= startRow + 2 && startCol <= col <= startCol + 2
    ensures Square(b, startRow, startCol)[3 * (row - startRow) + (col - startCol)] == Cell(b, row, col)
  {
    var top, left := startRow - 1, startCol - 1;
    var i, j := row - startRow, col - startCol;
    var cells := Square(b, startRow, startCol);
    var r0, r1, r2 := b[top][left..left + 3], b[top + 1][left..left + 3], b[top + 2][left..left + 3];
    assert cells == (r0 + r1) + r2;
    if i == 0 {
      assert cells[j] == (r0 + r1)[j] == r0[j];
    } else if i == 1 {
      assert cells[3 + j] == (r0 + r1)[3 + j] == r1[j];
    } else {
      assert cells[6 + j] == r2[j];
    }
  }

  /** Position 3i + j of the box scan is the cell (BoxStartRow + i, BoxStartCol + j). */
  lemma BoxCellAt(b: Board, box: int, row: int, col: int)
    requires WellFormed(b) && 1 <= box <= 9 && InGrid(row, col)
    requires BoxStartRow(box) <= row <= BoxStartRow(box) + 2
    requires BoxStartCol(box) <= col <= BoxStartCol(box) + 2
    ensures BoxCells(b, box)[3 * (row - BoxStartRow(box)) + (col - BoxStartCol(box))] == Cell(b, row, col)
  {
    SquareAt(b, BoxStartRow(box), BoxStartCol(box), row, col);
  }

  /** Position k of the box scan is a cell of that box. */
  lemma BoxScanAt(b: Board, box: int, k: int)
    requires WellFormed(b) && 1 <= box <= 9 && 0 <= k < 9
    ensures var i := if k < 3 then 0 else if k < 6 then 1 else 2;
            var row, col := BoxStartRow(box) + i, BoxStartCol(box) + (k - 3 * i);
            InGrid(row, col) && BoxNumber(row, col) == box && BoxCells(b, box)[k] == Cell(b, row, col)
  {
    var i := if k < 3 then 0 else if k < 6 then 1 else 2;
    var row, col := BoxStartRow(box) + i, BoxStartCol(box) + (k - 3 * i);
    BoxCellAt(b, box, row, col);
    BoxScan(box, row, col);
  }

  // ---------------------------------------------------------------------------
  // The value lists

  lemma RowValuesContain(b: Board, row: int, val: int)
    requires WellFormed(b) && 1 <= row <= 9
    ensures val in RowValues(b, row) <==> val != 0 && exists col :: 1 <= col <= 9 && Cell(b, row, col) == val
  {
    if val != 0 && val in b[row - 1] {
      var j :| 0 <= j < 9 && b[row - 1][j] == val;
      assert Cell(b, row, j + 1) == val;
    }
  }

  lemma ColumnValuesContain(b: Board, col: int, val: int)
    requires WellFormed(b) && 1 <= col <= 9
    ensures val in ColumnValues(b, col) <==> val != 0 && exists row :: 1 <= row <= 9 && Cell(b, row, col) == val
  {
    var column := Column(b, col);
    if val != 0 && val in column {
      var i :| 0 <= i < 9 && column[i] == val;
      assert Cell(b, i + 1, col) == val;
    }
    if val != 0 && exists row :: 1 <= row <= 9 && Cell(b, row, col) == val {
      var row :| 1 <= row <= 9 && Cell(b, row, col) == val;
      assert column[row - 1] == val;
    }
  }

  lemma BoxValuesContain(b: Board, box: int, val: int)
    requires WellFormed(b) && 1 <= box <= 9
    ensures val in BoxValues(b, box) <==>
              val != 0 && exists row, col :: InGrid(row, col) && BoxNumber(row, col) == box && Cell(b, row, col) == val
  {
    var cells := BoxCells(b, box);
    if val != 0 && val in cells {
      var k :| 0 <= k < 9 && cells[k] == val;
      BoxScanAt(b, box, k);
    }
    if val != 0 && exists row, col :: InGrid(row, col) && BoxNumber(row, col) == box && Cell(b, row, col) == val {
      var row, col :| InGrid(row, col) && BoxNumber(row, col) == box && Cell(b, row, col) == val;
      BoxScan(box, row, col);
      BoxCellAt(b, box, row, col);
    }
  }

  // ---------------------------------------------------------------------------
  // The validator

  /** The validator rejects val exactly when val is non-zero and already stands in the
      row, the column or the box of the cell (the cell itself included). */
  lemma ValidMoveIff(b: Board, row: int, col: int, val: int)
    requires WellFormed(b) && InGrid(row, col)
    ensures ValidMove(b, row, col, val) <==> val == 0 || !Conflicts(b, row, col, val)
  {
    var box := BoxNumber(row, col);
    RowValuesContain(b, row, val);
    ColumnValuesContain(b, col, val);
    BoxValuesContain(b, box, val);
    if val != 0 && Conflicts(b, row, col, val) {
      var row2, col2 :| InGrid(row2, col2) && SameUnit(row, col, row2, col2) && Cell(b, row2, col2) == val;
      if row2 == row {
        assert val in RowValues(b, row);
      } else if col2 == col {
        assert val in ColumnValues(b, col);
      } else {
        assert val in BoxValues(b, box);
      }
    }
    if !ValidMove(b, row, col, val) {
      if val in RowValues(b, row) {
        var col2 :| 1 <= col2 <= 9 && Cell(b, row, col2) == val;
        assert SameUnit(row, col, row, col2);
      } else if val in ColumnValues(b, col) {
        var row2 :| 1 <= row2 <= 9 && Cell(b, row2, col) == val;
        assert SameUnit(row, col, row2, col);
      } else {
        var row2, col2 :| InGrid(row2, col2) && BoxNumber(row2, col2) == box && Cell(b, row2, col2) == val;
        assert SameUnit(row, col, row2, col2);
      }
    }
  }

  /** Clearing a cell always passes the validator. */
  lemma ZeroAlwaysValid(b: Board, row: int, col: int)
    requires WellFormed(b) && InGrid(row, col)
    ensures ValidMove(b, row, col, 0)
  {
  }

  /** Placing a value the validator accepts keeps a consistent board consistent. */
  lemma PlacePreservesConsistency(b: Board, row: int, col: int, val: int)
    requires WellFormed(b) && InGrid(row, col) && Consistent(b) && ValidMove(b, row, col, val)
    ensures Consistent(Place(b, row, col, val))
  {
    ValidMoveIff(b, row, col, val);
    var b' := Place(b, row, col, val);
    forall row1, col1, row2, col2 |
      InGrid(row1, col1) && InGrid(row2, col2) && (row1, col1) != (row2, col2)
      && SameUnit(row1, col1, row2, col2) && Cell(b', row1, col1) != 0
      ensures Cell(b', row1, col1) != Cell(b', row2, col2)
    {
      if (row1, col1) == (row, col) {
        assert !Conflicts(b, row, col, val);
        assert Cell(b, row2, col2) != val;
      }
    }
  }
}
