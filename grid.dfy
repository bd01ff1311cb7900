/** The grid class: a 9x9 array of cells addressed with 1-based coordinates, 0 for an empty
    cell, with the value scans of the constraint index, the validator, the text form and
    the two constructors (from a 9x9 board and from the tokens of a puzzle file). */
module SudokuGrid {
  import opened SudokuRules
  import opened Rendering
  import opened TokenWalk

  class Sudoku {
    var grid: array2<int>

    /** The board the array holds. */
    ghost var Cells: SudokuRules.Board

    ghost predicate Valid()
      reads this, grid
    {
      grid.Length0 == 9 && grid.Length1 == 9 && WellFormed(Cells)
      && forall row, col :: InGrid(row, col) ==> grid[row - 1, col - 1] == Cell(Cells, row, col)
    }

    /** A grid holding the given board. */
    constructor (cells: SudokuRules.Board)
      requires WellFormed(cells)
      ensures Valid() && fresh(grid)
      ensures Cells == cells
    {
      grid := new int[9, 9]((i, j) requires 0 <= i < 9 && 0 <= j < 9 => cells[i][j]);
      Cells := cells;
    }

    /** A grid loaded from the 81 tokens of a puzzle file, in row-major order. */
    constructor FromTokens(tokens: seq<Token>)
      requires |tokens| == 81 && DigitTokens(tokens)
      ensures Valid() && fresh(grid)
      ensures Cells == Loaded(tokens)
    {
      grid := new int[9, 9]((i, j) => 0);
      Cells := seq(9, i => seq(9, j => 0));
      new;
      var row, col := 1, 1;
      var k := 0;
      while k < |tokens|
        invariant Valid() && fresh(grid)
        invariant 0 <= k <= 81 && 1 <= col <= 9 && k == 9 * (row - 1) + col - 1
        invariant Position(row, col) == PositionAfter(k)
        invariant forall r, c :: InGrid(r, c) ==>
                    Cell(Cells, r, c) == if 9 * (r - 1) + c - 1 < k then TokenValue(tokens[9 * (r - 1) + c - 1]) else 0
      {
        var next := tokens[k];
        if next == Dash {
          SetValue(row, col, 0);
        } else {
          SetValue(row, col, next.n);
        }
        if col == 9 {
          col := 1;
          row := row + 1;
        } else {
          col := col + 1;
        }
        k := k + 1;
      }
      assert row == 10 && col == 1;
      SameCells(Cells, Loaded(tokens));
    }

    function GetValue(row: int, col: int): (v: int)
      reads this, grid
      requires Valid() && InGrid(row, col)
      ensures v == Cell(Cells, row, col)
    {
      grid[row - 1, col - 1]
    }

    method SetValue(row: int, col: int, val: int)
      requires Valid() && InGrid(row, col)
      modifies this`Cells, grid
      ensures Valid()
      ensures Cells == Place(old(Cells), row, col, val)
    {
      grid[row - 1, col - 1] := val;
      Cells := Place(Cells, row, col, val);
    }

    /** The non-zero values of a row, left to right. */
    method GetRowValues(row: int) returns (rowValues: seq<int>)
      requires Valid() && 1 <= row <= 9
      ensures rowValues == RowValues(Cells, row)
    {
      ghost var line := Cells[row - 1];
      rowValues := [];
      for col := 1 to 10
        invariant rowValues == NonZero(line[..col - 1])
      {
        var value := GetValue(row, col);
        NonZeroSnoc(line, col - 1);
        if value != 0 {
          rowValues := rowValues + [value];
        }
      }
      assert line[..9] == line;
    }

    /** The non-zero values of a column, top to bottom. */
    method GetColumnValues(col: int) returns (colValues: seq<int>)
      requires Valid() && 1 <= col <= 9
      ensures colValues == ColumnValues(Cells, col)
    {
      ghost var column := Column(Cells, col);
      colValues := [];
      for row := 1 to 10
        invariant colValues == NonZero(column[..row - 1])
      {
        var value := GetValue(row, col);
        NonZeroSnoc(column, row - 1);
        if value != 0 {
          colValues := colValues + [value];
        }
      }
      assert column[..9] == column;
    }

    /** The non-zero values of a box, its rows top to bottom and each row left to right. */
    method GetBoxValues(box: int) returns (boxValues: seq<int>)
      requires Valid() && 1 <= box <= 9
      ensures boxValues == BoxValues(Cells, box)
    {
      var startRow := BoxStartRow(box);
      var startCol := BoxStartCol(box);
      ghost var b := Cells;
      ghost var cells := Square(b, startRow, startCol);
      boxValues := [];
      for row := startRow to startRow + 3
        invariant boxValues == NonZero(cells[..3 * (row - startRow)])
      {
        for col := startCol to startCol + 3
          invariant boxValues == NonZero(cells[..3 * (row - startRow) + (col - startCol)])
        {
          var value := GetValue(row, col);
          SquareAt(b, startRow, startCol, row, col);
          NonZeroSnoc(cells, 3 * (row - startRow) + (col - startCol));
          if value != 0 {
            boxValues := boxValues + [value];
          }
        }
      }
      assert cells[..9] == cells;
    }

    /** Whether val may be placed at (row, col): it occurs in none of the value lists of the
        cell's row, column and box. */
    method IsValid(row: int, col: int, val: int) returns (ok: bool)
      requires Valid() && InGrid(row, col)
      ensures ok == ValidMove(Cells, row, col, val)
    {
      var rowValues := GetRowValues(row);
      var colValues := GetColumnValues(col);
      var box := BoxNumber(row, col);
      var boxValues := GetBoxValues(box);
      assert ValidMove(Cells, row, col, val) <==> val !in rowValues && val !in colValues && val !in boxValues;
      ok := Lacks(rowValues, val);
      if !ok {
        return;
      }
      ok := Lacks(colValues, val);
      if !ok {
        return;
      }
      ok := Lacks(boxValues, val);
    }

    /** The text form of the grid. */
    method ToString() returns (output: string)
      requires Valid()
      ensures output == Render(Cells)
    {
      ghost var b := Cells;
      output := "";
      for row := 0 to grid.Length0
        invariant output == GridText(b, row)
      {
        for col := 0 to grid.Length0
          invariant output == TextBefore(b, row, col)
        {
          assert InGrid(row + 1, col + 1) && grid[row, col] == Cell(b, row + 1, col + 1);
          var val := grid[row, col];
          if val == 0 {
            output := output + "- ";
          } else {
            output := output + (IntText(val) + " ");
          }
          if col == 2 || col == 5 {
            output := output + "| ";
          }
        }
        output := output + "\n";
        if row == 2 || row == 5 {
          output := output + DividerLine;
        }
        RowEnd(b, row);
      }
    }
  }

  /** The scan the validator runs over each value list: false as soon as an entry equals
      val, true when the whole list has been read. */
  method Lacks(values: seq<int>, val: int) returns (absent: bool)
    ensures absent <==> val !in values
  {
    for i := 0 to |values|
      invariant val !in values[..i]
    {
      if values[i] == val {
        return false;
      }
      assert values[..i + 1] == values[..i] + [values[i]];
    }
    assert values[..|values|] == values;
    return true;
  }
}
