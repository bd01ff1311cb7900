/** One numeric move of the game: the row, the column and the value are checked in that
    order, each failure reported by its own message, and a move that passes the checks
    is made only when the validator allows it. */
module SudokuGame {
  import opened SudokuRules
  import opened SudokuGrid

  /** What a move reports: made, or rejected by the first check it fails. */
  datatype Outcome = Accepted | InvalidRow | InvalidColumn | InvalidValue | InvalidMove

  /** The outcome of a move and the board it leaves. */
  datatype Turn = Turn(outcome: Outcome, board: Board)

  /** One move on board b. A row outside 1 to 9 is reported first, then a column outside
      1 to 9, then a value outside 0 to 9; a move within range is made exactly when it
      clears the cell or no cell of the same row, column or box holds the value, and a
      rejected move leaves the board as it was. */
  function Step(b: Board, row: int, col: int, val: int): (t: Turn)
    requires WellFormed(b)
    ensures WellFormed(t.board)
    ensures t.outcome == InvalidRow <==> !(1 <= row <= 9)
    ensures t.outcome == InvalidColumn <==> 1 <= row <= 9 && !(1 <= col <= 9)
    ensures t.outcome == InvalidValue <==> InGrid(row, col) && !(0 <= val <= 9)
    ensures t.outcome == Accepted <==> InGrid(row, col) && 0 <= val <= 9 && (val == 0 || !Conflicts(b, row, col, val))
    ensures t.outcome == InvalidMove <==> InGrid(row, col) && 1 <= val <= 9 && Conflicts(b, row, col, val)
    ensures t.outcome != Accepted ==> t.board == b
    ensures t.outcome == Accepted ==> t.board == Place(b, row, col, val)
  {
    if row < 1 || row > 9 then Turn(InvalidRow, b)
    else if col < 1 || col > 9 then Turn(InvalidColumn, b)
    else if val < 0 || val > 9 then Turn(InvalidValue, b)
    else
      ValidMoveIff(b, row, col, val);
      if ValidMove(b, row, col, val) then Turn(Accepted, Place(b, row, col, val))
      else Turn(InvalidMove, b)
  }

  /** A board on which no value repeats in a row, a column or a box keeps that property
      whatever move is entered. */
  lemma StepPreservesConsistency(b: Board, row: int, col: int, val: int)
    requires WellFormed(b) && Consistent(b)
    ensures Consistent(Step(b, row, col, val).board)
  {
    if Step(b, row, col, val).outcome == Accepted {
      ValidMoveIff(b, row, col, val);
      PlacePreservesConsistency(b, row, col, val);
    }
  }

  /** The validator counts the target cell itself: entering the value a cell already
      holds is rejected as an invalid move. */
  lemma RepeatRejected(b: Board, row: int, col: int)
    requires WellFormed(b) && InGrid(row, col) && 1 <= Cell(b, row, col) <= 9
    ensures Step(b, row, col, Cell(b, row, col)) == Turn(InvalidMove, b)
  {
    assert SameUnit(row, col, row, col);
    assert Conflicts(b, row, col, Cell(b, row, col));
  }

  /** A move entered on a grid: the checks in order, then the validator, then the update. */
  method MakeMove(sudoku: Sudoku, row: int, col: int, val: int) returns (outcome: Outcome)
    requires sudoku.Valid()
    modifies sudoku`Cells, sudoku.grid
    ensures sudoku.Valid()
    ensures Turn(outcome, sudoku.Cells) == Step(old(sudoku.Cells), row, col, val)
  {
    if row < 1 || row > 9 {
      return InvalidRow;
    }
    if col < 1 || col > 9 {
      return InvalidColumn;
    }
    if val < 0 || val > 9 {
      return InvalidValue;
    }
    var ok := sudoku.IsValid(row, col, val);
    if ok {
      sudoku.SetValue(row, col, val);
      outcome := Accepted;
    } else {
      outcome := InvalidMove;
    }
  }
}
