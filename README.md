# Sudoku grid, constraint index and move rule

A model of the Sudoku grid class and the move rule of the console Sudoku game. The model
covers three things:

- The grid is a 9x9 array of `int`, addressed with 1-based row and column numbers, with 0
  for an empty cell.
- Three scans collect the non-zero values of a row, a column or one of the nine 3x3 boxes.
  The validator uses these lists to reject a value that already stands in the cell's row,
  column or box.
- `toString` draws the text form. The file constructor walks a stream of puzzle tokens, `-`
  or a number, in row-major order.

Each turn of the game checks the row, then the column, then the value. It then asks the
validator and writes the cell only when the validator allows the move.

Modules:

- `SudokuRules` (`rules.dfy`) specifies the board as a value, `Board = seq<seq<int>>`, with
  `Cell(b, row, col)` for cell (row, col). It defines:
  - the value lists `RowValues`, `ColumnValues` and `BoxValues`, each `NonZero` of the
    cells in scan order;
  - `BoxNumber` and the box corner;
  - the validator `ValidMove`;
  - two independent readings: `Conflicts` (some cell of the same row, column or box,
    the cell itself included, holds the value) and `Consistent` (no non-zero value
    repeats in a row, a column or a box).
- `Rendering` (`rendering.dfy`) defines the text form. `Render` builds it the way the
  loop does. `Lines` gives an independent description: eleven lines, two of them dividers.
- `TokenWalk` (`tokens.dfy`) models the position walk of the file constructor over tokens
  that are already split into `Dash | Num(n)`.
- `SudokuGrid` (`grid.dfy`) has the class `Sudoku`. It owns an `array2<int>` and a ghost
  field `Cells` holding the board the array stores. `Valid()` ties the two together. Its
  methods carry the loops of the Java methods and are proved against the `SudokuRules`,
  `Rendering` and `TokenWalk` functions.
- `SudokuGame` (`game.dfy`) has the move rule. `Step` is a function from a board and a
  move to an outcome and the next board. `MakeMove` is the same turn on a `Sudoku` object.

## Model

| member | source | states |
|---|---|---|
| SudokuGrid.Sudoku.constructor | src/sudoku/Sudoku-7.java:16-19 | the grid object holds exactly the given 9x9 board |
| SudokuGrid.Sudoku.FromTokens | src/sudoku/Sudoku-7.java:27-73 | after the token walk, every cell holds the value of its token in row-major order, with 0 for a dash; the body proves the walk ends at row 10, column 1 |
| TokenWalk.PositionAfterIs | src/sudoku/Sudoku-7.java:36-68 | after k tokens the walk stands at cell (k/9 + 1, k%9 + 1): column 9 wraps to column 1 of the next row |
| TokenWalk.WalkEnd | src/sudoku/Sudoku-7.java:71 | the walk is at row 10, column 1 after exactly 81 tokens and after no smaller number |
| TokenWalk.Loaded | src/sudoku/Sudoku-7.java:39-68 | the board 81 tokens describe is well formed, and token 9(row-1) + col-1 fills cell (row, col) |
| TokenWalk.LoadedDigits | src/sudoku/Sudoku-7.java:44-53 | from dashes and numbers 1 to 9, every cell holds 0 to 9, and a cell is empty exactly when its token is a dash |
| SudokuGrid.Sudoku.GetValue | src/sudoku/Sudoku-7.java:82-85 | reads cell (row, col) of the board, 1-based |
| SudokuGrid.Sudoku.SetValue | src/sudoku/Sudoku-7.java:94-97 | the board becomes `Place(old board, row, col, val)` and the grid stays valid |
| SudokuRules.Place | src/sudoku/Sudoku-7.java:94-97 | the placed cell holds val, and every other cell keeps its value |
| SudokuRules.SameCells | src/sudoku/Sudoku-7.java:82-85 | two boards that agree on every cell (row, col) are the same board |
| SudokuGrid.Sudoku.GetRowValues | src/sudoku/Sudoku-7.java:153-170 | the scan of row returns the row's non-zero values in column order |
| SudokuGrid.Sudoku.GetColumnValues | src/sudoku/Sudoku-7.java:179-196 | the scan of column returns the column's non-zero values in row order |
| SudokuGrid.Sudoku.GetBoxValues | src/sudoku/Sudoku-7.java:207-260 | the scan of box returns its non-zero values, its rows top to bottom and each row left to right |
| SudokuRules.NonZero | src/sudoku/Sudoku-7.java:153-170 | a value list is no longer than what was scanned, holds no 0, and contains v iff v is non-zero and was scanned |
| SudokuRules.NonZeroCounts | src/sudoku/Sudoku-7.java:153-170 | a value list keeps each non-zero value exactly as often as the scanned cells hold it |
| SudokuRules.NonZeroSnoc | src/sudoku/Sudoku-7.java:159-168 | scanning one more cell appends its value when it is non-zero and leaves the list as it was otherwise |
| SudokuRules.RowValuesContain | src/sudoku/Sudoku-7.java:153-170 | v is in the row's list iff v is non-zero and some cell of the row holds v |
| SudokuRules.ColumnValuesContain | src/sudoku/Sudoku-7.java:179-196 | v is in the column's list iff v is non-zero and some cell of the column holds v |
| SudokuRules.BoxValuesContain | src/sudoku/Sudoku-7.java:207-260 | v is in the box's list iff v is non-zero and some cell whose box number is box holds v |
| SudokuRules.BoxNumber | src/sudoku/Sudoku-7.java:323-343 | every cell of the grid has a box number from 1 to 9 |
| SudokuRules.BoxNumberThirds | src/sudoku/Sudoku-7.java:329-341 | the box's band of three boxes is the row's third of the grid, and its place in the band is the column's third |
| SudokuRules.BoxNumberExamples | src/sudoku/Sudoku-7.java:323-343 | cells (1,1), (4,4) and (9,9) are in boxes 1, 5 and 9 |
| SudokuRules.BoxStartRow | src/sudoku/Sudoku-7.java:219 | a box's top row is 1, 4 or 7 |
| SudokuRules.BoxStartCol | src/sudoku/Sudoku-7.java:227 | a box's left column is 1, 4 or 7 |
| SudokuRules.BoxScan | src/sudoku/Sudoku-7.java:219-258 | the box scan visits exactly the cells whose box number is box: rows startRow to startRow + 2 and columns startCol to startCol + 2 |
| SudokuRules.CellInOwnBox | src/sudoku/Sudoku-7.java:219-258 | every cell lies in the scan of its own box |
| SudokuRules.SquareAt | src/sudoku/Sudoku-7.java:245-258 | the nested loops reach cell (startRow + i, startCol + j) as the 3i + j-th cell of the box |
| SudokuRules.BoxCellAt | src/sudoku/Sudoku-7.java:245-258 | the same for the scan of a box number |
| SudokuRules.BoxScanAt | src/sudoku/Sudoku-7.java:245-258 | every cell the box scan reads lies in the grid and has that box number |
| SudokuGrid.Sudoku.IsValid | src/sudoku/Sudoku-7.java:345-388 | returns true iff val is in none of the value lists of the cell's row, column and box; like the scans, it changes no cell |
| SudokuGrid.Lacks | src/sudoku/Sudoku-7.java:356-383 | one of the validator's three scans: false iff val occurs in the list |
| SudokuRules.ValidMoveIff | src/sudoku/Sudoku-7.java:345-388 | the validator accepts val iff val is 0 or no cell of the same row, column or box, the cell itself included, holds val |
| SudokuRules.ZeroAlwaysValid | src/sudoku/Sudoku-7.java:345-388 | clearing a cell always passes the validator |
| SudokuRules.PlacePreservesConsistency | src/sudoku/Sudoku-7.java:345-388 | placing a value the validator accepts keeps a board without repeated values in rows, columns and boxes free of them |
| SudokuGrid.Sudoku.ToString | src/sudoku/Sudoku-7.java:108-144 | the text the loops build is the text form of the board |
| Rendering.IntText | src/sudoku/Sudoku-7.java:125 | a value's text is non-empty, has no space or line break, and is one digit for 0 to 9 |
| Rendering.CellToken | src/sudoku/Sudoku-7.java:118-126 | what a cell adds to its row line ends in a space and holds no line break; for 0 to 9 it is the cell's one character, `-` when empty, and a space |
| Rendering.RowText | src/sudoku/Sudoku-7.java:116-133 | a row line holds no line break |
| Rendering.Lines | src/sudoku/Sudoku-7.java:113-142 | the text form has eleven lines, none holding a line break: three row lines, a divider, three row lines, a divider and three row lines |
| Rendering.TextBeforeIs | src/sudoku/Sudoku-7.java:116-133 | building a row cell by cell gives the rows above followed by the start of the row's line |
| Rendering.RowEnd | src/sudoku/Sudoku-7.java:135-141 | a finished row adds its line break, and the divider line after rows 3 and 6 |
| Rendering.GridTextIsLines | src/sudoku/Sudoku-7.java:113-142 | the text of the first n rows is the first lines of the eleven, each followed by a line break |
| Rendering.RenderIsLines | src/sudoku/Sudoku-7.java:108-144 | the whole text form is the eleven lines, each followed by a line break |
| Rendering.RowLineLayout | src/sudoku/Sudoku-7.java:116-133 | a row of values 0 to 9 is three blocks of three one-character tokens, each followed by a space, with `\| ` between the blocks: 22 characters |
| Rendering.RowTextStep | src/sudoku/Sudoku-7.java:118-132 | for a cell holding 0 to 9, a column adds its one character, a space and `\| ` after columns 3 and 6 |
| Rendering.RowTextThird | src/sudoku/Sudoku-7.java:116-133 | three columns add one block of tokens and their separator |
| Rendering.GridTextStep | src/sudoku/Sudoku-7.java:113-142 | grid row n adds its line, and after rows 3 and 6 also the divider line |
| Rendering.LinesAt | src/sudoku/Sudoku-7.java:113-142 | line LineCount(n - 1) shows grid row n, and a divider follows rows 3 and 6 |
| Rendering.NatText | src/sudoku/Sudoku-7.java:125 | the decimal text of a natural number is non-empty and made of digits |
| SudokuGame.Step | src/sudoku/SudokuGame-8.java:32-61 | a row outside 1 to 9 is "Invalid row"; with the row in range, a column outside 1 to 9 is "Invalid column"; with both in range, a value outside 0 to 9 is "Invalid value"; otherwise the move is made iff val is 0 or conflicts with no cell of its row, column or box, and is "Invalid move" iff it does; a rejected move leaves the board unchanged, and a made move changes only the addressed cell |
| SudokuGame.StepPreservesConsistency | src/sudoku/SudokuGame-8.java:52-56 | whatever move is entered, a board with no repeated value in a row, a column or a box keeps that property |
| SudokuGame.RepeatRejected | src/sudoku/SudokuGame-8.java:53-61 | entering a non-zero value the cell already holds is rejected as "Invalid move", because the validator counts the target cell itself |
| SudokuGame.MakeMove | src/sudoku/SudokuGame-8.java:32-61 | a turn on a grid object reports the outcome of `Step` and leaves the grid holding `Step`'s board |

## Left out

- File and console input: `FileReader`, `Scanner` and `Integer.parseInt` are not part of
  this model. The file constructor takes its tokens already split and classified as `Dash`
  or `Num(n)`.
- SudokuGrid.Sudoku.FromTokens: requires exactly 81 tokens and numbers 1 to 9, which are
  the two Java `assert`s of the constructor.
  - With assertions disabled, fewer tokens would leave the remaining cells 0.
  - More than 81 tokens would throw an array index exception at row 10.
  - A number outside 1 to 9 would be stored as read.
  - None of these runs is modelled.
- The aliasing in `Sudoku(int[][] grid)`, which keeps the caller's array. The model's
  constructor copies the board into an array of its own, so sharing with the caller is not
  captured.
- `printRow`, `printCol` and `printBox` only write a value list to standard output.
- In the game, `main`'s `while(true)` prompt loop, printing the board each turn, the quit
  command `q` and the "Invalid command" branch are interaction code. The numeric-move
  branch is modelled as one turn by `Step` and `MakeMove`, and the printed messages
  become the `Outcome` values.
- Coordinates out of range on the grid object: `getValue`, `setValue` and `isValid` with a
  row or column outside 1 to 9, and `getBoxValues` with a box outside 1 to 9, throw an
  array index exception in Java. The model's methods require coordinates in range, so
  those exceptions are not captured; the game range-checks the row, the column and the
  value before any of these calls, and `Step` models those checks and their messages.
- The solver command is an empty stub in the source, so there is nothing to model.
- SudokuGrid.Sudoku.ToString: the model covers any integer cell value. The layout lemmas
  (`RowLineLayout`, one character per cell) require cells holding 0 to 9. For a larger or
  negative value the token is the value's decimal text with its minus sign, as Java prints
  it; no layout is claimed for it.
- SudokuGrid.Lacks: `isValid` repeats the same early-return loop over its three lists. The
  model writes that loop once and calls it three times; the order of the checks and the
  early `false` are kept.
- Java `int` overflow cannot occur: every arithmetic step works on row, column and box
  numbers from 1 to 10.
