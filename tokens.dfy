/** The cell walk of the file constructor: tokens are read in row-major order, the
    position starting at (1, 1) and moving one column right after each token, from
    column 9 to column 1 of the next row. */
module TokenWalk {
  import opened SudokuRules

  /** A token of the puzzle file, already split and classified. */
  datatype Token = Dash | Num(n: int)

  /** The value a token stores: 0 for a dash. */
  function TokenValue(t: Token): int
  {
    match t
    case Dash => 0
    case Num(n) => n
  }

  datatype Position = Position(row: int, col: int)

  /** The position after one token. */
  function Advance(p: Position): Position
  {
    if p.col == 9 then Position(p.row + 1, 1) else Position(p.row, p.col + 1)
  }

  /** The position after k tokens. */
  function PositionAfter(k: nat): Position
  {
    if k == 0 then Position(1, 1) else Advance(PositionAfter(k - 1))
  }

  /** The k-th token (from 0) goes to cell (k/9 + 1, k%9 + 1). */
  lemma {:induction false} PositionAfterIs(k: nat)
    ensures PositionAfter(k) == Position(k / 9 + 1, k % 9 + 1)
  {
    if k > 0 {
      PositionAfterIs(k - 1);
      var q, m := (k - 1) / 9, (k - 1) % 9;
      assert k - 1 == 9 * q + m && 0 <= m < 9;
      if m == 8 {
        assert k == 9 * (q + 1) + 0;
      } else {
        assert k == 9 * q + (m + 1);
      }
    }
  }

  /** The walk stands at row 10, column 1 after exactly 81 tokens, and after no other number. */
  lemma WalkEnd(k: nat)
    ensures PositionAfter(k) == Position(10, 1) <==> k == 81
  {
    PositionAfterIs(k);
  }

  predicate DigitTokens(tokens: seq<Token>)
  {
    forall k :: 0 <= k < |tokens| && tokens[k].Num? ==> 1 <= tokens[k].n <= 9
  }

  /** The board 81 tokens describe: token 9*i + j fills cell (i + 1, j + 1). */
  function Loaded(tokens: seq<Token>): (b: Board)
    requires |tokens| == 81
    ensures WellFormed(b)
    ensures forall row, col :: InGrid(row, col) ==> Cell(b, row, col) == TokenValue(tokens[9 * (row - 1) + col - 1])
  {
    seq(9, i requires 0 <= i < 9 => seq(9, j requires 0 <= j < 9 => TokenValue(tokens[9 * i + j])))
  }

  /** From tokens that are dashes or numbers 1 to 9, every cell holds 0 to 9, and the
      empty cells are exactly the dashes. */
  lemma LoadedDigits(tokens: seq<Token>, row: int, col: int)
    requires |tokens| == 81 && DigitTokens(tokens) && InGrid(row, col)
    ensures 0 <= Cell(Loaded(tokens), row, col) <= 9
    ensures Cell(Loaded(tokens), row, col) == 0 <==> tokens[9 * (row - 1) + col - 1] == Dash
  {
    var k := 9 * (row - 1) + col - 1;
    assert 0 <= k < 81;
  }
}
