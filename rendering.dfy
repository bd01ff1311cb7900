/** The text form of a board: one line per grid row with a `-` for an empty cell, the
    cell values separated by spaces, `| ` after the third and the sixth column, and a
    dashed divider line after the third and the sixth row. */
module Rendering {
  import opened SudokuRules

  /** The divider line that follows rows 3 and 6 (21 dashes). */
  const Divider: string := "---------------------"

  /** The divider and its line break. */
  const DividerLine: string := Divider + "\n"

  function DigitChar(d: int): (ch: char)
    requires 0 <= d <= 9
    ensures '0' <= ch <= '9'
  {
    ('0' as int + d) as char
  }

  /** The decimal digits of n, most significant first. */
  function NatText(n: nat): (s: string)
    ensures 1 <= |s|
    ensures forall ch :: ch in s ==> '0' <= ch <= '9'
  {
    if n < 10 then [DigitChar(n)] else NatText(n / 10) + [DigitChar(n % 10)]
  }

  /** An int concatenated to a string, as the JVM writes it: a minus sign for a negative
      number, then its decimal digits. */
  function IntText(n: int): (s: string)
    ensures 1 <= |s| && '\n' !in s && ' ' !in s
    ensures 0 <= n <= 9 ==> s == [DigitChar(n)]
  {
    if n < 0 then "-" + NatText(-n) else NatText(n)
  }

  /** The one-character form of a cell holding 0 to 9: `-` for an empty cell. */
  function CellChar(v: int): char
    requires 0 <= v <= 9
  {
    if v == 0 then '-' else DigitChar(v)
  }

  /** What one cell adds to its row line: `- ` for an empty cell, otherwise the value
      followed by a space. */
  function CellToken(v: int): (s: string)
    ensures 2 <= |s| && s[|s| - 1] == ' ' && '\n' !in s
    ensures 0 <= v <= 9 ==> s == [CellChar(v), ' ']
  {
    if v == 0 then "- " else IntText(v) + " "
  }

  /** The separator after column n: `| ` after columns 3 and 6, nothing elsewhere. */
  function Separator(n: nat): string
  {
    if n == 3 || n == 6 then "| " else ""
  }

  /** The first n columns of a grid row as text: each cell's token, and `| ` after the
      third and the sixth column. */
  function RowText(row: seq<int>, n: nat): (s: string)
    requires n <= |row|
    ensures '\n' !in s
  {
    if n == 0 then ""
    else
      var t := RowText(row, n - 1) + CellToken(row[n - 1]);
      if n == 3 || n == 6 then t + "| " else t
  }

  /** The first n grid rows as text: each row line ends with a line break, and the divider
      line follows the third and the sixth row. */
  function GridText(b: Board, n: nat): string
    requires WellFormed(b) && n <= 9
  {
    if n == 0 then ""
    else
      var t := GridText(b, n - 1) + RowText(b[n - 1], 9) + "\n";
      if n == 3 || n == 6 then t + DividerLine else t
  }

  /** The text of the whole board. */
  function Render(b: Board): string
    requires WellFormed(b)
  {
    GridText(b, 9)
  }

  /** The text of the grid rows before row (0-based) and of the first col cells of that
      row, built one cell at a time. */
  function TextBefore(b: Board, row: nat, col: nat): string
    requires WellFormed(b) && row < 9 && col <= 9
  {
    if col == 0 then GridText(b, row)
    else
      var t := TextBefore(b, row, col - 1) + CellToken(b[row][col - 1]);
      if col == 3 || col == 6 then t + "| " else t
  }

  /** Regrouping a three-part concatenation. */
  lemma Assoc(a: string, b: string, c: string)
    ensures a + b + c == a + (b + c)
  {
  }

  /** Building cell by cell gives the rows before and the start of the current row. */
  lemma {:induction false} TextBeforeIs(b: Board, row: nat, col: nat)
    requires WellFormed(b) && row < 9 && col <= 9
    ensures TextBefore(b, row, col) == GridText(b, row) + RowText(b[row], col)
  {
    var g := GridText(b, row);
    if col == 0 {
      assert g + "" == g;
    } else {
      TextBeforeIs(b, row, col - 1);
      var r, tok := RowText(b[row], col - 1), CellToken(b[row][col - 1]);
      Assoc(g, r, tok);
      if col == 3 || col == 6 {
        Assoc(g, r + tok, "| ");
      }
    }
  }

  /** A complete row, then its line break and, after rows 3 and 6, the divider line. */
  lemma RowEnd(b: Board, row: nat)
    requires WellFormed(b) && row < 9
    ensures var t := TextBefore(b, row, 9) + "\n";
            GridText(b, row + 1) == if row == 2 || row == 5 then t + DividerLine else t
  {
    TextBeforeIs(b, row, 9);
  }

  /** The grid row (0-based) that text line k shows, for a line that is not a divider. */
  function LineRow(k: nat): nat
  {
    k - (if k > 3 then 1 else 0) - (if k > 7 then 1 else 0)
  }

  /** The eleven lines of the text form: rows 1-3, a divider, rows 4-6, a divider, rows 7-9. */
  function Lines(b: Board): (r: seq<string>)
    requires WellFormed(b)
    ensures |r| == 11
    ensures forall k :: 0 <= k < |r| ==> '\n' !in r[k]
  {
    assert '\n' !in Divider;
    seq(11, k requires 0 <= k < 11 => if k == 3 || k == 7 then Divider else RowText(b[LineRow(k)], 9))
  }

  /** Lines, each followed by a line break. */
  function Unlines(ls: seq<string>): string
  {
    if ls == [] then "" else Unlines(ls[..|ls| - 1]) + ls[|ls| - 1] + "\n"
  }

  /** How many text lines the first n grid rows take, dividers included. */
  function LineCount(n: nat): nat
  {
    n + (if n >= 3 then 1 else 0) + (if n >= 6 then 1 else 0)
  }

  lemma UnlinesSnoc(ls: seq<string>, k: nat)
    requires k < |ls|
    ensures Unlines(ls[..k + 1]) == Unlines(ls[..k]) + ls[k] + "\n"
  {
    assert ls[..k + 1][..k] == ls[..k];
  }

  /** Line LineCount(n - 1) is grid row n, and a divider follows rows 3 and 6. */
  lemma LinesAt(b: Board, n: nat)
    requires WellFormed(b) && 1 <= n <= 9
    ensures LineCount(n - 1) < 11 && Lines(b)[LineCount(n - 1)] == RowText(b[n - 1], 9)
    ensures n == 3 || n == 6 ==> LineCount(n - 1) + 1 < 11 && Lines(b)[LineCount(n - 1) + 1] == Divider
  {
    var k := LineCount(n - 1);
    assert k != 3 && k != 7 && k < 11 && LineRow(k) == n - 1;
    assert n == 3 || n == 6 ==> k + 1 == 3 || k + 1 == 7;
  }

  /** Grid row n adds its line, and after rows 3 and 6 also the divider line. */
  lemma GridTextStep(b: Board, n: nat)
    requires WellFormed(b) && 1 <= n <= 9
    ensures LineCount(n) == LineCount(n - 1) + (if n == 3 || n == 6 then 2 else 1) <= 11
    ensures var ls, k := Lines(b), LineCount(n - 1);
            var t := GridText(b, n - 1) + ls[k] + "\n";
            GridText(b, n) == if n == 3 || n == 6 then t + (ls[k + 1] + "\n") else t
  {
    LinesAt(b, n);
  }

  /** The text of the first n grid rows is the first LineCount(n) lines. */
  lemma {:induction false} GridTextIsLines(b: Board, n: nat)
    requires WellFormed(b) && n <= 9
    ensures LineCount(n) <= 11
    ensures GridText(b, n) == Unlines(Lines(b)[..LineCount(n)])
  {
    if n > 0 {
      var ls, k := Lines(b), LineCount(n - 1);
      GridTextIsLines(b, n - 1);
      GridTextStep(b, n);
      UnlinesSnoc(ls, k);
      var line := GridText(b, n - 1) + ls[k] + "\n";
      assert line == Unlines(ls[..k + 1]);
      if n == 3 || n == 6 {
        UnlinesSnoc(ls, k + 1);
        Assoc(line, ls[k + 1], "\n");
      }
    }
  }

  /** The text form is the eleven lines, each ending in a line break. */
  lemma RenderIsLines(b: Board)
    requires WellFormed(b)
    ensures Render(b) == Unlines(Lines(b))
  {
    GridTextIsLines(b, 9);
    assert Lines(b)[..11] == Lines(b);
  }

  /** For a cell holding 0 to 9, column n adds its one-character form, a space and the
      separator. */
  lemma RowTextStep(row: seq<int>, n: nat)
    requires 1 <= n <= |row| && 0 <= row[n - 1] <= 9
    ensures RowText(row, n) == RowText(row, n - 1) + [CellChar(row[n - 1]), ' '] + Separator(n)
  {
    var t := RowText(row, n - 1) + [CellChar(row[n - 1]), ' '];
    assert t + "" == t;
  }

  /** Three cell tokens appended one by one, with empty separators between them. */
  lemma ThreeTokens(t: string, a: char, b: char, c: char, sep: string)
    ensures t + [a, ' '] + "" + [b, ' '] + "" + [c, ' '] + sep == t + [a, ' ', b, ' ', c, ' '] + sep
  {
    assert t + [a, ' '] + "" == t + [a, ' '];
    assert t + [a, ' '] + [b, ' '] + "" == t + [a, ' '] + [b, ' '];
    assert t + [a, ' '] + [b, ' '] + [c, ' '] == t + [a, ' ', b, ' ', c, ' '];
  }

  /** The tokens of columns j+1, j+2 and j+3 of a row holding 0 to 9, each followed by a space. */
  function Block(row: seq<int>, j: nat): (s: string)
    requires j + 3 <= |row| && forall i :: j <= i < j + 3 ==> 0 <= row[i] <= 9
    ensures |s| == 6
  {
    [CellChar(row[j]), ' ', CellChar(row[j + 1]), ' ', CellChar(row[j + 2]), ' ']
  }

  /** Three columns at a time: the tokens of columns n-2, n-1 and n, then `| ` unless n is 9. */
  lemma RowTextThird(row: seq<int>, n: nat)
    requires n in {3, 6, 9} && n <= |row| && forall j :: n - 3 <= j < n ==> 0 <= row[j] <= 9
    ensures RowText(row, n) == RowText(row, n - 3) + Block(row, n - 3) + Separator(n)
  {
    RowTextStep(row, n - 2);
    RowTextStep(row, n - 1);
    RowTextStep(row, n);
    assert Separator(n - 2) == "" && Separator(n - 1) == "";
    ThreeTokens(RowText(row, n - 3), CellChar(row[n - 3]), CellChar(row[n - 2]), CellChar(row[n - 1]), Separator(n));
  }

  /** For cells holding 0 to 9, a row line is the 9 one-character tokens, each followed by
      a space, with `| ` after the third and the sixth: 22 characters. */
  lemma RowLineLayout(row: seq<int>)
    requires |row| == 9 && forall j :: 0 <= j < 9 ==> 0 <= row[j] <= 9
    ensures RowText(row, 9) == Block(row, 0) + "| " + Block(row, 3) + "| " + Block(row, 6)
    ensures |RowText(row, 9)| == 22
  {
    assert Separator(3) == "| " && Separator(6) == "| " && Separator(9) == "";
    RowTextThird(row, 3);
    assert RowText(row, 0) == [];
    assert RowText(row, 3) == Block(row, 0) + "| ";
    RowTextThird(row, 6);
    RowTextThird(row, 9);
    assert RowText(row, 9) == RowText(row, 6) + Block(row, 6);
  }
}
