/**
 * The 4x4 board: lines (rows, columns via transposition, the two diagonals),
 * the win test over all of them, and the row-major scan for empty squares.
 */
module Boards {
  import opened Wrappers
  import opened Lines

  /** A row or column coordinate. */
  type Index = i: int | 0 <= i < 4

  /** A (row, col) coordinate pair. */
  type Square = (Index, Index)

  predicate IsGrid(m: seq<seq<Cell>>) {
    |m| == 4 && forall i :: 0 <= i < |m| ==> |m[i]| == 4
  }

  /** A board is four rows of four cells. */
  type Board = m: seq<seq<Cell>> | IsGrid(m)
    witness [[None, None, None, None], [None, None, None, None],
             [None, None, None, None], [None, None, None, None]]

  const EmptyRow: Line := [None, None, None, None]
  const EmptyBoard: Board := [EmptyRow, EmptyRow, EmptyRow, EmptyRow]

  /** Boards that agree on every square are equal. */
  lemma BoardExtensionality(a: Board, c: Board)
    requires forall i: Index, j: Index :: a[i][j] == c[i][j]
    ensures a == c
  {
    forall i: Index
      ensures a[i] == c[i]
    {
      assert forall j: Index :: a[i][j] == c[i][j];
    }
  }

  /** The board with square (row, col) set to x. */
  function SetCell(b: Board, row: Index, col: Index, x: Cell): (b': Board)
    ensures b'[row][col] == x
    ensures forall i: Index, j: Index :: (i, j) != (row, col) ==> b'[i][j] == b[i][j]
  {
    b[row := b[row][col := x]]
  }

  /** Column j of the board becomes row j of the result. */
  function Transpose(b: Board): (t: Board)
    ensures forall i: Index, j: Index :: t[j][i] == b[i][j]
  {
    seq(4, j requires 0 <= j < 4 => seq(4, i requires 0 <= i < 4 => b[i][j]))
  }

  /** The main diagonal and the anti-diagonal, each read from the top row down. */
  function Diagonals(b: Board): (d: (Line, Line))
    ensures |d.0| == 4 && |d.1| == 4
    ensures forall i: Index :: d.0[i] == b[i][i] && d.1[i] == b[i][3 - i]
  {
    (seq(4, i requires 0 <= i < 4 => b[i][i]),
     // `_get_diags` in state.py reads `row[-i-1]`, which is `row[3 - i]` on a row of four
     seq(4, i requires 0 <= i < 4 => b[i][3 - i]))
  }

  /** All ten lines: the four rows, the four columns, then the two diagonals. */
  function GetVectors(b: Board): (vs: seq<Line>)
    ensures |vs| == 10
    ensures forall k :: 0 <= k < 10 ==> |vs[k]| == 4
    ensures forall i: Index, j: Index :: vs[i][j] == b[i][j]
    ensures forall i: Index, j: Index :: vs[4 + j][i] == b[i][j]
    ensures forall i: Index :: vs[8][i] == b[i][i] && vs[9][i] == b[i][3 - i]
  {
    var d := Diagonals(b);
    b + Transpose(b) + [d.0, d.1]
  }

  /** Rows i.. and columns i.. of the board (t is its transpose) are checked, one index at a time. */
  predicate RowOrColumnWinsFrom(b: Board, t: Board, i: nat)
    requires i <= 4
    decreases 4 - i
  {
    i < 4 && (WinVec(b[i]) || WinVec(t[i]) || RowOrColumnWinsFrom(b, t, i + 1))
  }

  lemma {:induction false} RowOrColumnWinsFromMeans(b: Board, t: Board, i: nat)
    requires i <= 4
    ensures RowOrColumnWinsFrom(b, t, i) <==> exists j :: i <= j < 4 && (WinVec(b[j]) || WinVec(t[j]))
    decreases 4 - i
  {
    if i < 4 {
      RowOrColumnWinsFromMeans(b, t, i + 1);
    }
  }

  /** The ten lines of get_vectors, spelled out one by one. */
  lemma VectorsLayout(b: Board)
    ensures var vs, t, d := GetVectors(b), Transpose(b), Diagonals(b);
      vs[0] == b[0] && vs[1] == b[1] && vs[2] == b[2] && vs[3] == b[3] &&
      vs[4] == t[0] && vs[5] == t[1] && vs[6] == t[2] && vs[7] == t[3] &&
      vs[8] == d.0 && vs[9] == d.1
  {
  }

  /** The scan over rows, columns and diagonals tries each of the ten lines once. */
  lemma HasWinnerTriesEveryVector(b: Board)
    ensures var vs := GetVectors(b);
      HasWinner(b) <==>
        WinVec(vs[0]) || WinVec(vs[1]) || WinVec(vs[2]) || WinVec(vs[3]) || WinVec(vs[4]) ||
        WinVec(vs[5]) || WinVec(vs[6]) || WinVec(vs[7]) || WinVec(vs[8]) || WinVec(vs[9])
  {
  }

  /** Some one of ten lines wins exactly when the first, the second, ... or the tenth does. */
  lemma SomeOfTen(vs: seq<Line>)
    requires |vs| == 10
    ensures (exists k :: 0 <= k < 10 && WinVec(vs[k])) <==>
      WinVec(vs[0]) || WinVec(vs[1]) || WinVec(vs[2]) || WinVec(vs[3]) || WinVec(vs[4]) ||
      WinVec(vs[5]) || WinVec(vs[6]) || WinVec(vs[7]) || WinVec(vs[8]) || WinVec(vs[9])
  {
    if exists k :: 0 <= k < 10 && WinVec(vs[k]) {
      var k :| 0 <= k < 10 && WinVec(vs[k]);
      assert k in {0, 1, 2, 3, 4, 5, 6, 7, 8, 9};
    }
  }

  /**
   * Some row or column wins, checked with the same index for both; then the
   * two diagonals. That is exactly: some line of GetVectors passes the line
   * test, or, in reference terms, is full with an attribute its pieces share.
   */
  function HasWinner(b: Board): (won: bool)
    ensures won <==> exists k :: 0 <= k < 10 && WinVec(GetVectors(b)[k])
    ensures won <==> exists k :: 0 <= k < 10 && SharesAttribute(GetVectors(b)[k])
  {
    var t := Transpose(b);
    var d := Diagonals(b);
    VectorsLayout(b);
    SomeOfTen(GetVectors(b));
    RowOrColumnWinsFrom(b, t, 0) || WinVec(d.0) || WinVec(d.1)
  }

  lemma TransposeInvolutive(b: Board)
    ensures Transpose(Transpose(b)) == b
  {
    var tt := Transpose(Transpose(b));
    forall i: Index
      ensures tt[i] == b[i]
    {
      assert forall j: Index :: tt[i][j] == b[i][j];
    }
  }

  /** Transposing fixes the main diagonal and reverses the anti-diagonal, so both keep their cells. */
  lemma DiagonalsTranspose(b: Board)
    ensures Diagonals(Transpose(b)).0 == Diagonals(b).0
    ensures forall i: Index :: Diagonals(Transpose(b)).1[i] == Diagonals(b).1[3 - i]
    ensures forall c :: c in Diagonals(Transpose(b)).1 <==> c in Diagonals(b).1
  {
  }

  /** Mirroring the board in its main diagonal neither creates nor destroys a win. */
  lemma HasWinnerTranspose(b: Board)
    ensures HasWinner(Transpose(b)) <==> HasWinner(b)
  {
    var t := Transpose(b);
    HasWinnerTriesEveryVector(b);
    HasWinnerTriesEveryVector(t);
    VectorsLayout(b);
    VectorsLayout(t);
    TransposeInvolutive(b);
    DiagonalsTranspose(b);
    WinVecSameCells(Diagonals(t).1, Diagonals(b).1);
  }

  /** Row-major order on squares. */
  predicate Before(a: Square, c: Square) {
    a.0 < c.0 || (a.0 == c.0 && a.1 < c.1)
  }

  predicate StrictlyRowMajor(sqs: seq<Square>) {
    forall i, j :: 0 <= i < j < |sqs| ==> Before(sqs[i], sqs[j])
  }

  /** The inner loop: the empty squares of row `row` from column `col` on. */
  function ScanColumns(b: Board, row: Index, col: nat): (sqs: seq<Square>)
    requires col <= 4
    ensures StrictlyRowMajor(sqs)
    ensures forall sq :: sq in sqs <==> sq.0 == row && col <= sq.1 && b[sq.0][sq.1] == None
    decreases 4 - col
  {
    if col == 4 then []
    else (if b[row][col] == None then [(row, col as Index)] else []) + ScanColumns(b, row, col + 1)
  }

  /** The outer loop: the empty squares of rows `row` and below. */
  function ScanRows(b: Board, row: nat): (sqs: seq<Square>)
    requires row <= 4
    ensures StrictlyRowMajor(sqs)
    ensures forall sq :: sq in sqs <==> row <= sq.0 && b[sq.0][sq.1] == None
    decreases 4 - row
  {
    if row == 4 then [] else ScanColumns(b, row, 0) + ScanRows(b, row + 1)
  }

  /** The empty squares of the board, each once, in row-major order. */
  function FreeSquares(b: Board): (sqs: seq<Square>)
    ensures StrictlyRowMajor(sqs)
    ensures forall sq :: sq in sqs <==> b[sq.0][sq.1] == None
  {
    ScanRows(b, 0)
  }

  /** A strictly ordered list has no duplicates. */
  lemma StrictlyRowMajorDistinct(sqs: seq<Square>)
    requires StrictlyRowMajor(sqs)
    ensures forall i, j :: 0 <= i < |sqs| && 0 <= j < |sqs| && i != j ==> sqs[i] != sqs[j]
  {
  }

  /** The list with every occurrence of x dropped, order kept. */
  function Without(sqs: seq<Square>, x: Square): (r: seq<Square>)
    ensures forall sq :: sq in r <==> sq in sqs && sq != x
  {
    if |sqs| == 0 then []
    else (if sqs[0] == x then [] else [sqs[0]]) + Without(sqs[1..], x)
  }

  /** Two strictly ordered lists with the same elements are the same list. */
  lemma {:induction false} StrictlyRowMajorUnique(a: seq<Square>, c: seq<Square>)
    requires StrictlyRowMajor(a) && StrictlyRowMajor(c)
    requires forall sq :: sq in a <==> sq in c
    ensures a == c
  {
    // an element of either list is in the other, so both are empty or neither is
    if |a| > 0 {
      assert a[0] in c;
    }
    if |c| > 0 {
      assert c[0] in a;
    }
    if |a| > 0 {
      // the least element of each list is the least element of the other
      assert a[0] == c[0] by {
        assert a[0] in c && c[0] in a;
      }
      forall sq
        ensures sq in a[1..] <==> sq in c[1..]
      {
        if sq in a[1..] {
          var i :| 1 <= i < |a| && a[i] == sq;
          assert Before(a[0], sq);
          assert sq in c;
        }
        if sq in c[1..] {
          var i :| 1 <= i < |c| && c[i] == sq;
          assert Before(c[0], sq);
          assert sq in a;
        }
      }
      StrictlyRowMajorUnique(a[1..], c[1..]);
      assert a == [a[0]] + a[1..] && c == [c[0]] + c[1..];
    }
  }

  lemma {:induction false} WithoutKeepsOrder(sqs: seq<Square>, x: Square)
    requires StrictlyRowMajor(sqs)
    ensures StrictlyRowMajor(Without(sqs, x))
  {
    if |sqs| > 0 {
      WithoutKeepsOrder(sqs[1..], x);
      var rest := Without(sqs[1..], x);
      assert forall sq :: sq in rest ==> Before(sqs[0], sq);
    }
  }

  /** After a fill, a square is free exactly when it was free before and is not the filled one. */
  lemma FreeAfterFill(b: Board, row: Index, col: Index, p: Piece, sq: Square)
    ensures sq in FreeSquares(SetCell(b, row, col, Some(p))) <==> sq in Without(FreeSquares(b), (row, col))
  {
  }

  /** Filling an empty square removes exactly that square from the free list, and nothing else moves. */
  lemma FreeSquaresAfterFill(b: Board, row: Index, col: Index, p: Piece)
    requires b[row][col] == None
    ensures FreeSquares(SetCell(b, row, col, Some(p))) == Without(FreeSquares(b), (row, col))
  {
    var before := FreeSquares(b);
    var after := FreeSquares(SetCell(b, row, col, Some(p)));
    var expected := Without(before, (row, col));
    WithoutKeepsOrder(before, (row, col));
    forall sq: Square
      ensures sq in after <==> sq in expected
    {
      FreeAfterFill(b, row, col, p, sq);
    }
    StrictlyRowMajorUnique(after, expected);
  }

  /** The pieces on rows `row` and below, as a multiset. */
  function PlacedFrom(b: Board, row: nat): multiset<Piece>
    requires row <= 4
    decreases 4 - row
  {
    if row == 4 then multiset{} else Filled(b[row]) + PlacedFrom(b, row + 1)
  }

  /** The pieces on the board, as a multiset. */
  function Placed(b: Board): multiset<Piece> {
    PlacedFrom(b, 0)
  }

  /** Filling an empty square adds the piece to its own row's contents and leaves every other row's alone. */
  lemma FilledRowAfterFill(b: Board, row: Index, col: Index, p: Piece, r: Index)
    requires b[row][col] == None
    ensures r == row ==> Filled(SetCell(b, row, col, Some(p))[r]) == Filled(b[r]) + multiset{p}
    ensures r != row ==> Filled(SetCell(b, row, col, Some(p))[r]) == Filled(b[r])
  {
    var b' := SetCell(b, row, col, Some(p));
    if r == row {
      assert b'[r] == b[row][col := Some(p)];
      FilledUpdate(b[row], col, p);
    } else {
      assert b'[r] == b[r];
    }
  }

  lemma {:induction false} PlacedFromAfterFill(b: Board, row: Index, col: Index, p: Piece, from: nat)
    requires b[row][col] == None && from <= 4
    ensures from <= row ==> PlacedFrom(SetCell(b, row, col, Some(p)), from) == PlacedFrom(b, from) + multiset{p}
    ensures row < from ==> PlacedFrom(SetCell(b, row, col, Some(p)), from) == PlacedFrom(b, from)
    decreases 4 - from
  {
    if from < 4 {
      var b' := SetCell(b, row, col, Some(p));
      PlacedFromAfterFill(b, row, col, p, from + 1);
      FilledRowAfterFill(b, row, col, p, from);
      assert PlacedFrom(b', from) == Filled(b'[from]) + PlacedFrom(b', from + 1);
    }
  }

  /** Filling an empty square adds exactly the placed piece to the board's contents. */
  lemma PlacedAfterFill(b: Board, row: Index, col: Index, p: Piece)
    requires b[row][col] == None
    ensures Placed(SetCell(b, row, col, Some(p))) == Placed(b) + multiset{p}
  {
    PlacedFromAfterFill(b, row, col, p, 0);
  }

  /** Each square of row `row` from column `col` on is either listed as free or holds a piece. */
  lemma {:induction false} ScanColumnsCount(b: Board, row: Index, col: nat)
    requires col <= 4
    ensures |ScanColumns(b, row, col)| + |Filled(b[row][col..])| == 4 - col
    decreases 4 - col
  {
    if col < 4 {
      ScanColumnsCount(b, row, col + 1);
      assert b[row][col..][1..] == b[row][col + 1..];
    }
  }

  lemma {:induction false} ScanRowsCount(b: Board, row: nat)
    requires row <= 4
    ensures |ScanRows(b, row)| + |PlacedFrom(b, row)| == 4 * (4 - row)
    decreases 4 - row
  {
    if row < 4 {
      ScanRowsCount(b, row + 1);
      ScanColumnsCount(b, row, 0);
      assert b[row][0..] == b[row];
    }
  }

  /** Every square is either free or holds exactly one of the placed pieces. */
  lemma FreeSquaresCount(b: Board)
    ensures |FreeSquares(b)| + |Placed(b)| == 16
  {
    ScanRowsCount(b, 0);
  }
}
