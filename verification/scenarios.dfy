/** The concrete positions of the repository's unit tests, as lemmas about the model. */
module Scenarios {
  import opened Wrappers
  import opened Lines
  import opened Boards
  import opened GameState

  function FullRow(a: Piece, b: Piece, c: Piece, d: Piece): Line {
    [Some(a), Some(b), Some(c), Some(d)]
  }

  /** The fully populated board used by the placement, diagonal and transpose tests. */
  const Full: Board := [FullRow(15, 8, 14, 4), FullRow(0, 2, 12, 7), FullRow(1, 3, 5, 9), FullRow(11, 13, 10, 6)]

  /** 12, 8, 14, 15 all have bit 3 set, so they share attribute 3. */
  lemma WinningLine()
    ensures WinVec(FullRow(12, 8, 14, 15))
  {
    var row := FullRow(12, 8, 14, 15);
    assert row[0].value == 12 && row[1].value == 8 && row[2].value == 14 && row[3].value == 15;
    assert AgreeOn(row, 3);
  }

  /** A row of 12, 8, 14, 15 shares attribute 3 (all have bit 3 set), so the board is won. */
  lemma WinningRow()
    ensures HasWinner([FullRow(12, 8, 14, 15), EmptyRow, EmptyRow, EmptyRow])
  {
    var b: Board := [FullRow(12, 8, 14, 15), EmptyRow, EmptyRow, EmptyRow];
    WinningLine();
    VectorsLayout(b);
    HasWinnerTriesEveryVector(b);
  }

  /** The same four pieces down the first column also win: that board is the row board mirrored. */
  lemma WinningColumn()
    ensures HasWinner([[Some(12), None, None, None], [Some(8), None, None, None],
                       [Some(14), None, None, None], [Some(15), None, None, None]])
  {
    var rows: Board := [FullRow(12, 8, 14, 15), EmptyRow, EmptyRow, EmptyRow];
    var b: Board := [[Some(12), None, None, None], [Some(8), None, None, None],
                     [Some(14), None, None, None], [Some(15), None, None, None]];
    BoardExtensionality(Transpose(rows), b);
    WinningRow();
    HasWinnerTranspose(rows);
  }

  /** 4, 8, 14, 15 agree on no attribute: bits 0 and 1 split 4 from 15, bits 2 and 3 split 4 from 8. */
  lemma LosingLine()
    ensures !WinVec(FullRow(4, 8, 14, 15))
  {
    var row := FullRow(4, 8, 14, 15);
    assert !AgreeOn(row, 0) by {
      assert !HasAttribute(row[0].value, 0) && HasAttribute(row[3].value, 0);
    }
    assert !AgreeOn(row, 1) by {
      assert !HasAttribute(row[0].value, 1) && HasAttribute(row[3].value, 1);
    }
    assert !AgreeOn(row, 2) by {
      assert HasAttribute(row[0].value, 2) && !HasAttribute(row[1].value, 2);
    }
    assert !AgreeOn(row, 3) by {
      assert !HasAttribute(row[0].value, 3) && HasAttribute(row[1].value, 3);
    }
    NoSharedAttributeLoses(row);
  }

  /** The top row agrees on no attribute, and every other line has an empty square: no winner. */
  lemma NoWinner()
    ensures !HasWinner([FullRow(4, 8, 14, 15), [None, Some(12), None, None], EmptyRow, EmptyRow])
  {
    var b: Board := [FullRow(4, 8, 14, 15), [None, Some(12), None, None], EmptyRow, EmptyRow];
    LosingLine();
    var t := Transpose(b);
    var d := Diagonals(b);
    assert b[1][0] == None && b[2][0] == None && b[3][0] == None;
    assert t[0][3] == None && t[1][3] == None && t[2][3] == None && t[3][3] == None;
    assert d.0[3] == None && d.1[3] == None;
    VectorsLayout(b);
    HasWinnerTriesEveryVector(b);
  }

  lemma DiagonalsOfFullBoard()
    ensures Diagonals(Full).0 == FullRow(15, 2, 5, 6)
    ensures Diagonals(Full).1 == FullRow(4, 12, 3, 11)
  {
  }

  lemma TransposeOfFullBoard()
    ensures Transpose(Full) == [FullRow(15, 0, 1, 11), FullRow(8, 2, 3, 13), FullRow(14, 12, 5, 10), FullRow(4, 7, 9, 6)]
  {
    var expected: Board := [FullRow(15, 0, 1, 11), FullRow(8, 2, 3, 13), FullRow(14, 12, 5, 10), FullRow(4, 7, 9, 6)];
    BoardExtensionality(Transpose(Full), expected);
  }

  lemma TransposeOfEmptyBoard()
    ensures Transpose(EmptyBoard) == EmptyBoard
  {
    BoardExtensionality(Transpose(EmptyBoard), EmptyBoard);
  }

  /** On a board without pieces every line starts with an empty square, so none is full. */
  lemma BlankBoardHasNoWinner(b: Board)
    requires forall i: Index, j: Index :: b[i][j] == None
    ensures !HasWinner(b)
  {
    var vs := GetVectors(b);
    forall k | 0 <= k < 10
      ensures !WinVec(vs[k])
    {
      assert vs[k][0] == None;
    }
  }

  lemma EmptyBoardHasNoWinner()
    ensures !HasWinner(EmptyBoard)
  {
    BlankBoardHasNoWinner(EmptyBoard);
  }

  /** A fresh game is not a draw; emptying its pool makes it one; a pool of {1} does not. */
  lemma DrawCases()
    ensures !IsDraw(Initial())
    ensures IsDraw(Initial().(pieces := {}))
    ensures !IsDraw(Initial().(pieces := {1}))
  {
    EmptyBoardHasNoWinner();
  }

  /** Picking 11 from a fresh game leaves 11 in hand. */
  lemma PickFromFresh()
    ensures PickPiece(Initial(), 11).Success?
    ensures PickPiece(Initial(), 11).value.held == Some(11)
  {
  }

  /** Holding 1, placing on (0, 0) of an empty board puts 1 there. */
  lemma PlaceOnEmpty()
    ensures PlacePiece(State(EmptyBoard, AllPieces, Some(1)), 0, 0) ==
      Success(State([[Some(1), None, None, None], EmptyRow, EmptyRow, EmptyRow], AllPieces, None))
  {
    var r := PlacePiece(State(EmptyBoard, AllPieces, Some(1)), 0, 0);
    BoardExtensionality(r.value.board, [[Some(1), None, None, None], EmptyRow, EmptyRow, EmptyRow]);
  }

  /** Holding 11, placing on the last free square (3, 0) completes the full board. */
  lemma PlaceLastSquare()
    ensures PlacePiece(State(Full[3 := [None, Some(13), Some(10), Some(6)]], {}, Some(11)), 3, 0) ==
      Success(State(Full, {}, None))
  {
    var r := PlacePiece(State(Full[3 := [None, Some(13), Some(10), Some(6)]], {}, Some(11)), 3, 0);
    BoardExtensionality(r.value.board, Full);
  }
}
