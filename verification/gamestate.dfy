/**
 * One position of the game: the board, the pool of pieces not yet picked, and
 * at most one held piece; the two mutators, and the draw test.
 */
module GameState {
  import opened Wrappers
  import opened Lines
  import opened Boards

  /** Why a mutator refused to change the state. */
  datatype MoveError =
    | AlreadyHolding    // pick while a piece is held
    | PieceUnavailable  // pick of a piece that is not in the pool
    | NothingHeld       // place while no piece is held
    | SquareOccupied    // place on a square that already holds a piece

  datatype State = State(board: Board, pieces: set<Piece>, held: Option<Piece>)

  /** Every piece id 0..15. */
  const AllPieces: set<Piece> := set p: Piece | true

  predicate Below(p: Piece, n: int) {
    (p as int) < n
  }

  /** The ids below n. */
  function IdsBelow(n: int): set<Piece> {
    set p: Piece | Below(p, n)
  }

  /** There are exactly n ids below n, for n up to 16. */
  lemma {:induction false} IdsBelowCount(n: nat)
    requires n <= 16
    ensures |IdsBelow(n)| == n
  {
    if n > 0 {
      IdsBelowCount(n - 1);
      assert IdsBelow(n) == IdsBelow(n - 1) + {(n - 1) as Piece};
    }
  }

  lemma AllPiecesComplete()
    ensures |AllPieces| == 16
    ensures forall p: Piece :: p in AllPieces
  {
    IdsBelowCount(16);
    assert AllPieces == IdsBelow(16);
  }

  /** A held piece as a multiset of zero or one pieces. */
  function HeldPieces(held: Option<Piece>): multiset<Piece> {
    if held.Some? then multiset{held.value} else multiset{}
  }

  /** Every piece the state accounts for, wherever it is: pool, hand or board. */
  function Inventory(s: State): multiset<Piece> {
    multiset(s.pieces) + HeldPieces(s.held) + Placed(s.board)
  }

  /** Each of the 16 ids is in exactly one place: the pool, the hand or one square. */
  predicate Partitioned(s: State) {
    Inventory(s) == multiset(AllPieces)
  }

  /** A fresh game: empty board, every piece in the pool, nothing held. */
  function Initial(): (s: State)
    ensures Partitioned(s)
    ensures |FreeSquares(s.board)| == 16 && |s.pieces| == 16 && s.held == None
  {
    EmptyBoardHoldsNothing();
    FreeSquaresCount(EmptyBoard);
    AllPiecesComplete();
    State(EmptyBoard, AllPieces, None)
  }

  lemma EmptyBoardHoldsNothing()
    ensures Placed(EmptyBoard) == multiset{}
  {
  }

  predicate IsHolding(s: State) {
    s.held.Some?
  }

  /** The contents of square (row, col). */
  function SquareAt(s: State, row: Index, col: Index): (c: Cell)
    ensures c == None <==> (row, col) in FreeSquares(s.board)
  {
    s.board[row][col]
  }

  /** Take `piece` out of the pool into the hand. */
  function PickPiece(s: State, piece: Piece): (r: Result<State, MoveError>)
    ensures r == Failure(AlreadyHolding) <==> IsHolding(s)
    ensures r == Failure(PieceUnavailable) <==> !IsHolding(s) && piece !in s.pieces
    ensures r.Success? <==> !IsHolding(s) && piece in s.pieces
    ensures r.Success? ==>
      && r.value.board == s.board
      && r.value.held == Some(piece)
      && piece !in r.value.pieces
      && r.value.pieces + {piece} == s.pieces
  {
    if IsHolding(s) then Failure(AlreadyHolding)
    else if piece !in s.pieces then Failure(PieceUnavailable)
    else Success(s.(pieces := s.pieces - {piece}, held := Some(piece)))
  }

  /** Put the held piece on square (row, col) and empty the hand. */
  function PlacePiece(s: State, row: Index, col: Index): (r: Result<State, MoveError>)
    ensures r == Failure(NothingHeld) <==> !IsHolding(s)
    ensures r == Failure(SquareOccupied) <==> IsHolding(s) && s.board[row][col] != None
    ensures r.Success? <==> IsHolding(s) && s.board[row][col] == None
    ensures r.Success? ==>
      && r.value.held == None
      && r.value.pieces == s.pieces
      && r.value.board[row][col] == s.held
      && (forall i: Index, j: Index :: (i, j) != (row, col) ==> r.value.board[i][j] == s.board[i][j])
  {
    if !IsHolding(s) then Failure(NothingHeld)
    else if s.board[row][col] != None then Failure(SquareOccupied)
    else Success(s.(board := SetCell(s.board, row, col, s.held), held := None))
  }

  /** After a successful place the free list is the previous one with the target square taken out. */
  lemma PlaceFreeSquares(s: State, row: Index, col: Index)
    requires PlacePiece(s, row, col).Success?
    ensures FreeSquares(PlacePiece(s, row, col).value.board) == Without(FreeSquares(s.board), (row, col))
  {
    FreeSquaresAfterFill(s.board, row, col, s.held.value);
  }

  /**
   * The game is drawn: pool empty, hand empty, and no winning line on the
   * board. In a partitioned state that is a full board with no winning line.
   */
  function IsDraw(s: State): (draw: bool)
    ensures Partitioned(s) ==> (draw <==> FreeSquares(s.board) == [] && !HasWinner(s.board))
  {
    NothingLeftIffBoardFull(s);
    s.pieces == {} && s.held == None && !HasWinner(s.board)
  }

  /** A successful pick only moves a piece from the pool to the hand. */
  lemma PickKeepsInventory(s: State, piece: Piece)
    requires PickPiece(s, piece).Success?
    ensures Inventory(PickPiece(s, piece).value) == Inventory(s)
  {
  }

  /** A successful place only moves the held piece from the hand to the board. */
  lemma PlaceKeepsInventory(s: State, row: Index, col: Index)
    requires PlacePiece(s, row, col).Success?
    ensures Inventory(PlacePiece(s, row, col).value) == Inventory(s)
  {
    PlacedAfterFill(s.board, row, col, s.held.value);
  }

  /** One call of either mutator. */
  datatype Move = Pick(piece: Piece) | Place(row: Index, col: Index)

  function Apply(s: State, m: Move): Result<State, MoveError> {
    match m
    case Pick(piece) => PickPiece(s, piece)
    case Place(row, col) => PlacePiece(s, row, col)
  }

  /** A sequence of mutator calls; the first refused call ends the sequence with its error. */
  function Play(s: State, moves: seq<Move>): Result<State, MoveError>
    decreases |moves|
  {
    if |moves| == 0 then Success(s)
    else
      var s' :- Apply(s, moves[0]);
      Play(s', moves[1..])
  }

  lemma ApplyKeepsInventory(s: State, m: Move)
    requires Apply(s, m).Success?
    ensures Inventory(Apply(s, m).value) == Inventory(s)
  {
    match m
    case Pick(piece) => PickKeepsInventory(s, piece);
    case Place(row, col) => PlaceKeepsInventory(s, row, col);
  }

  /** No successful sequence of calls creates, duplicates or loses a piece. */
  lemma {:induction false} PlayKeepsInventory(s: State, moves: seq<Move>)
    requires Play(s, moves).Success?
    ensures Inventory(Play(s, moves).value) == Inventory(s)
    decreases |moves|
  {
    if |moves| > 0 {
      ApplyKeepsInventory(s, moves[0]);
      PlayKeepsInventory(Apply(s, moves[0]).value, moves[1..]);
    }
  }

  /** Every state reached from a fresh game by successful calls keeps the 16 ids partitioned. */
  lemma ReachablePartitioned(moves: seq<Move>)
    requires Play(Initial(), moves).Success?
    ensures Partitioned(Play(Initial(), moves).value)
  {
    PlayKeepsInventory(Initial(), moves);
  }

  /** A filled square keeps its piece through any successful sequence of calls. */
  lemma {:induction false} PlayKeepsFilled(s: State, moves: seq<Move>, row: Index, col: Index)
    requires Play(s, moves).Success? && s.board[row][col] != None
    ensures Play(s, moves).value.board[row][col] == s.board[row][col]
    decreases |moves|
  {
    if |moves| > 0 {
      PlayKeepsFilled(Apply(s, moves[0]).value, moves[1..], row, col);
    }
  }

  /** Every piece occurs exactly once in the inventory of a partitioned state. */
  lemma PartitionedOnce(s: State, p: Piece)
    requires Partitioned(s)
    ensures multiset(s.pieces)[p] + HeldPieces(s.held)[p] + Placed(s.board)[p] == 1
  {
    AllPiecesComplete();
    assert multiset(AllPieces)[p] == 1;
  }

  /** In a partitioned state no piece is in two places at once. */
  lemma PartitionedDisjoint(s: State)
    requires Partitioned(s)
    ensures s.held.Some? ==> s.held.value !in s.pieces && s.held.value !in Placed(s.board)
    ensures forall p :: p in s.pieces ==> p !in Placed(s.board)
    ensures forall p :: p in Placed(s.board) ==> Placed(s.board)[p] == 1
  {
    if s.held.Some? {
      PartitionedOnce(s, s.held.value);
    }
    forall p | p in s.pieces
      ensures p !in Placed(s.board)
    {
      PartitionedOnce(s, p);
    }
    forall p | p in Placed(s.board)
      ensures Placed(s.board)[p] == 1
    {
      PartitionedOnce(s, p);
    }
  }

  /** In a partitioned state the free squares are exactly as many as the pieces not yet placed. */
  lemma FreeSquaresMatchUnplaced(s: State)
    requires Partitioned(s)
    ensures |FreeSquares(s.board)| == |s.pieces| + |HeldPieces(s.held)|
  {
    AllPiecesComplete();
    FreeSquaresCount(s.board);
    assert |Inventory(s)| == 16;
  }

  /** A player holding a piece always has somewhere to put it. */
  lemma HoldingHasFreeSquare(s: State)
    requires Partitioned(s) && IsHolding(s)
    ensures FreeSquares(s.board) != []
  {
    FreeSquaresMatchUnplaced(s);
  }

  /** In a partitioned state, no piece is left in the pool or hand exactly when the board is full. */
  lemma NothingLeftIffBoardFull(s: State)
    ensures Partitioned(s) ==> (s.pieces == {} && s.held == None <==> FreeSquares(s.board) == [])
  {
    if Partitioned(s) {
      FreeSquaresMatchUnplaced(s);
    }
  }
}
