# Quarto game state in Dafny

This project models the game-state class of a Quarto-style game (`State` in
`state.py`). A position has three parts:

- a 4×4 board whose squares are empty or hold a piece id 0..15;
- the pool of ids nobody has picked yet;
- at most one held piece, picked but not yet placed.

Each of the four bits of an id is one binary attribute of the piece. A line of
four squares wins when all four are filled and the pieces agree on at least one
attribute.

The model has value semantics: each operation returns a new state. Modules:

- `Wrappers` (`wrappers.dfy`): `Option` and `Result`; `Result` supports `:-`, which `Play` uses to stop a sequence of moves at the first refusal.
- `Lines` (`lines.dfy`): the piece id (`Piece`, an integer newtype 0..15), cells, lines and the bit-level
  line test `_win_vec` (`WinVec`). It also has a reference meaning of a win
  (`SharesAttribute`: the line is full and all its pieces agree on some
  attribute) and the proof that the two agree.
- `Boards` (`boards.dfy`): the 4×4 board; `_transpose`, `_get_diags`,
  `get_vectors`, `has_winner`, and `free_squares` as a row-major scan.
- `GameState` (`gamestate.dfy`): the position; `__init__`, `square`,
  `pick_piece`, `place_piece` and `is_draw`. It proves that the 16 ids stay
  partitioned across pool, hand and board over any sequence of successful
  calls.
- `Scenarios` (`scenarios.dfy`): the concrete boards of the unit tests, stated
  as lemmas.

The two mutators return `Result<State, MoveError>`. The four error variants
(`AlreadyHolding`, `PieceUnavailable`, `NothingHeld`, `SquareOccupied`) stand for
the four `ValueError`s the source raises, and they are checked in the source's
order. The win test is kept total over every 4×4 board, not only reachable ones,
because the tests assign boards directly.

## Model

| member | source | states |
|---|---|---|
| `Lines.AndOfIds` | state.py:143 | the left fold of `&` over the ids, starting from 0b1111, has attribute bit k set exactly when every id has attribute k |
| `Lines.AndOfComplements` | state.py:144 | the left fold of `x & (0b1111 - y)` over the ids, starting from 0b1111, has bit k set exactly when no id has attribute k |
| `Lines.WinVec` | state.py:141-144 | `_win_vec`: the line has no empty square and the OR of the two folds is non-zero; that holds exactly when the line is full and all its pieces agree on one of the four attributes |
| `Lines.BitTestSharesAttribute` | state.py:143-144 | on a full line the OR of the two folds is non-zero exactly when some attribute is constant across its pieces |
| `Lines.BitTestImpliesShared` | state.py:143-144 | on a full line, a non-zero OR of the two folds names an attribute all its pieces agree on |
| `Lines.SharedImpliesBitTest` | state.py:143-144 | on a full line whose pieces agree on attribute k, the OR of the two folds is non-zero |
| `Lines.NoSharedAttributeLoses` | state.py:141-144 | a line on which each of the four attributes varies does not win |
| `Lines.WinVecSameCells` | state.py:141-144 | whether a line wins depends only on which cells it holds, not on their order |
| `Lines.ComplementAttribute` | state.py:144 | `0b1111 - id` has each of the four attributes exactly when `id` lacks it |
| `Lines.FilledUpdate` | state.py:97 | putting a piece on an empty square of a line adds exactly that piece to the line's contents |
| `Boards.SetCell` | state.py:97 | writing one square changes that square to the new value and leaves the other fifteen as they were |
| `Boards.Transpose` | state.py:134-135 | row j of the transpose is column j of the board |
| `Boards.TransposeInvolutive` | state.py:134-135 | transposing twice gives back the board |
| `Boards.Diagonals` | state.py:137-139 | the first diagonal is `b[i][i]` and the second `b[i][3-i]` (each row indexed from its end), top row first |
| `Boards.DiagonalsTranspose` | state.py:137-139 | transposing keeps the main diagonal and reverses the anti-diagonal, so the anti-diagonal keeps its cells |
| `Boards.GetVectors` | state.py:129-132 | ten lines of four squares: rows 0..3, then columns 0..3 (`vs[4+j][i] == b[i][j]`), then the main diagonal and the anti-diagonal |
| `Boards.HasWinnerTriesEveryVector` | state.py:111-117 | the row/column loop followed by the two diagonal checks tests exactly the ten lines of `get_vectors` |
| `Boards.HasWinner` | state.py:111-117 | `has_winner`: the rows and columns checked pairwise by index, then the two diagonals; that holds exactly when some line of `get_vectors` passes the line test, and exactly when some row, column or diagonal is full with an attribute shared by its pieces |
| `Boards.HasWinnerTranspose` | state.py:111-117 | mirroring the board in its main diagonal neither creates nor removes a win |
| `Boards.ScanColumns` | state.py:106-108 | the inner loop lists, in column order, exactly the empty squares of one row from a given column on |
| `Boards.ScanRows` | state.py:105-108 | the outer loop lists, in row-major order, exactly the empty squares from a given row down |
| `Boards.FreeSquares` | state.py:103-109 | the list holds exactly the empty squares, each once, in strictly increasing row-major order |
| `Boards.StrictlyRowMajorDistinct` | state.py:103-109 | a list in strictly increasing row-major order, such as the free list, holds no square twice |
| `Boards.StrictlyRowMajorUnique` | state.py:103-109 | a row-major-ordered list is determined by its elements, so the free list is fixed by which squares are empty |
| `Boards.FreeSquaresAfterFill` | state.py:97 | filling an empty square gives the previous free list with that one square removed and the order kept |
| `Boards.FreeSquaresCount` | state.py:103-109 | every one of the 16 squares is either listed as free or holds a piece on the board |
| `Boards.PlacedAfterFill` | state.py:97 | filling an empty square adds exactly the placed piece to the board's contents |
| `GameState.AllPiecesComplete` | state.py:51 | the initial pool holds all 16 ids |
| `GameState.IdsBelowCount` | state.py:51 | exactly n ids lie below n, for n up to 16, so `range(16)` gives 16 distinct ids |
| `GameState.Initial` | state.py:49-55 | a fresh state has all 16 squares free, all 16 ids in the pool, nothing held, and the ids partitioned |
| `GameState.SquareAt` | state.py:100-101 | a square reads as empty exactly when it is in the free-square list |
| `GameState.PickPiece` | state.py:84-90 | fails with `AlreadyHolding` while holding; otherwise fails with `PieceUnavailable` when the id is not in the pool; otherwise the id leaves the pool, becomes held, and the board is unchanged |
| `GameState.PlacePiece` | state.py:92-98 | fails with `NothingHeld` when nothing is held; otherwise fails with `SquareOccupied` when the square is filled; otherwise only that square changes, to the held piece; the hand empties and the pool is unchanged |
| `GameState.PlaceFreeSquares` | state.py:92-109 | after a successful place the free list is the previous one minus the target square |
| `GameState.PickKeepsInventory` | state.py:84-90 | a successful pick moves a piece from pool to hand, so no id is created or lost |
| `GameState.PlaceKeepsInventory` | state.py:92-98 | a successful place moves the held piece from hand to board, so no id is created or lost |
| `GameState.ApplyKeepsInventory` | state.py:84-98 | either mutator, when it succeeds, keeps the multiset of ids over pool, hand and board |
| `GameState.PlayKeepsInventory` | state.py:84-98 | any sequence of successful calls keeps the multiset of ids over pool, hand and board |
| `GameState.ReachablePartitioned` | state.py:49-98 | every state reached from a fresh game by successful calls has each of the 16 ids in exactly one place |
| `GameState.PlayKeepsFilled` | state.py:92-98 | a filled square keeps its piece through any sequence of successful calls |
| `GameState.PartitionedOnce` | state.py:49-98 | in a partitioned state each id occurs exactly once across pool, hand and board |
| `GameState.PartitionedDisjoint` | state.py:49-98 | in a partitioned state the held piece is neither in the pool nor on the board, no pool piece is on the board, and no piece is on two squares |
| `GameState.FreeSquaresMatchUnplaced` | state.py:84-109 | in a partitioned state the number of free squares equals the pool size plus one when a piece is held |
| `GameState.HoldingHasFreeSquare` | state.py:92-109 | in a partitioned state, a held piece always has a free square to go to |
| `GameState.IsDraw` | state.py:119-122 | `is_draw`: empty pool, empty hand and no winner; in a partitioned state that holds exactly when the board is full and has no winning line |
| `GameState.NothingLeftIffBoardFull` | state.py:119-122 | in a partitioned state the pool and hand are both empty exactly when no square is free |
| `Scenarios.WinningLine` | tests/unit/test_everything.py:24-28 | the line 12, 8, 14, 15 passes the line test |
| `Scenarios.LosingLine` | tests/unit/test_everything.py:30-34 | the line 4, 8, 14, 15 fails the line test |
| `Scenarios.WinningRow` | tests/unit/test_everything.py:24-28 | a top row of 12, 8, 14, 15 is a win |
| `Scenarios.NoWinner` | tests/unit/test_everything.py:30-34 | a top row of 4, 8, 14, 15 with 12 below it is not a win |
| `Scenarios.WinningColumn` | tests/unit/test_everything.py:35-39 | 12, 8, 14, 15 down the first column is a win |
| `Scenarios.BlankBoardHasNoWinner` | tests/unit/test_everything.py:43-46 | a board with no pieces has no winner, since every line has an empty square |
| `Scenarios.EmptyBoardHasNoWinner` | tests/unit/test_everything.py:43-46 | the empty board has no winner |
| `Scenarios.DrawCases` | tests/unit/test_everything.py:43-48 | a fresh game is not a draw; with an empty pool it is; with pool {1} it is not |
| `Scenarios.PlaceOnEmpty` | tests/unit/test_everything.py:73-82 | holding 1 and placing at (0, 0) on an empty board puts 1 there |
| `Scenarios.PlaceLastSquare` | tests/unit/test_everything.py:84-93 | holding 11 and placing at (3, 0) fills the last square |
| `Scenarios.PickFromFresh` | tests/unit/test_everything.py:101-104 | picking 11 from a fresh game leaves 11 held |
| `Scenarios.DiagonalsOfFullBoard` | tests/unit/test_everything.py:110-125 | the diagonals of the full test board are 15, 2, 5, 6 and 4, 12, 3, 11 |
| `Scenarios.TransposeOfEmptyBoard` | tests/unit/test_everything.py:131-139 | the empty board is its own transpose |
| `Scenarios.TransposeOfFullBoard` | tests/unit/test_everything.py:142-150 | the transpose of the full test board is the expected matrix |

## Left out

- `copy` and the `board`/`pieces` getters and setters (state.py:59-75, 124-127) copy the board and pool so that no state shares storage with another. States here are immutable values, so a copy is the value itself, and aliasing cannot happen.
- `is_holding` (state.py:81-82) is the predicate `IsHolding`. It has no contract of its own and is used in the mutators' contracts.
- `AbsState` (state.py:5-44) is an interface with no behaviour of its own.
- `GameState.PickPiece` takes a `Piece` (an id 0..15), so an argument outside 0..15 cannot be passed. The source would report such a value as "already played", because the pool never contains it.
- `GameState.PlacePiece` and `GameState.SquareAt` take coordinates 0..3, so an out-of-range or negative index cannot be passed. Python would raise `IndexError` for large indices and would wrap negative ones to the end of the row.
- Boards hold only empty squares or ids 0..15. Python would let a test store any value in `_board`.
- On failure the Python mutators raise before changing anything. Here a failure returns an error value, and the caller keeps the original state.
- The move-search engine (`gameengine.py`) is not part of this model. Its evaluation functions are stubs, it does not parse, and it chooses moves with floating-point randomness.
- The turn loops, prompts, rendering, sockets and user interfaces (`gameplatform.py`, `cmdgame.py`, `player.py`, `commplatform.py`, `guigame.py`) and the integration and timing scripts are I/O around the state and are not part of this model.
