# Tic-Tac-Toe rules and minimax search, in Dafny

This project models the Tic-Tac-Toe player of `tictactoe/tictactoe.py`. It covers two parts:

- **The rules engine.** It says whose turn it is (`player`) and which cells may be played (`actions`). It applies a move to a copy of the board (`result`), or raises "Invalid Action". It finds three in a row (`columns`, `rows`, `diagonals`, `winner`). It decides whether the game is over (`terminal`) and scores it (`utility`).
- **The search engine.** `max_value` and `min_value` are mutually recursive. `minimax` picks the mover's best move.

Files:

- `grid.dfy` (module `Grid`): cells, marks, moves, the 3x3 board type, the initial board, and counts of the cells holding each value.
- `rules.dfy` (module `Rules`): the rules engine.
- `search.dfy` (module `Search`): the search engine.
- `scenarios.dfy` (module `Scenarios`): concrete positions.

Some source functions change local state step by step: the counters in `player` and `terminal`, the set built by `actions`, the copy written by `result`, the running `v` of `max_value` and `min_value`, and the `moves` list and `optimal`/`index` scan of `minimax`. These are methods. All but `Result` (which calls `Actions` and `Player` and then writes one cell) run loops. `Player`, `Actions`, `Result`, `Terminal`, `SearchMax` and `SearchMin` are proved equal to specification functions (`Turn`, `Moves`, `Play`, `IsTerminal`, `MaxValue`, `MinValue`), and lemmas state what the source promises about those functions. `Minimax`, `ScoreActions` and `PickOptimal` are not proved equal to any function: `Minimax` is proved to return a legal move that is optimal for the mover, and inside its body the move is the first optimal one in the order `ScoreActions` tried the moves.

The line scans, `winner` and `utility` have no side effects, so they are functions. They are proved against an independent definition of "three in a row": three cells equally spaced along a row, a column or a diagonal (`Rules.HasLine`).

The source iterates a Python `set`, whose order is not specified. The methods therefore pick the next move with Dafny's `:|`, which fixes no order. The values do not depend on the order. For `minimax`, the order actually used is returned as a ghost sequence, and the chosen move is the first optimal one in that order. Because the caller does not choose that order, and any optimal move comes first in some order, this clause adds nothing for a caller beyond optimality. The first-optimal scan is proved inside `Minimax`, by `PickOptimal` over the order of `ScoreActions`.

`winner` checks every X line (columns, then rows, then diagonals) before any O line, and the model does the same. So a board holding a full O row and a full X row yields X, whichever row comes first on the board. `Scenarios.XIsCheckedFirst` proves this for such a board.

## Model

| member | source | states |
|---|---|---|
| `Grid.InitialState` | tictactoe/tictactoe.py:13-19 | every cell of the starting board is empty |
| `Rules.Player` | tictactoe/tictactoe.py:22-42 | the loop counts marks cell by cell; the result is X exactly when X and O occur equally often, and O otherwise |
| `Rules.TurnByParity` | tictactoe/tictactoe.py:27-42 | on a board where X has played as often as O or once more, X is to move exactly when an odd number of cells are empty |
| `Rules.Actions` | tictactoe/tictactoe.py:45-57 | the set built by the loops holds exactly the in-range pairs (i, j) whose cell is empty; its size is the number of empty cells |
| `Rules.InitialPosition` | tictactoe/tictactoe.py:13-42 | on the initial board X is to move, there are 9 legal moves, the game is not over, and the turn invariant holds |
| `Rules.FullBoard` | tictactoe/tictactoe.py:50-57 | a board with no empty cell has no legal move, and the game on it is over |
| `Rules.Play` | tictactoe/tictactoe.py:68-71 | the new board equals the old one except that the chosen cell holds the mover's mark |
| `Rules.Result` | tictactoe/tictactoe.py:60-71 | fails with InvalidAction exactly when the move is not a legal action, which covers occupied cells and out-of-range coordinates; otherwise returns the board of `Play` |
| `Rules.PlayCounts` | tictactoe/tictactoe.py:69-70 | a legal move removes exactly one empty cell, adds one cell of the mover's mark, and leaves the opponent's count unchanged |
| `Rules.PlayAlternates` | tictactoe/tictactoe.py:39-42 | a legal move keeps the invariant "#X == #O or #X == #O + 1" and hands the turn to the opponent |
| `Rules.Replay` | tictactoe/tictactoe.py:60-71 | plays moves one after another through the rules of `result`, failing at the first illegal one; on success the number of empty cells has dropped by the number of moves |
| `Rules.ReplayAlternates` | tictactoe/tictactoe.py:60-71 | any board reached by a sequence of legal moves from a board with the turn invariant also has it; this includes every board reachable from the initial one |
| `Rules.Columns` | tictactoe/tictactoe.py:76-80 | true exactly when some column holds three of the mark |
| `Rules.Rows` | tictactoe/tictactoe.py:83-87 | true exactly when some row holds three of the mark |
| `Rules.Diagonals` | tictactoe/tictactoe.py:90-95 | true exactly when the main diagonal or the anti-diagonal holds three of the mark |
| `Rules.ScansFindLines` | tictactoe/tictactoe.py:76-95 | the three scans together find a line exactly when the mark has three equally spaced cells along any direction |
| `Rules.Winner` | tictactoe/tictactoe.py:98-106 | X when X has three in a row; O when O has and X has not; none when neither has |
| `Rules.Terminal` | tictactoe/tictactoe.py:109-125 | the game is over exactly when no cell is empty or there is a winner; equivalently, when there is no legal move or either mark has three in a row |
| `Rules.Utility` | tictactoe/tictactoe.py:128-139 | 1 exactly when X has three in a row; -1 exactly when O has and X has not; 0 exactly when neither has |
| `Search.MaxValue` | tictactoe/tictactoe.py:144-151 | the value of a position with X to move always lies in -1..1: the -infinity start value is never returned |
| `Search.MinValue` | tictactoe/tictactoe.py:154-161 | the value of a position with O to move always lies in -1..1: the +infinity start value is never returned |
| `Search.MaxOverMoves` | tictactoe/tictactoe.py:145-150 | a running maximum over no moves is the -infinity start value; over at least one move it is a real value in -1..1 |
| `Search.MinOverMoves` | tictactoe/tictactoe.py:155-160 | a running minimum over no moves is the +infinity start value; over at least one move it is a real value in -1..1 |
| `Search.MaxOverMovesIsMaximum` | tictactoe/tictactoe.py:148-150 | the running maximum is at least the value of every move considered, and some considered move reaches it |
| `Search.MinOverMovesIsMinimum` | tictactoe/tictactoe.py:158-160 | the running minimum is at most the value of every move considered, and some considered move reaches it |
| `Search.NotOverHasMove` | tictactoe/tictactoe.py:116-125 | a board on which the game is not over has at least one legal move |
| `Search.MaxValueIsBestReply` | tictactoe/tictactoe.py:144-151 | on a finished game max_value is the utility; otherwise it is the largest min_value over all legal moves, reached by at least one move |
| `Search.MinValueIsBestReply` | tictactoe/tictactoe.py:154-161 | on a finished game min_value is the utility; otherwise it is the smallest max_value over all legal moves, reached by at least one move |
| `Search.MaxValueIsReachedBound` | tictactoe/tictactoe.py:144-151 | on a game that is not over, a value that bounds min_value of every legal move from above and is reached by one of them is max_value |
| `Search.MinValueIsReachedBound` | tictactoe/tictactoe.py:154-161 | on a game that is not over, a value that bounds max_value of every legal move from below and is reached by one of them is min_value |
| `Search.SearchMax` | tictactoe/tictactoe.py:144-151 | the recursive loop over the legal moves, taken in any order, computes `MaxValue` |
| `Search.SearchMin` | tictactoe/tictactoe.py:154-161 | the recursive loop over the legal moves, taken in any order, computes `MinValue` |
| `Search.ScoreActions` | tictactoe/tictactoe.py:178-183 | the list of (value, action) pairs holds each legal move exactly once, in the order tried; each is scored with min_value of the next board for X, or max_value for O |
| `Search.PickOptimal` | tictactoe/tictactoe.py:186-195 | the scan returns an index whose value no entry beats for the mover, and that value strictly beats every earlier entry, because only strict improvement replaces the best so far |
| `Search.UnbeatenMoveIsOptimal` | tictactoe/tictactoe.py:178-195 | a legal move that no other move beats for the side to move is optimal, and its outcome equals the position's value |
| `Search.Minimax` | tictactoe/tictactoe.py:164-216 | returns none exactly when the game is over. Otherwise it returns a legal move that is optimal for the mover. The move's outcome equals the position's value. It is the first optimal move in the ghost order it returns; since that order is an output, this last clause adds nothing for a caller beyond optimality |
| `Scenarios.TopRowWins` | tictactoe/tictactoe.py:98-139 | with X on the whole top row, the winner is X, the game is over and the utility is 1 |
| `Scenarios.DiagonalWins` | tictactoe/tictactoe.py:90-106 | with O on the main diagonal and no X line, the winner is O and the utility is -1 |
| `Scenarios.XIsCheckedFirst` | tictactoe/tictactoe.py:102-104 | with a full O row above a full X row, the winner reported is X |
| `Scenarios.NearWinMoves` | tictactoe/tictactoe.py:22-57 | in the position X X _ / O O _ / X O _, X is to move, the game is not over, and the legal moves are the three right-column cells |
| `Scenarios.TopRightWins` | tictactoe/tictactoe.py:154-157 | playing (0, 2) there completes X's top row, worth 1 |
| `Scenarios.MiddleRightReply` | tictactoe/tictactoe.py:60-71 | playing (1, 2) there gives X X _ / O O X / X O _, and O's answer (0, 2) leaves one empty cell with no line on the board |
| `Scenarios.MiddleRightDraws` | tictactoe/tictactoe.py:154-161 | after (1, 2), O can hold X to at most a draw |
| `Scenarios.BottomRightLoses` | tictactoe/tictactoe.py:154-161 | after (2, 2), O completes the middle row, worth -1 |
| `Scenarios.OneLeftIsDrawn` | tictactoe/tictactoe.py:144-151 | with one empty cell left, X to move and no line possible, the value is 0 |
| `Scenarios.NearWinBestMove` | tictactoe/tictactoe.py:178-183 | both other moves score strictly below (0, 2) for X |
| `Scenarios.OnlyTopRightIsOptimal` | tictactoe/tictactoe.py:186-195 | any move that no other move beats for X in that position is (0, 2) |
| `Scenarios.MinimaxTakesTheWin` | tictactoe/tictactoe.py:164-195 | the engine asked for X's move in that position returns (0, 2) |

## Left out

- Floating-point infinities: the start values `-math.inf` and `math.inf` of the running maximum and minimum are the integers -2 (`Search.Below`) and 2 (`Search.Above`). No position value reaches them, and the model proves they are never returned.
- PickOptimal: requires every score to lie in -1..1, so that the integer start values act as infinities. The Python scan accepts any number; the only caller passes position values, which always lie in -1..1.
- `copy.deepcopy` and object identity: boards are immutable sequences. Writing into the copy in `Result` cannot change the caller's board, so "the input board is unchanged" holds by construction and is not a separate statement.
- Python set iteration order: it is not reproduced. The search methods take the legal moves in an arbitrary order. `Minimax` returns the order it used as a ghost value.
- Malformed inputs: boards that are not 3x3 grids and cell values other than empty, X and O are excluded by the `Board` and `Cell` types. On grids smaller than 3x3 the Python indexes out of range. On larger ones it runs, but it checks only part of the board for lines, and `terminal` may count empty cells that `actions` never offers. It treats other cell values as marks of neither side.
- The exception: raising `Exception("Invalid Action")` is modelled as the result `Failure(InvalidAction)`.
- The claim that optimal play from the empty board ends in a draw: checking it means evaluating the whole game tree, far more than the verifier can unfold. Only positions close to the end of a game are evaluated (`Scenarios`).
- No driver, rendering or input code exists in the modelled file, so none is modelled.
