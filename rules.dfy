/** The rules engine: whose turn it is, which moves are legal, what a move produces,
    who has won, and whether and how the game has ended. */
module Rules {
  import opened Grid

  datatype Option<+T> = None | Some(value: T)

  /** The one error the rules report: a move that is out of range or onto an occupied cell. */
  datatype Error = InvalidAction

  datatype Outcome<+T> = Success(value: T) | Failure(error: Error)

  // ---------------------------------------------------------------- whose turn

  /** The mark to move: X when both marks appear equally often, O otherwise. */
  function Turn(b: Board): Mark
  {
    if Count(b, X) == Count(b, O) then X else O
  }

  /** Counts the marks cell by cell and decides whose turn it is. */
  method Player(b: Board) returns (p: Mark)
    ensures p == X <==> Count(b, X) == Count(b, O)
    ensures p == Turn(b)
  {
    var xs, os := 0, 0;
    for i := 0 to |b|
      invariant xs == CountBefore(b, X, 3 * i) && os == CountBefore(b, O, 3 * i)
    {
      for j := 0 to |b|
        invariant xs == CountBefore(b, X, 3 * i + j) && os == CountBefore(b, O, 3 * i + j)
      {
        CellAtRowColumn(b, i, j);
        if b[i][j] == X {
          xs := xs + 1;
        } else if b[i][j] == O {
          os := os + 1;
        }
      }
    }
    if xs == os {
      p := X;
    } else {
      p := O;
    }
  }

  /** On a reachable position X is to move exactly when an odd number of cells are still empty. */
  lemma TurnByParity(b: Board)
    requires Alternating(b)
    ensures Turn(b) == X <==> Count(b, Empty) % 2 == 1
  {
    CountsPartition(b, 9);
  }

  // ---------------------------------------------------------------- legal moves

  /** The legal moves: the coordinates of the empty cells. */
  function Moves(b: Board): set<Action>
  {
    Cells(b, Empty)
  }

  /** Collects the coordinates of the empty cells, scanning row by row. */
  method Actions(b: Board) returns (acts: set<Action>)
    ensures forall i, j :: (i, j) in acts <==> 0 <= i < 3 && 0 <= j < 3 && b[i][j] == Empty
    ensures acts == Moves(b)
    ensures |acts| == Count(b, Empty)
  {
    acts := {};
    for i := 0 to |b|
      invariant acts == CellsBefore(b, Empty, 3 * i)
    {
      for j := 0 to |b|
        invariant acts == CellsBefore(b, Empty, 3 * i + j)
      {
        CellAtRowColumn(b, i, j);
        CellsBeforeStep(b, Empty, 3 * i + j);
        if b[i][j] == Empty {
          acts := acts + {(i, j)};
        }
      }
    }
    assert acts == Cells(b, Empty);
    CountIsSize(b, Empty);
  }

  // ---------------------------------------------------------------- making a move

  /** The position after the mover writes their mark on the empty cell a. */
  function Play(b: Board, a: Action): (r: Board)
    requires a in Moves(b)
    ensures forall i, j :: 0 <= i < 3 && 0 <= j < 3 ==>
              r[i][j] == if (i, j) == a then Turn(b) else b[i][j]
  {
    b[a.0 := b[a.0][a.1 := Turn(b)]]
  }

  /** Applies a move to a copy of the board, or reports InvalidAction when the move is not legal. */
  method Result(b: Board, a: Action) returns (r: Outcome<Board>)
    ensures r.Failure? <==> a !in Moves(b)
    ensures r.Failure? ==> r.error == InvalidAction
    ensures r.Success? ==> r.value == Play(b, a)
  {
    var legal := Actions(b);
    if a !in legal {
      return Failure(InvalidAction);
    }
    // Sequences are values: writing into the copy leaves the caller's board as it was.
    var copy := b;
    var p := Player(b);
    copy := copy[a.0 := copy[a.0][a.1 := p]];
    r := Success(copy);
  }

  /** A move fills one empty cell with the mover's mark and leaves the other mark's cells alone. */
  lemma PlayCounts(b: Board, a: Action)
    requires a in Moves(b)
    ensures Count(Play(b, a), Empty) == Count(b, Empty) - 1
    ensures Count(Play(b, a), Turn(b)) == Count(b, Turn(b)) + 1
    ensures Count(Play(b, a), Opponent(Turn(b))) == Count(b, Opponent(Turn(b)))
  {
    var r, p, q := Play(b, a), Turn(b), Opponent(Turn(b));
    assert Cells(r, Empty) == Cells(b, Empty) - {a};
    assert a !in Cells(b, p);
    assert Cells(r, p) == Cells(b, p) + {a};
    assert Cells(r, q) == Cells(b, q);
    CountIsSize(r, Empty);
    CountIsSize(b, Empty);
    CountIsSize(r, p);
    CountIsSize(b, p);
    CountIsSize(r, q);
    CountIsSize(b, q);
  }

  /** A move keeps the turn invariant and hands the turn to the opponent. */
  lemma PlayAlternates(b: Board, a: Action)
    requires Alternating(b)
    requires a in Moves(b)
    ensures Alternating(Play(b, a))
    ensures Turn(Play(b, a)) == Opponent(Turn(b))
  {
    PlayCounts(b, a);
  }

  /** Plays the moves one after another, failing at the first illegal one. */
  function Replay(b: Board, moves: seq<Action>): (r: Outcome<Board>)
    ensures r.Success? ==> Count(r.value, Empty) + |moves| == Count(b, Empty)
    decreases |moves|
  {
    if moves == [] then Success(b)
    else if moves[0] !in Moves(b) then Failure(InvalidAction)
    else
      PlayCounts(b, moves[0]);
      Replay(Play(b, moves[0]), moves[1..])
  }

  /** Every position reached from the initial one by legal moves satisfies the turn invariant. */
  lemma {:induction false} ReplayAlternates(b: Board, moves: seq<Action>)
    requires Alternating(b)
    ensures Replay(b, moves).Success? ==> Alternating(Replay(b, moves).value)
    decreases |moves|
  {
    if moves != [] && moves[0] in Moves(b) {
      PlayAlternates(b, moves[0]);
      ReplayAlternates(Play(b, moves[0]), moves[1..]);
    }
  }

  // ---------------------------------------------------------------- three in a row

  /** p holds the three cells that start at (i, j) and step by (di, dj) along a row,
      a column or one of the two diagonal directions. */
  predicate Aligned(b: Board, p: Mark, i: int, j: int, di: int, dj: int)
  {
    && ((di == 0 && dj == 1) || (di == 1 && dj == 0) || (di == 1 && dj == 1) || (di == 1 && dj == -1))
    && 0 <= i < 3 && 0 <= j < 3
    && 0 <= i + 2 * di < 3 && 0 <= j + 2 * dj < 3
    && b[i][j] == p && b[i + di][j + dj] == p && b[i + 2 * di][j + 2 * dj] == p
  }

  /** p has three in a row somewhere on the board. */
  ghost predicate HasLine(b: Board, p: Mark)
  {
    exists i, j, di, dj :: Aligned(b, p, i, j, di, dj)
  }

  /** Some column is filled with p. */
  function Columns(b: Board, p: Mark): (r: bool)
    ensures r <==> exists j :: Aligned(b, p, 0, j, 1, 0)
  {
    assert forall j :: Aligned(b, p, 0, j, 1, 0) <==> 0 <= j < 3 && b[0][j] == p && b[1][j] == p && b[2][j] == p;
    exists j | 0 <= j < 3 :: b[0][j] == p && b[1][j] == p && b[2][j] == p
  }

  /** Some row is filled with p. */
  function Rows(b: Board, p: Mark): (r: bool)
    ensures r <==> exists i :: Aligned(b, p, i, 0, 0, 1)
  {
    assert forall i :: Aligned(b, p, i, 0, 0, 1) <==> 0 <= i < 3 && b[i][0] == p && b[i][1] == p && b[i][2] == p;
    exists i | 0 <= i < 3 :: b[i][0] == p && b[i][1] == p && b[i][2] == p
  }

  /** One of the two diagonals is filled with p. */
  function Diagonals(b: Board, p: Mark): (r: bool)
    ensures r <==> Aligned(b, p, 0, 0, 1, 1) || Aligned(b, p, 0, 2, 1, -1)
  {
    if b[0][0] == p && b[1][1] == p && b[2][2] == p then true
    else if b[0][2] == p && b[1][1] == p && b[2][0] == p then true
    else false
  }

  /** The column, row and diagonal scans together find every three in a row. */
  lemma ScansFindLines(b: Board, p: Mark)
    ensures Columns(b, p) || Rows(b, p) || Diagonals(b, p) <==> HasLine(b, p)
  {
    if HasLine(b, p) {
      var i, j, di, dj :| Aligned(b, p, i, j, di, dj);
      if di == 0 {
        assert Aligned(b, p, i, 0, 0, 1);
      } else if dj == 0 {
        assert Aligned(b, p, 0, j, 1, 0);
      }
    }
  }

  /** The winner: X if X has three in a row (X is checked first), else O if O has, else nobody. */
  function Winner(b: Board): (w: Option<Mark>)
    ensures w == Some(X) <==> HasLine(b, X)
    ensures w == Some(O) <==> HasLine(b, O) && !HasLine(b, X)
    ensures w == None <==> !HasLine(b, X) && !HasLine(b, O)
  {
    ScansFindLines(b, X);
    ScansFindLines(b, O);
    if Columns(b, X) || Rows(b, X) || Diagonals(b, X) then Some(X)
    else if Columns(b, O) || Rows(b, O) || Diagonals(b, O) then Some(O)
    else None
  }

  // ---------------------------------------------------------------- end of the game

  /** The game is over when no cell is empty or someone has won. */
  predicate IsTerminal(b: Board)
  {
    Count(b, Empty) == 0 || Winner(b).Some?
  }

  /** Counts the empty cells and decides whether the game is over. */
  method Terminal(b: Board) returns (t: bool)
    ensures t == IsTerminal(b)
    ensures t <==> (forall i, j :: 0 <= i < 3 && 0 <= j < 3 ==> b[i][j] != Empty) || Winner(b).Some?
    ensures t <==> Moves(b) == {} || HasLine(b, X) || HasLine(b, O)
  {
    var empty := 0;
    for i := 0 to |b|
      invariant empty == CountBefore(b, Empty, 3 * i)
    {
      var row := b[i];
      for j := 0 to |row|
        invariant empty == CountBefore(b, Empty, 3 * i + j)
      {
        CellAtRowColumn(b, i, j);
        if row[j] == Empty {
          empty := empty + 1;
        }
      }
    }
    t := empty == 0 || Winner(b).Some?;
    CountIsSize(b, Empty);
    NoneLeft(b, Empty);
  }

  /** The score of a position from X's side: 1 when X has won, -1 when O has, 0 otherwise. */
  function Utility(b: Board): (u: int)
    ensures u == 1 <==> HasLine(b, X)
    ensures u == -1 <==> HasLine(b, O) && !HasLine(b, X)
    ensures u == 0 <==> !HasLine(b, X) && !HasLine(b, O)
  {
    match Winner(b)
    case Some(X) => 1
    case Some(O) => -1
    case None => 0
  }

  /** The initial position: X to move, nine legal moves, game not over, turn invariant holds. */
  lemma InitialPosition()
    ensures Turn(InitialState()) == X
    ensures |Moves(InitialState())| == 9
    ensures !IsTerminal(InitialState())
    ensures Alternating(InitialState())
  {
    var b := InitialState();
    assert Count(b, X) == 0 && Count(b, O) == 0 && Count(b, Empty) == 9;
    CountIsSize(b, Empty);
  }

  /** A board with no empty cell has no legal move and the game on it is over. */
  lemma FullBoard(b: Board)
    requires forall i, j :: 0 <= i < 3 && 0 <= j < 3 ==> b[i][j] != Empty
    ensures Moves(b) == {}
    ensures IsTerminal(b)
  {
    NoneLeft(b, Empty);
    CountIsSize(b, Empty);
  }
}
