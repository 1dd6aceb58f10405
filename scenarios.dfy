/** Concrete positions: wins along a row and a diagonal, the order in which the winner is
    looked for, and a position where the engine must take an immediate win. */
module Scenarios {
  import opened Grid
  import opened Rules
  import opened Search

  /** X has filled the top row; the rest of the board is empty. */
  function TopRowX(): Board
  {
    [[X, X, X], [Empty, Empty, Empty], [Empty, Empty, Empty]]
  }

  /** O holds the main diagonal. */
  function DiagonalO(): Board
  {
    [[O, X, X], [X, O, Empty], [X, Empty, O]]
  }

  /** Both marks have a full row, O's above X's: a position legal play never reaches. */
  function BothRows(): Board
  {
    [[O, O, O], [X, X, X], [Empty, Empty, Empty]]
  }

  /** X to move, with X X _ on the top row: playing (0, 2) wins at once. */
  function NearWin(): Board
  {
    [[X, X, Empty], [O, O, Empty], [X, O, Empty]]
  }

  lemma TopRowWins()
    ensures Winner(TopRowX()) == Some(X)
    ensures IsTerminal(TopRowX())
    ensures Utility(TopRowX()) == 1
  {
    assert Aligned(TopRowX(), X, 0, 0, 0, 1);
  }

  lemma DiagonalWins()
    ensures Winner(DiagonalO()) == Some(O)
    ensures Utility(DiagonalO()) == -1
  {
    assert Aligned(DiagonalO(), O, 0, 0, 1, 1);
    assert !Rows(DiagonalO(), X) && !Columns(DiagonalO(), X) && !Diagonals(DiagonalO(), X);
    ScansFindLines(DiagonalO(), X);
  }

  /** X's lines are looked for before O's, so X is reported even though O's row comes first on the board. */
  lemma XIsCheckedFirst()
    ensures Winner(BothRows()) == Some(X)
  {
    assert Aligned(BothRows(), X, 1, 0, 0, 1);
  }

  /** X is to move in NearWin and may play in any of the three empty cells of the right column. */
  lemma NearWinMoves()
    ensures Turn(NearWin()) == X
    ensures Moves(NearWin()) == {(0, 2), (1, 2), (2, 2)}
    ensures !IsTerminal(NearWin())
  {
    var s := NearWin();
    assert !Rows(s, X) && !Columns(s, X) && !Diagonals(s, X);
    assert !Rows(s, O) && !Columns(s, O) && !Diagonals(s, O);
    ScansFindLines(s, X);
    ScansFindLines(s, O);
    assert Count(s, X) == 3 && Count(s, O) == 3;
    forall a | a in Moves(s) ensures a in {(0, 2), (1, 2), (2, 2)} {
      assert s[a.0][a.1] == Empty;
    }
  }

  /** (0, 2) completes X's top row: the game is won. */
  lemma TopRightWins()
    ensures (0, 2) in Moves(NearWin())
    ensures MinValue(Play(NearWin(), (0, 2))) == 1
  {
    NearWinMoves();
    var won := Play(NearWin(), (0, 2));
    assert Aligned(won, X, 0, 0, 0, 1);
    MinValueIsBestReply(won);
  }

  /** X X _ / O O X / X O _: NearWin after X plays (1, 2). */
  function MiddleRightPlayed(): Board
  {
    [[X, X, Empty], [O, O, X], [X, O, Empty]]
  }

  /** After (1, 2) it is O's turn, and O's answer (0, 2) leaves OneLeft. */
  lemma MiddleRightReply()
    ensures (1, 2) in Moves(NearWin()) && Play(NearWin(), (1, 2)) == MiddleRightPlayed()
    ensures (0, 2) in Moves(MiddleRightPlayed()) && Play(MiddleRightPlayed(), (0, 2)) == OneLeft()
  {
    NearWinMoves();
    var s := NearWin();
    var b1 := Play(s, (1, 2));
    PlayCounts(s, (1, 2));
    assert b1[1] == [O, O, X];
    assert b1 == MiddleRightPlayed();
    assert Turn(b1) == O;
    assert (0, 2) in Moves(b1);
    assert Play(b1, (0, 2))[0] == OneLeft()[0];
  }

  /** After (1, 2), O answers (0, 2) and the last move fills the board without a line. */
  lemma MiddleRightDraws()
    ensures (1, 2) in Moves(NearWin())
    ensures MinValue(Play(NearWin(), (1, 2))) <= 0
  {
    MiddleRightReply();
    OneLeftIsDrawn();
    MinValueIsBestReply(MiddleRightPlayed());
  }

  /** After (2, 2), O completes the middle row. */
  lemma BottomRightLoses()
    ensures (2, 2) in Moves(NearWin())
    ensures MinValue(Play(NearWin(), (2, 2))) == -1
  {
    NearWinMoves();
    var s := NearWin();
    var b4 := Play(s, (2, 2));
    PlayCounts(s, (2, 2));
    assert Turn(b4) == O;
    assert (1, 2) in Moves(b4);
    var lost := Play(b4, (1, 2));
    assert Aligned(lost, O, 1, 0, 0, 1);
    MaxValueIsBestReply(lost);
    MinValueIsBestReply(b4);
  }

  /** One empty cell left, X to move, no line anywhere. */
  function OneLeft(): Board
  {
    [[X, X, O], [O, O, X], [X, O, Empty]]
  }

  /** OneLeft after X's last move: a full board without a line. */
  function FullDraw(): Board
  {
    [[X, X, O], [O, O, X], [X, O, X]]
  }

  /** With X to move onto the last empty cell and no line anywhere, the game is drawn. */
  lemma OneLeftIsDrawn()
    ensures MaxValue(OneLeft()) == 0
  {
    var b := OneLeft();
    assert !Rows(b, X) && !Columns(b, X) && !Diagonals(b, X);
    assert !Rows(b, O) && !Columns(b, O) && !Diagonals(b, O);
    ScansFindLines(b, X);
    ScansFindLines(b, O);
    assert Moves(b) == {(2, 2)} by {
      forall a | a in Moves(b) ensures a == (2, 2) {
        assert b[a.0][a.1] == Empty;
      }
    }
    assert Turn(b) == X;
    var full := FullDraw();
    assert Play(b, (2, 2))[2] == full[2];
    assert Play(b, (2, 2)) == full;
    assert !Rows(full, X) && !Columns(full, X) && !Diagonals(full, X);
    assert !Rows(full, O) && !Columns(full, O) && !Diagonals(full, O);
    ScansFindLines(full, X);
    ScansFindLines(full, O);
    assert Count(full, Empty) == 0;
    MinValueIsBestReply(full);
    MaxValueIsBestReply(b);
  }

  /** In NearWin both other moves are strictly worse for X than (0, 2). */
  lemma NearWinBestMove()
    ensures (0, 2) in Moves(NearWin()) && (1, 2) in Moves(NearWin()) && (2, 2) in Moves(NearWin())
    ensures MinValue(Play(NearWin(), (1, 2))) < MinValue(Play(NearWin(), (0, 2)))
    ensures MinValue(Play(NearWin(), (2, 2))) < MinValue(Play(NearWin(), (0, 2)))
  {
    TopRightWins();
    MiddleRightDraws();
    BottomRightLoses();
  }

  /** (0, 2) is the only move X can play in NearWin without giving up value. */
  lemma OnlyTopRightIsOptimal(a: Action)
    requires a in Moves(NearWin())
    requires forall c :: c in Moves(NearWin()) ==> MinValue(Play(NearWin(), c)) <= MinValue(Play(NearWin(), a))
    ensures a == (0, 2)
  {
    NearWinMoves();
    assert a == (0, 2) || a == (1, 2) || a == (2, 2);
    NearWinBestMove();
    assert MinValue(Play(NearWin(), (0, 2))) <= MinValue(Play(NearWin(), a));
  }

  /** The engine, asked for X's move in NearWin, takes the win at (0, 2). */
  method MinimaxTakesTheWin() returns (r: Option<Action>)
    ensures r == Some((0, 2))
  {
    NearWinMoves();
    ghost var order;
    r, order := Minimax(NearWin());
    OnlyTopRightIsOptimal(r.value);
  }
}
