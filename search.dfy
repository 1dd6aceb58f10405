/** The search engine: the minimax value of a position for each side, and the move
    that achieves it for the side to move. */
module Search {
  import opened Grid
  import opened Rules

  /** Stands for minus infinity, the starting point of a running maximum; no position has this value. */
  const Below := -2
  /** Stands for plus infinity, the starting point of a running minimum; no position has this value. */
  const Above := 2

  function Max(x: int, y: int): int { if x < y then y else x }

  function Min(x: int, y: int): int { if x < y then x else y }

  /** Some element of a non-empty set of moves; the same set always gives the same element. */
  ghost function Pick(s: set<Action>): (a: Action)
    requires s != {}
    ensures a in s
  {
    var a :| a in s; a
  }

  // ---------------------------------------------------------------- values of positions

  /** The value of b when X (the maximizer) is to move: the utility of a finished game,
      otherwise the best of the values O can hold X to after each move. */
  ghost function MaxValue(b: Board): (v: int)
    ensures -1 <= v <= 1
    decreases Count(b, Empty), 1, 0
  {
    if IsTerminal(b) then Utility(b)
    else
      CountIsSize(b, Empty);
      MaxOverMoves(b, Moves(b))
  }

  /** The value of b when O (the minimizer) is to move. */
  ghost function MinValue(b: Board): (v: int)
    ensures -1 <= v <= 1
    decreases Count(b, Empty), 1, 0
  {
    if IsTerminal(b) then Utility(b)
    else
      CountIsSize(b, Empty);
      MinOverMoves(b, Moves(b))
  }

  /** The largest MinValue reached by a move in s, or Below when s is empty. */
  ghost function MaxOverMoves(b: Board, s: set<Action>): (v: int)
    requires s <= Moves(b)
    ensures s == {} ==> v == Below
    ensures s != {} ==> -1 <= v <= 1
    decreases Count(b, Empty), 0, |s|
  {
    if s == {} then Below
    else
      var a := Pick(s);
      PlayCounts(b, a);
      Max(MaxOverMoves(b, s - {a}), MinValue(Play(b, a)))
  }

  /** The smallest MaxValue reached by a move in s, or Above when s is empty. */
  ghost function MinOverMoves(b: Board, s: set<Action>): (v: int)
    requires s <= Moves(b)
    ensures s == {} ==> v == Above
    ensures s != {} ==> -1 <= v <= 1
    decreases Count(b, Empty), 0, |s|
  {
    if s == {} then Above
    else
      var a := Pick(s);
      PlayCounts(b, a);
      Min(MinOverMoves(b, s - {a}), MaxValue(Play(b, a)))
  }

  /** MaxOverMoves is the maximum: no move in s does better, and some move in s reaches it. */
  lemma {:induction false} MaxOverMovesIsMaximum(b: Board, s: set<Action>)
    requires s <= Moves(b)
    ensures forall a :: a in s ==> MinValue(Play(b, a)) <= MaxOverMoves(b, s)
    ensures s != {} ==> exists a :: a in s && MinValue(Play(b, a)) == MaxOverMoves(b, s)
    decreases |s|
  {
    if s != {} {
      var a := Pick(s);
      var rest := s - {a};
      MaxOverMovesIsMaximum(b, rest);
      assert MaxOverMoves(b, s) == Max(MaxOverMoves(b, rest), MinValue(Play(b, a)));
      if rest == {} || MaxOverMoves(b, rest) <= MinValue(Play(b, a)) {
        assert MinValue(Play(b, a)) == MaxOverMoves(b, s);
      } else {
        var c :| c in rest && MinValue(Play(b, c)) == MaxOverMoves(b, rest);
        assert MinValue(Play(b, c)) == MaxOverMoves(b, s);
      }
    }
  }

  /** MinOverMoves is the minimum: no move in s does better for O, and some move in s reaches it. */
  lemma {:induction false} MinOverMovesIsMinimum(b: Board, s: set<Action>)
    requires s <= Moves(b)
    ensures forall a :: a in s ==> MinOverMoves(b, s) <= MaxValue(Play(b, a))
    ensures s != {} ==> exists a :: a in s && MaxValue(Play(b, a)) == MinOverMoves(b, s)
    decreases |s|
  {
    if s != {} {
      var a := Pick(s);
      var rest := s - {a};
      MinOverMovesIsMinimum(b, rest);
      assert MinOverMoves(b, s) == Min(MinOverMoves(b, rest), MaxValue(Play(b, a)));
      if rest == {} || MaxValue(Play(b, a)) <= MinOverMoves(b, rest) {
        assert MaxValue(Play(b, a)) == MinOverMoves(b, s);
      } else {
        var c :| c in rest && MaxValue(Play(b, c)) == MinOverMoves(b, rest);
        assert MaxValue(Play(b, c)) == MinOverMoves(b, s);
      }
    }
  }

  /** A game that is not over has a legal move. */
  lemma NotOverHasMove(b: Board)
    requires !IsTerminal(b)
    ensures Moves(b) != {}
  {
    CountIsSize(b, Empty);
  }

  /** MaxValue is the utility of a finished game, and otherwise the best MinValue over the legal moves. */
  lemma MaxValueIsBestReply(b: Board)
    ensures IsTerminal(b) ==> MaxValue(b) == Utility(b)
    ensures !IsTerminal(b) ==> forall a :: a in Moves(b) ==> MinValue(Play(b, a)) <= MaxValue(b)
    ensures !IsTerminal(b) ==> exists a :: a in Moves(b) && MinValue(Play(b, a)) == MaxValue(b)
  {
    if !IsTerminal(b) {
      NotOverHasMove(b);
      MaxOverMovesIsMaximum(b, Moves(b));
    }
  }

  /** MinValue is the utility of a finished game, and otherwise the least MaxValue over the legal moves. */
  lemma MinValueIsBestReply(b: Board)
    ensures IsTerminal(b) ==> MinValue(b) == Utility(b)
    ensures !IsTerminal(b) ==> forall a :: a in Moves(b) ==> MinValue(b) <= MaxValue(Play(b, a))
    ensures !IsTerminal(b) ==> exists a :: a in Moves(b) && MaxValue(Play(b, a)) == MinValue(b)
  {
    if !IsTerminal(b) {
      NotOverHasMove(b);
      MinOverMovesIsMinimum(b, Moves(b));
    }
  }

  /** A value that no move's MinValue exceeds and that some move reaches is MaxValue. */
  lemma MaxValueIsReachedBound(b: Board, v: int, best: Action)
    requires !IsTerminal(b)
    requires forall a :: a in Moves(b) ==> MinValue(Play(b, a)) <= v
    requires best in Moves(b) && MinValue(Play(b, best)) == v
    ensures v == MaxValue(b)
  {
    MaxValueIsBestReply(b);
  }

  /** A value that no move's MaxValue falls below and that some move reaches is MinValue. */
  lemma MinValueIsReachedBound(b: Board, v: int, best: Action)
    requires !IsTerminal(b)
    requires forall a :: a in Moves(b) ==> v <= MaxValue(Play(b, a))
    requires best in Moves(b) && MaxValue(Play(b, best)) == v
    ensures v == MinValue(b)
  {
    MinValueIsBestReply(b);
  }

  // ---------------------------------------------------------------- the search

  /** Evaluates b for the maximizer by trying every legal move, in whatever order the set yields them. */
  method SearchMax(b: Board) returns (v: int)
    ensures v == MaxValue(b)
    decreases Count(b, Empty)
  {
    v := Below;
    var over := Terminal(b);
    if over {
      MaxValueIsBestReply(b);
      return Utility(b);
    }
    var todo := Actions(b);
    ghost var done: set<Action> := {};
    ghost var best: Action := (0, 0);
    while todo != {}
      invariant todo <= Moves(b) && done == Moves(b) - todo
      invariant forall a :: a in done ==> MinValue(Play(b, a)) <= v
      invariant done == {} ==> v == Below
      invariant done != {} ==> best in done && MinValue(Play(b, best)) == v
      decreases todo
    {
      var a :| a in todo;
      var next := Result(b, a);
      PlayCounts(b, a);
      var w := SearchMin(next.value);
      if v != Max(v, w) || done == {} {
        best := a;
      }
      v := Max(v, w);
      todo, done := todo - {a}, done + {a};
    }
    NotOverHasMove(b);
    MaxValueIsReachedBound(b, v, best);
  }

  /** Evaluates b for the minimizer by trying every legal move, in whatever order the set yields them. */
  method SearchMin(b: Board) returns (v: int)
    ensures v == MinValue(b)
    decreases Count(b, Empty)
  {
    v := Above;
    var over := Terminal(b);
    if over {
      MinValueIsBestReply(b);
      return Utility(b);
    }
    var todo := Actions(b);
    ghost var done: set<Action> := {};
    ghost var best: Action := (0, 0);
    while todo != {}
      invariant todo <= Moves(b) && done == Moves(b) - todo
      invariant forall a :: a in done ==> v <= MaxValue(Play(b, a))
      invariant done == {} ==> v == Above
      invariant done != {} ==> best in done && MaxValue(Play(b, best)) == v
      decreases todo
    {
      var a :| a in todo;
      var next := Result(b, a);
      PlayCounts(b, a);
      var w := SearchMax(next.value);
      if v != Min(v, w) || done == {} {
        best := a;
      }
      v := Min(v, w);
      todo, done := todo - {a}, done + {a};
    }
    NotOverHasMove(b);
    MinValueIsReachedBound(b, v, best);
  }

  // ---------------------------------------------------------------- choosing a move

  /** What the mover expects after playing a: X looks at the position with O to move, and O the other way round. */
  ghost function Score(b: Board, mover: Mark, a: Action): int
    requires a in Moves(b)
  {
    if mover == X then MinValue(Play(b, a)) else MaxValue(Play(b, a))
  }

  /** v is strictly better than w for the mover: larger for X, smaller for O. */
  predicate Improves(mover: Mark, v: int, w: int)
  {
    if mover == X then v > w else v < w
  }

  /** order lists every move of s exactly once. */
  ghost predicate Enumerates(order: seq<Action>, s: set<Action>)
  {
    && (forall k, l :: 0 <= k < l < |order| ==> order[k] != order[l])
    && (forall a :: a in order <==> a in s)
  }

  /** a comes in order after moves that are all strictly worse for the mover. */
  ghost predicate FirstOptimal(b: Board, mover: Mark, order: seq<Action>, a: Action)
    requires a in Moves(b)
    requires forall k :: 0 <= k < |order| ==> order[k] in Moves(b)
  {
    exists k :: 0 <= k < |order| && order[k] == a &&
      forall l :: 0 <= l < k ==> Improves(mover, Score(b, mover, a), Score(b, mover, order[l]))
  }

  /** A move that no other move beats for the side to move is optimal, and its outcome is the value of the position. */
  lemma UnbeatenMoveIsOptimal(b: Board, m: Action)
    requires !IsTerminal(b) && m in Moves(b)
    requires forall a :: a in Moves(b) ==> !Improves(Turn(b), Score(b, Turn(b), a), Score(b, Turn(b), m))
    ensures Turn(b) == X ==> forall a :: a in Moves(b) ==> MinValue(Play(b, a)) <= MinValue(Play(b, m))
    ensures Turn(b) == O ==> forall a :: a in Moves(b) ==> MaxValue(Play(b, m)) <= MaxValue(Play(b, a))
    ensures Turn(b) == X ==> MinValue(Play(b, m)) == MaxValue(b)
    ensures Turn(b) == O ==> MaxValue(Play(b, m)) == MinValue(b)
  {
    MaxValueIsBestReply(b);
    MinValueIsBestReply(b);
  }

  /** Scores every legal move for the mover, in the order the set yields them. */
  method ScoreActions(b: Board, mover: Mark) returns (moves: seq<(int, Action)>, ghost order: seq<Action>)
    ensures Enumerates(order, Moves(b))
    ensures |moves| == |order|
    ensures forall k :: 0 <= k < |moves| ==> moves[k].1 == order[k]
    ensures forall k :: 0 <= k < |moves| ==> moves[k].1 in Moves(b) && moves[k].0 == Score(b, mover, moves[k].1)
  {
    moves, order := [], [];
    var todo := Actions(b);
    while todo != {}
      invariant todo <= Moves(b)
      invariant Enumerates(order, Moves(b) - todo)
      invariant |moves| == |order|
      invariant forall k :: 0 <= k < |moves| ==> moves[k].1 == order[k]
      invariant forall k :: 0 <= k < |moves| ==> moves[k].1 in Moves(b) && moves[k].0 == Score(b, mover, moves[k].1)
      decreases todo
    {
      var a :| a in todo;
      var next := Result(b, a);
      PlayCounts(b, a);
      var v;
      if mover == X {
        v := SearchMin(next.value);
      } else {
        v := SearchMax(next.value);
      }
      moves, order := moves + [(v, a)], order + [a];
      todo := todo - {a};
    }
  }

  /** Scans the scored moves and keeps the first one with the best value for the mover:
      a later move replaces it only when strictly better. */
  method PickOptimal(moves: seq<(int, Action)>, mover: Mark) returns (index: nat)
    requires moves != []
    requires forall k :: 0 <= k < |moves| ==> -1 <= moves[k].0 <= 1
    ensures index < |moves|
    ensures forall k :: 0 <= k < |moves| ==> !Improves(mover, moves[k].0, moves[index].0)
    ensures forall k :: 0 <= k < index ==> Improves(mover, moves[index].0, moves[k].0)
  {
    var optimal := if mover == X then Below else Above;
    index := 0;
    var i := 0;
    while i < |moves|
      invariant 0 <= i <= |moves|
      invariant i == 0 ==> optimal == (if mover == X then Below else Above)
      invariant index < |moves|
      invariant i > 0 ==> index < i && optimal == moves[index].0
      invariant forall k :: 0 <= k < i ==> !Improves(mover, moves[k].0, optimal)
      invariant forall k :: 0 <= k < index ==> Improves(mover, moves[index].0, moves[k].0)
    {
      if Improves(mover, moves[i].0, optimal) {
        optimal := moves[i].0;
        index := i;
      }
      i := i + 1;
    }
  }

  /** The move the engine plays: none when the game is over; otherwise a legal move that is
      optimal for the side to move, namely the first optimal one in the order the moves were tried.
      That order is an output, and any optimal move comes first in some order, so the last two
      clauses add nothing for a caller beyond optimality; the first-optimal scan itself is
      proved by PickOptimal over the order ScoreActions produced. */
  method Minimax(b: Board) returns (r: Option<Action>, ghost order: seq<Action>)
    ensures r.None? <==> IsTerminal(b)
    ensures r.Some? ==> r.value in Moves(b)
    ensures r.Some? && Turn(b) == X ==>
              forall a :: a in Moves(b) ==> MinValue(Play(b, a)) <= MinValue(Play(b, r.value))
    ensures r.Some? && Turn(b) == O ==>
              forall a :: a in Moves(b) ==> MaxValue(Play(b, r.value)) <= MaxValue(Play(b, a))
    ensures r.Some? && Turn(b) == X ==> MinValue(Play(b, r.value)) == MaxValue(b)
    ensures r.Some? && Turn(b) == O ==> MaxValue(Play(b, r.value)) == MinValue(b)
    ensures r.Some? ==> Enumerates(order, Moves(b))
    ensures r.Some? ==> FirstOptimal(b, Turn(b), order, r.value)
  {
    var mover := Player(b);
    var over := Terminal(b);
    if over {
      return None, [];
    }
    var moves;
    moves, order := ScoreActions(b, mover);
    NotOverHasMove(b);
    assert order[0] in Moves(b);
    var index := PickOptimal(moves, mover);
    r := Some(moves[index].1);
    forall a | a in Moves(b) ensures !Improves(mover, Score(b, mover, a), Score(b, mover, r.value)) {
      assert a in order;
      var k :| 0 <= k < |order| && order[k] == a;
      assert moves[k].0 == Score(b, mover, a);
    }
    UnbeatenMoveIsOptimal(b, r.value);
  }
}
