/** The board of the game: its cells, its moves, and how many cells hold each value. */
module Grid {

  /** A cell is empty or holds one of the two marks. X always moves first. */
  datatype Cell = Empty | X | O

  /** The mark a player writes: a cell value other than Empty. */
  type Mark = c: Cell | c != Empty witness X

  /** A move, as (row, column). Any pair of integers can be proposed; the rules decide which are legal. */
  type Action = (int, int)

  /** A 3x3 grid of cells, stored row by row. */
  type Board = b: seq<seq<Cell>> | |b| == 3 && forall i :: 0 <= i < 3 ==> |b[i]| == 3
    witness [[Empty, Empty, Empty], [Empty, Empty, Empty], [Empty, Empty, Empty]]

  function Opponent(p: Mark): (q: Mark)
    ensures q != p
  {
    if p == X then O else X
  }

  /** The starting position: every cell is empty. */
  function InitialState(): (b: Board)
    ensures forall i, j :: 0 <= i < 3 && 0 <= j < 3 ==> b[i][j] == Empty
  {
    [[Empty, Empty, Empty], [Empty, Empty, Empty], [Empty, Empty, Empty]]
  }

  /** The cell at row-major position k. */
  function CellAt(b: Board, k: nat): Cell
    requires k < 9
  {
    b[k / 3][k % 3]
  }

  /** How many of the first k cells, in row-major order, hold c. */
  function CountBefore(b: Board, c: Cell, k: nat): nat
    requires k <= 9
  {
    if k == 0 then 0 else CountBefore(b, c, k - 1) + (if CellAt(b, k - 1) == c then 1 else 0)
  }

  /** How many cells of the board hold c. */
  function Count(b: Board, c: Cell): nat
  {
    CountBefore(b, c, 9)
  }

  /** The coordinates of the cells holding c. */
  function Cells(b: Board, c: Cell): set<Action>
  {
    set i, j | 0 <= i < 3 && 0 <= j < 3 && b[i][j] == c :: (i, j)
  }

  /** The coordinates of the cells holding c among the first k in row-major order. */
  function CellsBefore(b: Board, c: Cell, k: int): set<Action>
  {
    set i, j | 0 <= i < 3 && 0 <= j < 3 && 3 * i + j < k && b[i][j] == c :: (i, j)
  }

  /** The turn invariant of every reachable position: X has played as often as O, or once more. */
  predicate Alternating(b: Board)
  {
    Count(b, X) == Count(b, O) || Count(b, X) == Count(b, O) + 1
  }

  /** Row-major position 3 * i + j is the cell in row i, column j. */
  lemma CellAtRowColumn(b: Board, i: int, j: int)
    requires 0 <= i < 3 && 0 <= j < 3
    ensures CellAt(b, 3 * i + j) == b[i][j]
  {
    assert (3 * i + j) / 3 == i && (3 * i + j) % 3 == j;
  }

  /** Counting one more cell adds that cell to the set, and it was not there before. */
  lemma CellsBeforeStep(b: Board, c: Cell, k: nat)
    requires k < 9
    ensures (k / 3, k % 3) !in CellsBefore(b, c, k)
    ensures CellsBefore(b, c, k + 1)
         == CellsBefore(b, c, k) + (if CellAt(b, k) == c then {(k / 3, k % 3)} else {})
  {
    var i, j := k / 3, k % 3;
    assert 3 * i + j == k;
    var lhs, rhs := CellsBefore(b, c, k + 1),
                    CellsBefore(b, c, k) + (if CellAt(b, k) == c then {(i, j)} else {});
    forall a | a in lhs ensures a in rhs {
      if 3 * a.0 + a.1 != k {
        assert a in CellsBefore(b, c, k);
      }
    }
  }

  /** The counter and the set of coordinates agree on every prefix of the board. */
  lemma {:induction false} CountIsCardinality(b: Board, c: Cell, k: nat)
    requires k <= 9
    ensures |CellsBefore(b, c, k)| == CountBefore(b, c, k)
  {
    if k == 0 {
      assert CellsBefore(b, c, 0) == {};
    } else {
      CountIsCardinality(b, c, k - 1);
      CellsBeforeStep(b, c, k - 1);
    }
  }

  /** Count(b, c) is the number of coordinates whose cell holds c. */
  lemma CountIsSize(b: Board, c: Cell)
    ensures Count(b, c) == |Cells(b, c)|
  {
    CountIsCardinality(b, c, 9);
    assert CellsBefore(b, c, 9) == Cells(b, c);
  }

  /** Every cell holds exactly one of the three values. */
  lemma {:induction false} CountsPartition(b: Board, k: nat)
    requires k <= 9
    ensures CountBefore(b, Empty, k) + CountBefore(b, X, k) + CountBefore(b, O, k) == k
  {
    if k > 0 {
      CountsPartition(b, k - 1);
    }
  }

  /** A value is counted zero times exactly when no cell holds it. */
  lemma NoneLeft(b: Board, c: Cell)
    ensures Count(b, c) == 0 <==> forall i, j :: 0 <= i < 3 && 0 <= j < 3 ==> b[i][j] != c
  {
    CountIsSize(b, c);
    if Count(b, c) != 0 {
      var a :| a in Cells(b, c);
      assert b[a.0][a.1] == c;
    } else {
      forall i, j | 0 <= i < 3 && 0 <= j < 3 && b[i][j] == c ensures (i, j) in Cells(b, c) {
      }
    }
  }
}
