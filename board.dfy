/** The battleship board: an N x N matrix of cell codes, and the three
    board predicates of battleShip.py (placement, move and "next to a known hit"). */
module Board {

  datatype Option<T> = None | Some(value: T)

  /** A (row, column) position; positions off the board are representable. */
  datatype Location = Location(row: int, column: int)

  /** Cell codes stored in the board matrix. */
  const EMPTY := 0
  const SHIP := 1
  const HIT := 2
  const MISS := 3

  type BoardState = seq<seq<int>>

  /** Every row is as long as the board is high. */
  predicate IsSquare(b: BoardState)
  {
    forall r :: 0 <= r < |b| ==> |b[r]| == |b|
  }

  predicate InBounds(b: BoardState, p: Location)
  {
    0 <= p.row < |b| && 0 <= p.column < |b|
  }

  function At(b: BoardState, p: Location): int
    requires IsSquare(b) && InBounds(b, p)
  {
    b[p.row][p.column]
  }

  function Abs(x: int): nat
  {
    if x < 0 then -x else x
  }

  /** Chessboard (king-move) distance between two positions. */
  function Chebyshev(p: Location, q: Location): nat
  {
    var dr, dc := Abs(p.row - q.row), Abs(p.column - q.column);
    if dr < dc then dc else dr
  }

  /** The eight positions that share a side or a corner with p. */
  predicate Touching(p: Location, q: Location)
  {
    Chebyshev(p, q) == 1
  }

  /** A touching position is one of the eight listed explicitly. */
  lemma TouchingCases(p: Location, q: Location)
    requires Touching(p, q)
    ensures q in {Location(p.row, p.column + 1), Location(p.row, p.column - 1),
                  Location(p.row + 1, p.column), Location(p.row - 1, p.column),
                  Location(p.row - 1, p.column + 1), Location(p.row - 1, p.column - 1),
                  Location(p.row + 1, p.column + 1), Location(p.row + 1, p.column - 1)}
  {
  }

  /** is_valid_placement, keeping the source's chain of edge cases: a
      neighbour is looked at only when the cell is not on the corresponding
      edge of the board. */
  function IsValidPlacement(b: BoardState, row: int, column: int): (ok: bool)
    requires IsSquare(b)
    ensures ok ==> InBounds(b, Location(row, column)) && At(b, Location(row, column)) == EMPTY
  {
    var last := |b| - 1;
    if row < 0 || row > last then false
    else if column < 0 || column > last then false
    else if At(b, Location(row, column)) != EMPTY then false
    else if column != last && At(b, Location(row, column + 1)) != EMPTY then false
    else if column != 0 && At(b, Location(row, column - 1)) != EMPTY then false
    else if row != last && At(b, Location(row + 1, column)) != EMPTY then false
    else if row != 0 && At(b, Location(row - 1, column)) != EMPTY then false
    else if row != 0 && column != last && At(b, Location(row - 1, column + 1)) != EMPTY then false
    else if row != 0 && column != 0 && At(b, Location(row - 1, column - 1)) != EMPTY then false
    else if row != last && column != last && At(b, Location(row + 1, column + 1)) != EMPTY then false
    else if row != last && column != 0 && At(b, Location(row + 1, column - 1)) != EMPTY then false
    else true
  }

  /** A ship section may go at p exactly when p is on the board and empty and
      so is every on-board cell around it, diagonals included. */
  lemma ValidPlacementExactly(b: BoardState, p: Location)
    requires IsSquare(b)
    ensures IsValidPlacement(b, p.row, p.column) <==>
      InBounds(b, p) && At(b, p) == EMPTY &&
      forall q :: InBounds(b, q) && Touching(p, q) ==> At(b, q) == EMPTY
  {
    if IsValidPlacement(b, p.row, p.column) {
      forall q | InBounds(b, q) && Touching(p, q) ensures At(b, q) == EMPTY {
        TouchingCases(p, q);
      }
    }
  }

  /** The attacker may fire at the move: it is on the board and has not been
      fired at before (it holds neither a hit nor a miss). */
  function IsValidMove(b: BoardState, move: Location): (ok: bool)
    requires IsSquare(b)
    ensures ok <==> InBounds(b, move) && At(b, move) != HIT && At(b, move) != MISS
  {
    var last := |b| - 1;
    if move.row < 0 || move.row > last then false
    else if move.column < 0 || move.column > last then false
    else if b[move.row][move.column] == HIT || b[move.row][move.column] == MISS then false
    else true
  }

  /** is_move_adjacent_to_known_ship, with the same chain of edge cases. The
      move itself is on the board (its only caller checks is_valid_move first). */
  function IsMoveAdjacentToKnownShip(b: BoardState, move: Location): (near: bool)
    requires IsSquare(b) && InBounds(b, move)
    ensures near ==> exists q :: InBounds(b, q) && Touching(move, q) && At(b, q) == HIT
  {
    var last := |b| - 1;
    var row, column := move.row, move.column;
    if column != last && At(b, Location(row, column + 1)) == HIT then true
    else if column != 0 && At(b, Location(row, column - 1)) == HIT then true
    else if row != last && At(b, Location(row + 1, column)) == HIT then true
    else if row != 0 && At(b, Location(row - 1, column)) == HIT then true
    else if row != 0 && column != last && At(b, Location(row - 1, column + 1)) == HIT then true
    else if row != 0 && column != 0 && At(b, Location(row - 1, column - 1)) == HIT then true
    else if row != last && column != last && At(b, Location(row + 1, column + 1)) == HIT then true
    else if row != last && column != 0 && At(b, Location(row + 1, column - 1)) == HIT then true
    else false
  }

  /** The move is next to a known hit exactly when some on-board cell around
      it, diagonals included, holds a hit. */
  lemma AdjacentToKnownShipExactly(b: BoardState, move: Location)
    requires IsSquare(b) && InBounds(b, move)
    ensures IsMoveAdjacentToKnownShip(b, move) <==>
      exists q :: InBounds(b, q) && Touching(move, q) && At(b, q) == HIT
  {
    if !IsMoveAdjacentToKnownShip(b, move) {
      forall q | InBounds(b, q) && Touching(move, q) ensures At(b, q) != HIT {
        TouchingCases(move, q);
      }
    }
  }

  /** A cell that passes IsValidPlacement keeps a distance of at least two from
      every occupied (non-empty) cell of the same board. */
  lemma PlacementKeepsDistance(b: BoardState, p: Location, q: Location)
    requires IsSquare(b) && IsValidPlacement(b, p.row, p.column)
    requires InBounds(b, q) && At(b, q) != EMPTY
    ensures Chebyshev(p, q) >= 2
  {
    ValidPlacementExactly(b, p);
    assert p != q;
  }

  /** The board after firing at p: that cell takes the given code. */
  function Mark(b: BoardState, p: Location, code: int): BoardState
    requires IsSquare(b) && InBounds(b, p)
  {
    b[p.row := b[p.row][p.column := code]]
  }

  /** The on-board cells not fired at yet. */
  function Untried(b: BoardState): set<Location>
    requires IsSquare(b)
  {
    set r, c | 0 <= r < |b| && 0 <= c < |b| && b[r][c] != HIT && b[r][c] != MISS :: Location(r, c)
  }

  /** Firing at an untried cell and marking it a hit or a miss takes exactly
      that cell out of the untried ones: the game makes progress. */
  lemma ShotShrinksUntried(b: BoardState, p: Location, code: int)
    requires IsSquare(b) && IsValidMove(b, p) && (code == HIT || code == MISS)
    ensures IsSquare(Mark(b, p, code))
    ensures Untried(Mark(b, p, code)) == Untried(b) - {p}
    ensures |Untried(Mark(b, p, code))| == |Untried(b)| - 1
  {
    var after := Mark(b, p, code);
    forall q | q in Untried(b) - {p} ensures q in Untried(after) {
      assert after[q.row][q.column] == b[q.row][q.column];
    }
  }
}
