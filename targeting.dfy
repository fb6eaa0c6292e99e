/** The computer player: how it picks a cell to fire at (at random, around a
    first hit, or along the axis of two hits) and how a shot updates the
    human grid, the hit ship and the player's own hunting state. The random
    draws of the source are inputs: draws(t) is the (row, column) drawn on
    the t-th try. */
module Targeting {
  import opened Board
  import opened Ships
  import opened Grids

  /** Random moves are drawn from the first GRID_SIZE rows and columns. */
  const GRID_SIZE := 6

  /** The axis along which two hits on the same ship lie. */
  datatype Orientation = Horizontal | Vertical

  /** The hunting state kept by the computer player, as a value. */
  datatype AiState = AiState(
    aiMoveTuple: Option<Location>,
    isTargetMode: bool,
    isSecondHit: bool,
    orientation: Option<Orientation>,
    origHitTuple: Option<Location>,
    hitTuple: Option<Location>,
    subsequentHitTuple: Option<Location>)

  /** The fields a mode relies on are set: target mode knows the first and the
      last hit, the two-hit mode also knows the later hit and the last move. */
  predicate Consistent(s: AiState)
  {
    (s.isTargetMode ==> s.hitTuple.Some? && s.origHitTuple.Some?) &&
    (s.isSecondHit ==> s.isTargetMode && s.subsequentHitTuple.Some? && s.aiMoveTuple.Some?)
  }

  /** A random draw is kept when it has not been fired at and has no hit around it. */
  predicate RandomMoveOk(b: BoardState, m: Location)
    requires IsSquare(b)
  {
    IsValidMove(b, m) && !IsMoveAdjacentToKnownShip(b, m)
  }

  /** randrange(GRID_SIZE) for both coordinates of every draw. */
  ghost predicate DrawsInRange(draws: nat -> Location)
  {
    forall t: nat :: 0 <= draws(t).row < GRID_SIZE && 0 <= draws(t).column < GRID_SIZE
  }

  /** Some draw is kept; otherwise the source keeps drawing for ever. */
  ghost predicate RandomDrawsSucceed(b: BoardState, draws: nat -> Location)
    requires IsSquare(b)
  {
    exists t: nat :: RandomMoveOk(b, draws(t))
  }

  /** Draw t is the first one kept. */
  predicate FirstKept(b: BoardState, draws: nat -> Location, t: nat)
    requires IsSquare(b)
  {
    RandomMoveOk(b, draws(t)) && forall u: nat :: u < t ==> !RandomMoveOk(b, draws(u))
  }

  /** The cells tried around a hit, in order: below, above, right, left. */
  function PatternOrder(h: Location): seq<Location>
  {
    [Location(h.row + 1, h.column), Location(h.row - 1, h.column),
     Location(h.row, h.column + 1), Location(h.row, h.column - 1)]
  }

  /** The first candidate that is a valid move, if any. */
  function FirstValidMove(b: BoardState, cs: seq<Location>): (r: Option<Location>)
    requires IsSquare(b)
    ensures r.None? <==> forall i :: 0 <= i < |cs| ==> !IsValidMove(b, cs[i])
    ensures r.Some? ==> exists i :: 0 <= i < |cs| && cs[i] == r.value && IsValidMove(b, cs[i]) &&
                                    forall j :: 0 <= j < i ==> !IsValidMove(b, cs[j])
    decreases |cs|
  {
    if cs == [] then None
    else if IsValidMove(b, cs[0]) then Some(cs[0])
    else
      var r := FirstValidMove(b, cs[1..]);
      assert forall i :: 0 < i < |cs| ==> cs[i] == cs[1..][i - 1];
      r
  }

  /** The orientation in force: once known it is kept; otherwise two hits in
      the same row make it horizontal, in the same column vertical, and any
      other pair leaves it unknown. */
  function ResolveOrientation(o: Option<Orientation>, orig: Location, sub: Location): (r: Option<Orientation>)
    ensures o.Some? ==> r == o
    ensures o.None? && r == Some(Horizontal) ==> orig.row == sub.row
    ensures o.None? && r == Some(Vertical) ==> orig.column == sub.column
    ensures r.None? <==> o.None? && orig.row != sub.row && orig.column != sub.column
  {
    if o.Some? then o
    else if orig.row - sub.row == 0 then Some(Horizontal)
    else if orig.column - sub.column == 0 then Some(Vertical)
    else None
  }

  /** The next cell along the axis after the later hit (rightwards or downwards). */
  function Ahead(o: Orientation, orig: Location, sub: Location): Location
  {
    match o
    case Horizontal => Location(orig.row, sub.column + 1)
    case Vertical => Location(sub.row + 1, orig.column)
  }

  /** The cell k steps from the first hit the other way (leftwards or upwards). */
  function Behind(o: Orientation, orig: Location, k: int): Location
  {
    match o
    case Horizontal => Location(orig.row, orig.column - k)
    case Vertical => Location(orig.row - k, orig.column)
  }

  /** Continue forward: the next cell is a valid move and the last move was not a miss. */
  predicate ForwardOk(b: BoardState, o: Orientation, orig: Location, sub: Location, last: Location)
    requires IsSquare(b) && InBounds(b, last)
  {
    IsValidMove(b, Ahead(o, orig, sub)) && At(b, last) != MISS
  }

  /** Some cell behind the first hit is still a valid move; otherwise the
      backward walk of the source never ends. */
  ghost predicate BackwardAvailable(b: BoardState, o: Orientation, orig: Location)
    requires IsSquare(b)
  {
    exists k: nat :: k >= 1 && IsValidMove(b, Behind(o, orig, k))
  }

  /** k is the nearest step behind the first hit that is a valid move. */
  predicate NearestBehind(b: BoardState, o: Orientation, orig: Location, k: int)
    requires IsSquare(b)
  {
    k >= 1 && IsValidMove(b, Behind(o, orig, k)) &&
    forall j :: 1 <= j < k ==> !IsValidMove(b, Behind(o, orig, j))
  }

  /** When some cell behind is open, the backward walk stops at a nearest one. */
  lemma {:induction false} NearestBehindExists(b: BoardState, o: Orientation, orig: Location, k: int)
    requires IsSquare(b) && k >= 1 && IsValidMove(b, Behind(o, orig, k))
    ensures exists j :: 1 <= j <= k && NearestBehind(b, o, orig, j)
    decreases k
  {
    if exists j :: 1 <= j < k && IsValidMove(b, Behind(o, orig, j)) {
      var j :| 1 <= j < k && IsValidMove(b, Behind(o, orig, j));
      NearestBehindExists(b, o, orig, j);
    } else {
      assert NearestBehind(b, o, orig, k);
    }
  }

  /** ... and that stop is unique. */
  lemma NearestBehindUnique(b: BoardState, o: Orientation, orig: Location, j: int, k: int)
    requires IsSquare(b) && NearestBehind(b, o, orig, j) && NearestBehind(b, o, orig, k)
    ensures j == k
  {
  }

  /** A targeted move stays on the line through the two hits: in the row of
      the first hit when horizontal, in its column when vertical, next to the
      later hit when going forward and on the far side of the first hit when
      going back. */
  lemma TargetedMoveOnAxis(o: Option<Orientation>, orig: Location, sub: Location, k: int)
    requires ResolveOrientation(o, orig, sub).Some? && k >= 1
    requires o.None? || o == ResolveOrientation(None, orig, sub)
    ensures var axis := ResolveOrientation(o, orig, sub).value;
      var ahead, behind := Ahead(axis, orig, sub), Behind(axis, orig, k);
      match axis
      case Horizontal => ahead.row == behind.row == orig.row == sub.row &&
                         Touching(sub, ahead) && behind.column < orig.column
      case Vertical => ahead.column == behind.column == orig.column == sub.column &&
                       Touching(sub, ahead) && behind.row < orig.row
  {
  }

  /** The move around a hit is one of its four side neighbours, the first
      valid one in the order below, above, right, left. */
  lemma PatternMoveTouchesHit(b: BoardState, h: Location)
    requires IsSquare(b) && FirstValidMove(b, PatternOrder(h)).Some?
    ensures var m := FirstValidMove(b, PatternOrder(h)).value;
      IsValidMove(b, m) && Touching(h, m) && (m.row == h.row || m.column == h.column)
  {
    var m := FirstValidMove(b, PatternOrder(h)).value;
    assert m in PatternOrder(h);
  }

  /** A kept random draw has no hit anywhere around it. */
  lemma RandomMoveAvoidsHits(b: BoardState, m: Location)
    requires IsSquare(b) && RandomMoveOk(b, m)
    ensures forall q :: InBounds(b, q) && Touching(m, q) ==> At(b, q) != HIT
  {
    AdjacentToKnownShipExactly(b, m);
  }

  /** Why skipping such cells loses nothing: ships keep apart, so a cell
      touching a section of one ship holds no section of any other. */
  lemma CellsNextToAShipHoldNoOtherShip(ships: seq<Ship>, i: nat, q: Location, m: Location)
    requires FleetApart(ships) && i < |ships|
    requires q in ships[i].sectionLocationList && Touching(q, m)
    ensures forall j :: 0 <= j < |ships| && j != i ==> m !in ships[j].sectionLocationList
  {
  }

  /** The index of the first listed ship that has a section at m, if any. */
  function FirstShipWith(ships: seq<Ship>, m: Location): (r: Option<nat>)
    ensures r.None? <==> forall j :: 0 <= j < |ships| ==> m !in ships[j].sectionLocationList
    ensures r.Some? ==> r.value < |ships| && m in ships[r.value].sectionLocationList &&
                        forall j :: 0 <= j < r.value ==> m !in ships[j].sectionLocationList
    decreases |ships|
  {
    if ships == [] then None
    else if m in ships[0].sectionLocationList then Some(0)
    else
      var r := FirstShipWith(ships[1..], m);
      assert forall j :: 0 < j < |ships| ==> ships[j] == ships[1..][j - 1];
      if r.None? then None else Some(r.value + 1)
  }

  /** The hunting state after a shot that hit a ship: a first hit starts
      target mode from that cell, a hit in target mode is the later hit of
      two, and sinking the ship ends the hunt. */
  function AfterHit(s: AiState, m: Location, sunk: bool): (t: AiState)
    ensures t.aiMoveTuple == s.aiMoveTuple && t.hitTuple == Some(m)
    ensures t.isTargetMode == !sunk
  {
    var recorded := if s.isTargetMode then s.(isSecondHit := true, subsequentHitTuple := Some(m))
                    else s.(origHitTuple := Some(m));
    var hunting := recorded.(hitTuple := Some(m), isTargetMode := true);
    if sunk then hunting.(isTargetMode := false, isSecondHit := false, orientation := None)
    else hunting
  }

  /** Sinking a ship always returns the player to random search with no
      orientation; otherwise the player is in target mode around m. */
  lemma AfterHitModes(s: AiState, m: Location, sunk: bool)
    ensures var t := AfterHit(s, m, sunk);
      (sunk ==> !t.isTargetMode && !t.isSecondHit && t.orientation.None?) &&
      (!sunk ==> t.isTargetMode && t.hitTuple == Some(m) && t.orientation == s.orientation &&
                 t.isSecondHit == (s.isTargetMode || s.isSecondHit)) &&
      t.hitTuple == Some(m) && t.aiMoveTuple == s.aiMoveTuple
  {
  }

  /** A first hit is remembered as the origin; a later one as the subsequent hit. */
  lemma AfterHitRemembers(s: AiState, m: Location, sunk: bool)
    ensures var t := AfterHit(s, m, sunk);
      (!s.isTargetMode ==> t.origHitTuple == Some(m) && t.subsequentHitTuple == s.subsequentHitTuple) &&
      (s.isTargetMode ==> t.subsequentHitTuple == Some(m) && t.origHitTuple == s.origHitTuple)
  {
  }

  /** A hit keeps the hunting state consistent once the move has been recorded. */
  lemma AfterHitConsistent(s: AiState, m: Location, sunk: bool)
    requires Consistent(s) && s.aiMoveTuple == Some(m)
    ensures Consistent(AfterHit(s, m, sunk))
  {
  }

  /** The move is the first kept random draw. */
  ghost predicate RandomPick(b: BoardState, draws: nat -> Location, move: Location)
    requires IsSquare(b)
  {
    exists t: nat :: FirstKept(b, draws, t) && move == draws(t)
  }

  /** provide_targeted_move from state s, giving the move and the state t:
      the orientation is settled from the two hits if not yet known; with
      none the last move is repeated and nothing changes; otherwise the
      move goes forward past the later hit, or back to the nearest open
      cell behind the first hit, which then becomes the first hit. */
  ghost predicate TargetedStep(b: BoardState, s: AiState, move: Location, t: AiState)
    requires IsSquare(b) && Consistent(s) && s.isSecondHit && InBounds(b, s.aiMoveTuple.value)
  {
    var orig, sub, last := s.origHitTuple.value, s.subsequentHitTuple.value, s.aiMoveTuple.value;
    match ResolveOrientation(s.orientation, orig, sub)
    case None => move == last && t == s
    case Some(o) =>
      var moved := s.(aiMoveTuple := Some(move), orientation := Some(o));
      if ForwardOk(b, o, orig, sub, last) then move == Ahead(o, orig, sub) && t == moved
      else (exists k :: NearestBehind(b, o, orig, k) && move == Behind(o, orig, k)) &&
           t == moved.(origHitTuple := Some(move))
  }

  /** The first half of ai_make_a_move from state s: the move its mode picks
      and the state the player is left in before the shot is fired. */
  ghost predicate MoveStep(b: BoardState, draws: nat -> Location, s: AiState, move: Location, t: AiState)
    requires IsSquare(b) && Consistent(s) && (s.aiMoveTuple.Some? ==> InBounds(b, s.aiMoveTuple.value))
  {
    if s.isTargetMode && !s.isSecondHit then
      match FirstValidMove(b, PatternOrder(s.hitTuple.value))
      case Some(m) => move == m && t == s.(aiMoveTuple := Some(m))
      case None => RandomPick(b, draws, move) && t == s.(aiMoveTuple := Some(move), isTargetMode := false)
    else if s.isTargetMode && s.isSecondHit then TargetedStep(b, s, move, t)
    else RandomPick(b, draws, move) && t == s.(aiMoveTuple := Some(move))
  }

  /** The choice of a move is determined: from one state, board and series
      of draws there is exactly one move and one resulting state. */
  lemma MoveStepDetermined(b: BoardState, draws: nat -> Location, s: AiState,
                           m1: Location, t1: AiState, m2: Location, t2: AiState)
    requires IsSquare(b) && Consistent(s) && (s.aiMoveTuple.Some? ==> InBounds(b, s.aiMoveTuple.value))
    requires MoveStep(b, draws, s, m1, t1) && MoveStep(b, draws, s, m2, t2)
    ensures m1 == m2 && t1 == t2
  {
  }

  class AIMind {
    const grid: Grid
    var aiMoveTuple: Option<Location>
    var isTargetMode: bool
    var isSecondHit: bool
    var orientation: Option<Orientation>
    var origHitTuple: Option<Location>
    var hitTuple: Option<Location>
    var subsequentHitTuple: Option<Location>

    function State(): AiState
      reads this
    {
      AiState(aiMoveTuple, isTargetMode, isSecondHit, orientation, origHitTuple, hitTuple, subsequentHitTuple)
    }

    /** The grid is well formed, the last move is on it and the state is consistent. */
    predicate Valid()
      reads this, grid
    {
      grid.Valid() && Consistent(State()) &&
      (aiMoveTuple.Some? ==> InBounds(grid.gridState, aiMoveTuple.value))
    }

    /** The state the orientation and the two hits resolve to lets the
        targeted move end: if it cannot go forward, a cell behind is open. */
    ghost predicate TargetedMoveDefined()
      reads this, grid
      requires Valid() && isSecondHit
    {
      var o := ResolveOrientation(orientation, origHitTuple.value, subsequentHitTuple.value);
      o.Some? && !ForwardOk(grid.gridState, o.value, origHitTuple.value, subsequentHitTuple.value, aiMoveTuple.value)
      ==> BackwardAvailable(grid.gridState, o.value, origHitTuple.value)
    }

    /** The move the current mode asks for exists (else the source loops for ever). */
    ghost predicate MoveAvailable(draws: nat -> Location)
      reads this, grid
      requires Valid()
    {
      if isTargetMode && !isSecondHit then
        FirstValidMove(grid.gridState, PatternOrder(hitTuple.value)).None? ==> RandomDrawsSucceed(grid.gridState, draws)
      else if isTargetMode && isSecondHit then TargetedMoveDefined()
      else RandomDrawsSucceed(grid.gridState, draws)
    }

    constructor (grid: Grid)
      ensures this.grid == grid
      ensures State() == AiState(None, false, false, None, None, None, None)
      ensures grid.Valid() ==> Valid()
    {
      this.grid := grid;
      aiMoveTuple := None;
      isTargetMode := false;
      isSecondHit := false;
      orientation := None;
      origHitTuple := None;
      hitTuple := None;
      subsequentHitTuple := None;
    }

    /** provide_random_move: the first kept draw becomes the last move. */
    method ProvideRandomMove(draws: nat -> Location) returns (move: Location)
      requires Valid() && DrawsInRange(draws) && RandomDrawsSucceed(grid.gridState, draws)
      modifies this`aiMoveTuple
      ensures Valid() && aiMoveTuple == Some(move)
      ensures exists t: nat :: FirstKept(grid.gridState, draws, t) && move == draws(t)
      ensures RandomMoveOk(grid.gridState, move) && move.row < GRID_SIZE && move.column < GRID_SIZE
    {
      move := DrawRandomMove(grid.gridState, draws);
      aiMoveTuple := Some(move);
    }

    /** provide_pattern_move: the first valid side neighbour of the hit, tried
        below, above, right, left; if none is valid, leave target mode and
        fall back to a random move. */
    method ProvidePatternMove(hitTuple: Location, draws: nat -> Location) returns (move: Location)
      requires Valid() && !isSecondHit && DrawsInRange(draws)
      requires FirstValidMove(grid.gridState, PatternOrder(hitTuple)).None? ==> RandomDrawsSucceed(grid.gridState, draws)
      modifies this`aiMoveTuple, this`isTargetMode
      ensures Valid() && aiMoveTuple == Some(move)
      ensures match FirstValidMove(grid.gridState, PatternOrder(hitTuple))
        case Some(m) => move == m && isTargetMode == old(isTargetMode)
        case None => !isTargetMode && exists t: nat :: FirstKept(grid.gridState, draws, t) && move == draws(t)
      ensures IsValidMove(grid.gridState, move)
    {
      var b := grid.gridState;
      var row, column := hitTuple.row, hitTuple.column;
      PatternOrderUnfolds(b, hitTuple);
      if IsValidMove(b, Location(row + 1, column)) {
        row := row + 1;
      } else if IsValidMove(b, Location(row - 1, column)) {
        row := row - 1;
      } else if IsValidMove(b, Location(row, column + 1)) {
        column := column + 1;
      } else if IsValidMove(b, Location(row, column - 1)) {
        column := column - 1;
      } else {
        isTargetMode := false;
        move := ProvideRandomMove(draws);
        return;
      }
      move := Location(row, column);
      aiMoveTuple := Some(move);
    }

    /** provide_targeted_move: settle the orientation if it is not known
        yet; then keep going forward past the later hit while that cell is a
        valid move and the last move was not a miss, and otherwise walk back
        from the first hit to the nearest cell not yet fired at, which
        becomes the new first hit. With no orientation the last move is
        returned again. (The source's argument is ignored: it reads the last
        move from its own field.) */
    method ProvideTargetedMove() returns (move: Location)
      requires Valid() && isSecondHit && TargetedMoveDefined()
      modifies this`orientation, this`origHitTuple, this`aiMoveTuple
      ensures Valid() && aiMoveTuple == Some(move)
      ensures orientation == ResolveOrientation(old(orientation), old(origHitTuple).value, subsequentHitTuple.value)
      ensures orientation.None? ==> move == old(aiMoveTuple).value && origHitTuple == old(origHitTuple)
      ensures orientation.Some? ==>
        var o, orig, sub := orientation.value, old(origHitTuple).value, subsequentHitTuple.value;
        if ForwardOk(grid.gridState, o, orig, sub, old(aiMoveTuple).value) then
          move == Ahead(o, orig, sub) && origHitTuple == old(origHitTuple)
        else
          (exists k :: NearestBehind(grid.gridState, o, orig, k) && move == Behind(o, orig, k)) &&
          origHitTuple == Some(move)
      ensures orientation.Some? ==> IsValidMove(grid.gridState, move)
      ensures TargetedStep(grid.gridState, old(State()), move, State())
    {
      var b := grid.gridState;
      var last := aiMoveTuple.value;
      var orig, sub := origHitTuple.value, subsequentHitTuple.value;
      if orientation.None? {
        if orig.row - sub.row == 0 {
          orientation := Some(Horizontal);
        } else if orig.column - sub.column == 0 {
          orientation := Some(Vertical);
        }
      }
      if orientation.Some? {
        var walked;
        move, walked := TargetAlong(b, orientation.value, orig, sub, last);
        if walked {
          origHitTuple := Some(move);
        }
        aiMoveTuple := Some(move);
      } else {
        move := last;
      }
    }

    /** The first half of ai_make_a_move: the move the current mode asks for. */
    method ChooseMove(draws: nat -> Location) returns (move: Location)
      requires Valid() && DrawsInRange(draws) && MoveAvailable(draws)
      modifies this`aiMoveTuple, this`isTargetMode, this`orientation, this`origHitTuple
      ensures Valid() && aiMoveTuple == Some(move)
      ensures MoveStep(grid.gridState, draws, old(State()), move, State())
      ensures !old(isSecondHit) ==> IsValidMove(grid.gridState, move)
      ensures !old(isTargetMode) ==> RandomMoveOk(grid.gridState, move)
    {
      if isTargetMode && !isSecondHit {
        move := ProvidePatternMove(hitTuple.value, draws);
      } else if isTargetMode && isSecondHit {
        move := ProvideTargetedMove();
      } else {
        move := ProvideRandomMove(draws);
      }
    }
  }

  /** Both axes of provide_targeted_move once the orientation is known: the
      cell after the later hit when it is a valid move and the last move was
      not a miss, otherwise (walked) the nearest valid cell behind the first hit. */
  method TargetAlong(b: BoardState, o: Orientation, orig: Location, sub: Location, last: Location)
    returns (move: Location, walked: bool)
    requires IsSquare(b) && InBounds(b, last)
    requires !ForwardOk(b, o, orig, sub, last) ==> BackwardAvailable(b, o, orig)
    ensures walked <==> !ForwardOk(b, o, orig, sub, last)
    ensures !walked ==> move == Ahead(o, orig, sub)
    ensures walked ==> exists k :: NearestBehind(b, o, orig, k) && move == Behind(o, orig, k)
    ensures IsValidMove(b, move)
  {
    match o
    case Horizontal =>
      if IsValidMove(b, Location(orig.row, sub.column + 1)) && b[last.row][last.column] != MISS {
        move, walked := Location(orig.row, sub.column + 1), false;
      } else {
        move := WalkBackLeft(b, orig);
        walked := true;
      }
    case Vertical =>
      if IsValidMove(b, Location(sub.row + 1, orig.column)) && b[last.row][last.column] != MISS {
        move, walked := Location(sub.row + 1, orig.column), false;
      } else {
        move := WalkBackUp(b, orig);
        walked := true;
      }
  }

  /** The redraw loop of provide_random_move: draw until the cell is a valid
      move with no hit around it. */
  method DrawRandomMove(b: BoardState, draws: nat -> Location) returns (move: Location)
    requires IsSquare(b) && RandomDrawsSucceed(b, draws)
    ensures exists t: nat :: FirstKept(b, draws, t) && move == draws(t)
    ensures RandomMoveOk(b, move)
  {
    ghost var w: nat :| RandomMoveOk(b, draws(w));
    var t: nat := 0;
    move := draws(t);
    while !IsValidMove(b, move) || IsMoveAdjacentToKnownShip(b, move)
      invariant t <= w && move == draws(t)
      invariant forall u: nat :: u < t ==> !RandomMoveOk(b, draws(u))
      decreases w - t
    {
      t := t + 1;
      move := draws(t);
    }
    assert FirstKept(b, draws, t);
  }

  /** The four tries of provide_pattern_move, written out. */
  lemma PatternOrderUnfolds(b: BoardState, h: Location)
    requires IsSquare(b)
    ensures var cs := PatternOrder(h);
      FirstValidMove(b, cs) ==
        if IsValidMove(b, cs[0]) then Some(cs[0])
        else if IsValidMove(b, cs[1]) then Some(cs[1])
        else if IsValidMove(b, cs[2]) then Some(cs[2])
        else if IsValidMove(b, cs[3]) then Some(cs[3])
        else None
  {
    var cs := PatternOrder(h);
    assert cs[1..] == [cs[1], cs[2], cs[3]];
    assert cs[1..][1..] == [cs[2], cs[3]];
    assert cs[1..][1..][1..] == [cs[3]];
    assert cs[1..][1..][1..][1..] == [];
  }

  /** The horizontal backward walk of provide_targeted_move: from the first
      hit leftwards to the nearest cell that is a valid move. */
  method WalkBackLeft(b: BoardState, orig: Location) returns (p: Location)
    requires IsSquare(b) && BackwardAvailable(b, Horizontal, orig)
    ensures p == Behind(Horizontal, orig, orig.column - p.column)
    ensures NearestBehind(b, Horizontal, orig, orig.column - p.column)
  {
    ghost var w: nat :| w >= 1 && IsValidMove(b, Behind(Horizontal, orig, w));
    var column := orig.column - 1;
    p := Location(orig.row, column);
    while !IsValidMove(b, p)
      invariant orig.column - w <= column < orig.column && p == Location(orig.row, column)
      invariant forall j :: 1 <= j < orig.column - column ==> !IsValidMove(b, Behind(Horizontal, orig, j))
      decreases column - (orig.column - w)
    {
      column := column - 1;
      p := Location(orig.row, column);
    }
  }

  /** The vertical backward walk of provide_targeted_move: from the first
      hit upwards to the nearest cell that is a valid move. */
  method WalkBackUp(b: BoardState, orig: Location) returns (p: Location)
    requires IsSquare(b) && BackwardAvailable(b, Vertical, orig)
    ensures p == Behind(Vertical, orig, orig.row - p.row)
    ensures NearestBehind(b, Vertical, orig, orig.row - p.row)
  {
    ghost var w: nat :| w >= 1 && IsValidMove(b, Behind(Vertical, orig, w));
    var row := orig.row - 1;
    p := Location(row, orig.column);
    while !IsValidMove(b, p)
      invariant orig.row - w <= row < orig.row && p == Location(row, orig.column)
      invariant forall j :: 1 <= j < orig.row - row ==> !IsValidMove(b, Behind(Vertical, orig, j))
      decreases row - (orig.row - w)
    {
      row := row - 1;
      p := Location(row, orig.column);
    }
  }

  /** The second half of ai_make_a_move: look through the alive ships in
      order for the first one with a section at the move. On a hit that ship
      takes damage, the cell becomes HIT, the hunting state is updated and a
      sunk ship leaves the list; on a miss the cell becomes MISS and nothing
      else changes. */
  method RecordShot(humanGrid: Grid, aiBrain: AIMind, move: Location)
    requires humanGrid.Valid() && InBounds(humanGrid.gridState, move)
    modifies humanGrid`gridState, humanGrid`aliveShipObjectList, humanGrid.aliveShipObjectList
    modifies aiBrain`isTargetMode, aiBrain`isSecondHit, aiBrain`orientation
    modifies aiBrain`origHitTuple, aiBrain`hitTuple, aiBrain`subsequentHitTuple
    ensures humanGrid.Valid()
    ensures var ships := old(humanGrid.aliveShipObjectList);
      match FirstShipWith(ships, move)
      case None =>
        humanGrid.gridState == Mark(old(humanGrid.gridState), move, MISS) &&
        humanGrid.aliveShipObjectList == ships && aiBrain.State() == old(aiBrain.State())
      case Some(k) =>
        var ship := ships[k];
        ship.State() == Damage(ship.sectionLocationList, old(ship.State()), move) &&
        humanGrid.gridState == Mark(old(humanGrid.gridState), move, HIT) &&
        humanGrid.aliveShipObjectList == (if ship.isAlive then ships else ships[..k] + ships[k + 1..]) &&
        aiBrain.State() == AfterHit(old(aiBrain.State()), move, !ship.isAlive)
    ensures var ships := old(humanGrid.aliveShipObjectList);
      var k := FirstShipWith(ships, move);
      forall s :: s in ships && (k.None? || s != ships[k.value]) ==> s.State() == old(s.State())
  {
    var ships := humanGrid.aliveShipObjectList;
    var i := 0;
    while i < |ships|
      invariant 0 <= i <= |ships|
      invariant forall j :: 0 <= j < i ==> move !in ships[j].sectionLocationList
    {
      if move in ships[i].sectionLocationList {
        assert FirstShipWith(ships, move) == Some(i);
        ApplyHit(humanGrid, aiBrain, i, move);
        return;
      }
      i := i + 1;
    }
    humanGrid.gridState := Mark(humanGrid.gridState, move, MISS);
  }

  /** The body of that loop for the ship at index i, which has a section at
      the move: record the hit, damage the ship, drop it from the list if it
      sank, and mark the cell HIT. */
  method ApplyHit(humanGrid: Grid, aiBrain: AIMind, i: nat, move: Location)
    requires humanGrid.Valid() && InBounds(humanGrid.gridState, move)
    requires i < |humanGrid.aliveShipObjectList| && move in humanGrid.aliveShipObjectList[i].sectionLocationList
    modifies humanGrid`gridState, humanGrid`aliveShipObjectList, humanGrid.aliveShipObjectList[i]
    modifies aiBrain`isTargetMode, aiBrain`isSecondHit, aiBrain`orientation
    modifies aiBrain`origHitTuple, aiBrain`hitTuple, aiBrain`subsequentHitTuple
    ensures humanGrid.Valid()
    ensures var ships := old(humanGrid.aliveShipObjectList);
      var ship := ships[i];
      ship.State() == Damage(ship.sectionLocationList, old(ship.State()), move) &&
      humanGrid.gridState == Mark(old(humanGrid.gridState), move, HIT) &&
      humanGrid.aliveShipObjectList == (if ship.isAlive then ships else ships[..i] + ships[i + 1..]) &&
      aiBrain.State() == AfterHit(old(aiBrain.State()), move, !ship.isAlive)
  {
    var ship := humanGrid.aliveShipObjectList[i];
    if aiBrain.isTargetMode {
      aiBrain.isSecondHit := true;
      aiBrain.subsequentHitTuple := Some(move);
    } else {
      aiBrain.origHitTuple := Some(move);
    }
    aiBrain.hitTuple := Some(move);
    ship.TakeDamage(move);
    aiBrain.isTargetMode := true;
    if !ship.isAlive {
      humanGrid.aliveShipObjectList := humanGrid.aliveShipObjectList[..i] + humanGrid.aliveShipObjectList[i + 1..];
      aiBrain.isTargetMode := false;
      aiBrain.isSecondHit := false;
      aiBrain.orientation := None;
    }
    humanGrid.gridState := Mark(humanGrid.gridState, move, HIT);
  }

  /** ai_make_a_move: pick a move by mode (around the last hit after a
      first hit, along the axis after a second hit, at random otherwise) and
      fire it at the human grid. chosen is the player's state once the move
      is picked; the shot then marks the cell HIT or MISS, damages the first
      ship with a section there, and on a hit updates the hunting state. */
  method AiMakeAMove(humanGrid: Grid, aiBrain: AIMind, draws: nat -> Location) returns (ghost chosen: AiState)
    requires aiBrain.grid == humanGrid && aiBrain.Valid()
    requires DrawsInRange(draws) && aiBrain.MoveAvailable(draws)
    modifies humanGrid`gridState, humanGrid`aliveShipObjectList, humanGrid.aliveShipObjectList, aiBrain
    ensures aiBrain.Valid() && aiBrain.aiMoveTuple.Some?
    ensures MoveStep(old(humanGrid.gridState), draws, old(aiBrain.State()), aiBrain.aiMoveTuple.value, chosen)
    ensures var m, ships := aiBrain.aiMoveTuple.value, old(humanGrid.aliveShipObjectList);
      InBounds(old(humanGrid.gridState), m) &&
      match FirstShipWith(ships, m)
      case None =>
        humanGrid.gridState == Mark(old(humanGrid.gridState), m, MISS) &&
        humanGrid.aliveShipObjectList == ships && aiBrain.State() == chosen
      case Some(k) =>
        var ship := ships[k];
        ship.State() == Damage(ship.sectionLocationList, old(ship.State()), m) &&
        humanGrid.gridState == Mark(old(humanGrid.gridState), m, HIT) &&
        humanGrid.aliveShipObjectList == (if ship.isAlive then ships else ships[..k] + ships[k + 1..]) &&
        aiBrain.State() == AfterHit(chosen, m, !ship.isAlive)
    ensures var ships := old(humanGrid.aliveShipObjectList);
      var k := FirstShipWith(ships, aiBrain.aiMoveTuple.value);
      forall s :: s in ships && (k.None? || s != ships[k.value]) ==> s.State() == old(s.State())
    ensures !old(aiBrain.isSecondHit) ==> IsValidMove(old(humanGrid.gridState), aiBrain.aiMoveTuple.value)
    ensures !old(aiBrain.isTargetMode) ==> RandomMoveOk(old(humanGrid.gridState), aiBrain.aiMoveTuple.value)
  {
    var move := aiBrain.ChooseMove(draws);
    chosen := aiBrain.State();
    AfterHitConsistent(chosen, move, true);
    AfterHitConsistent(chosen, move, false);
    AfterHitModes(chosen, move, true);
    AfterHitModes(chosen, move, false);
    RecordShot(humanGrid, aiBrain, move);
    assert aiBrain.aiMoveTuple == Some(move);
  }
}
