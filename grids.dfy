/** A player's grid: the board matrix and the ships still afloat on it, and the
    randomised placement of ships. The random draws of the source are inputs
    here: one Attempt (anchor row, anchor column, direction) per try. */
module Grids {
  import opened Board
  import opened Ships

  /** Placement gives up after this many tries. */
  const MAX_TRIES := 100000

  /** The four values of randrange(4) used to orient a ship, in order 0..3. */
  datatype Direction = Down | Up | Right | Left

  /** The random draws of one placement try. */
  datatype Attempt = Attempt(row: int, column: int, direction: Direction)

  /** A kind of ship of the fleet description: its name, its length and how many to place. */
  datatype ShipType = ShipType(name: string, size: nat, number: nat)

  /** The cell k steps from the anchor of a along its direction. */
  function Offset(a: Attempt, k: int): Location
  {
    match a.direction
    case Down => Location(a.row + k, a.column)
    case Up => Location(a.row - k, a.column)
    case Right => Location(a.row, a.column + k)
    case Left => Location(a.row, a.column - k)
  }

  /** The n cells a try lays down, from the anchor along the direction. */
  function Run(a: Attempt, n: nat): seq<Location>
  {
    seq(n, k => Offset(a, k))
  }

  /** A run is a straight line of n distinct cells starting at the anchor,
      each one step (side by side) from the previous one. */
  lemma RunIsStraight(a: Attempt, n: nat)
    ensures var cells := Run(a, n);
      |cells| == n &&
      (n > 0 ==> cells[0] == Location(a.row, a.column)) &&
      (forall i, j :: 0 <= i < j < n ==> cells[i] != cells[j]) &&
      (forall i :: 0 < i < n ==> Touching(cells[i - 1], cells[i]) &&
                                 (cells[i - 1].row == cells[i].row || cells[i - 1].column == cells[i].column)) &&
      (a.direction in {Right, Left} ==> forall i :: 0 <= i < n ==> cells[i].row == a.row) &&
      (a.direction in {Down, Up} ==> forall i :: 0 <= i < n ==> cells[i].column == a.column)
  {
  }

  predicate PlacementOk(b: BoardState, p: Location)
    requires IsSquare(b)
  {
    IsValidPlacement(b, p.row, p.column)
  }

  /** A try places a ship of length n: n > 0 and all n cells of its run pass
      is_valid_placement on the board as it stands. */
  predicate Succeeds(b: BoardState, a: Attempt, n: nat)
    requires IsSquare(b)
  {
    n > 0 && forall k {:trigger PlacementOk(b, Offset(a, k))} :: 0 <= k < n ==> PlacementOk(b, Offset(a, k))
  }

  /** Try t is the first successful one among the allowed tries. */
  predicate FirstSuccess(b: BoardState, attempt: nat -> Attempt, n: nat, t: nat)
    requires IsSquare(b)
  {
    t < MAX_TRIES && Succeeds(b, attempt(t), n) &&
    forall u :: 0 <= u < t ==> !Succeeds(b, attempt(u), n)
  }

  /** The sections the tries from t on lay for a ship of length n: the run
      of the first of tries t .. MAX_TRIES - 1 that succeeds, or nothing. */
  function FirstFit(b: BoardState, attempt: nat -> Attempt, n: nat, t: nat): seq<Location>
    requires IsSquare(b)
    decreases MAX_TRIES - t
  {
    if n == 0 || t >= MAX_TRIES then []
    else if Succeeds(b, attempt(t), n) then Run(attempt(t), n)
    else FirstFit(b, attempt, n, t + 1)
  }

  /** FirstFit is the run of the first successful try, and nothing exactly
      when no try from t on succeeds. */
  lemma {:induction false} FirstFitIsFirstSuccess(b: BoardState, attempt: nat -> Attempt, n: nat, t: nat)
    requires IsSquare(b)
    ensures FirstFit(b, attempt, n, t) == [] <==>
      n == 0 || forall u :: t <= u < MAX_TRIES ==> !Succeeds(b, attempt(u), n)
    ensures FirstFit(b, attempt, n, t) != [] ==>
      exists u :: t <= u < MAX_TRIES && Succeeds(b, attempt(u), n) &&
                  (forall v :: t <= v < u ==> !Succeeds(b, attempt(v), n)) &&
                  FirstFit(b, attempt, n, t) == Run(attempt(u), n)
    decreases MAX_TRIES - t
  {
    if n == 0 || t >= MAX_TRIES {
    } else if !Succeeds(b, attempt(t), n) {
      FirstFitIsFirstSuccess(b, attempt, n, t + 1);
      if FirstFit(b, attempt, n, t) != [] {
        var u :| t + 1 <= u < MAX_TRIES && Succeeds(b, attempt(u), n) &&
                 (forall v :: t + 1 <= v < u ==> !Succeeds(b, attempt(v), n)) &&
                 FirstFit(b, attempt, n, t + 1) == Run(attempt(u), n);
        assert forall v :: t <= v < u ==> !Succeeds(b, attempt(v), n);
      }
    }
  }

  /** The tries of the k-th ship placed from a table of draws. */
  function ShipDraws(draws: (nat, nat) -> Attempt, k: nat): nat -> Attempt
  {
    (t: nat) => draws(k, t)
  }

  /** Every section of every listed ship is on the board and not empty. */
  predicate ShipsOnBoard(b: BoardState, ships: seq<Ship>)
    requires IsSquare(b)
  {
    forall i, k :: 0 <= i < |ships| && 0 <= k < |ships[i].sectionLocationList| ==>
      InBounds(b, ships[i].sectionLocationList[k]) && At(b, ships[i].sectionLocationList[k]) != EMPTY
  }

  /** No two cells of two different ships touch, diagonals included. */
  predicate SectionsApart(s: seq<Location>, t: seq<Location>)
  {
    forall k, l :: 0 <= k < |s| && 0 <= l < |t| ==> Chebyshev(s[k], t[l]) >= 2
  }

  predicate FleetApart(ships: seq<Ship>)
  {
    forall i, j :: 0 <= i < j < |ships| ==> SectionsApart(ships[i].sectionLocationList, ships[j].sectionLocationList)
  }

  /** b2 is b1 with the cells in marked set to SHIP and every other cell kept. */
  predicate StampedFrom(b2: BoardState, b1: BoardState, marked: set<Location>)
  {
    |b2| == |b1| && IsSquare(b1) && IsSquare(b2) &&
    forall r, c :: 0 <= r < |b1| && 0 <= c < |b1| ==>
      b2[r][c] == if Location(r, c) in marked then SHIP else b1[r][c]
  }

  /** The cells of all listed ships. */
  function FleetCells(ships: seq<Ship>): set<Location>
  {
    if ships == [] then {} else FleetCells(ships[..|ships| - 1]) + Elements(ships[|ships| - 1].sectionLocationList)
  }

  /** The ships one entry of a fleet description asks for, one (name, length) per ship. */
  function Kinds(t: ShipType): seq<(string, nat)>
  {
    seq(t.number, _ => (t.name, t.size))
  }

  /** The ships a fleet description asks for, one (name, length) per ship, in order. */
  function Roster(fleet: seq<ShipType>): seq<(string, nat)>
  {
    if fleet == [] then [] else Roster(fleet[..|fleet| - 1]) + Kinds(fleet[|fleet| - 1])
  }

  /** A newly placed ship of the given kind (name, length): afloat, undamaged,
      and either unplaced (no sections) or laid on a straight run of that length. */
  ghost predicate PlacedAs(ship: Ship, kind: (string, nat))
    reads ship
  {
    ship.name == kind.0 && ship.isAlive && ship.damagedSectionList == [] &&
    (ship.sectionLocationList == [] || exists a :: ship.sectionLocationList == Run(a, kind.1))
  }

  /** The i-th ship was newly placed as the i-th entry of the roster. */
  ghost predicate PlacedFleet(ships: seq<Ship>, roster: seq<(string, nat)>)
    reads ships
  {
    |ships| == |roster| && forall j :: 0 <= j < |ships| ==> PlacedAs(ships[j], roster[j])
  }

  lemma PlacedFleetConcat(ships: seq<Ship>, roster: seq<(string, nat)>, more: seq<Ship>, kinds: seq<(string, nat)>)
    requires PlacedFleet(ships, roster) && PlacedFleet(more, kinds)
    ensures PlacedFleet(ships + more, roster + kinds)
  {
  }

  /** One round of populate_grid keeps its loop invariant: the ships of one
      more fleet entry are appended, named and laid as the roster says, and
      their cells stamped on the board. */
  lemma FleetStep(fleet: seq<ShipType>, s: nat, b0: BoardState, b1: BoardState, b2: BoardState,
                  ships0: seq<Ship>, added: seq<Ship>, more: seq<Ship>)
    requires s < |fleet|
    requires PlacedFleet(added, Roster(fleet[..s])) && PlacedFleet(more, Kinds(fleet[s]))
    requires StampedFrom(b1, b0, FleetCells(added)) && StampedFrom(b2, b1, FleetCells(more))
    ensures PlacedFleet(added + more, Roster(fleet[..s + 1]))
    ensures StampedFrom(b2, b0, FleetCells(added + more))
    ensures (ships0 + added) + more == ships0 + (added + more)
  {
    assert fleet[..s + 1][..s] == fleet[..s];
    PlacedFleetConcat(added, Roster(fleet[..s]), more, Kinds(fleet[s]));
    FleetCellsConcat(added, more);
    StampedFromTrans(b0, b1, b2, FleetCells(added), FleetCells(more));
  }

  lemma FleetCellsAppend(ships: seq<Ship>, ship: Ship)
    ensures FleetCells(ships + [ship]) == FleetCells(ships) + Elements(ship.sectionLocationList)
  {
    assert (ships + [ship])[..|ships|] == ships;
  }

  lemma {:induction false} FleetCellsConcat(ships: seq<Ship>, more: seq<Ship>)
    ensures FleetCells(ships + more) == FleetCells(ships) + FleetCells(more)
    decreases |more|
  {
    if more != [] {
      var init, last := more[..|more| - 1], more[|more| - 1];
      assert more == init + [last];
      assert ships + more == (ships + init) + [last];
      FleetCellsConcat(ships, init);
      FleetCellsAppend(ships + init, last);
      FleetCellsAppend(init, last);
    } else {
      assert ships + more == ships;
    }
  }

  lemma StampedFromTrans(b1: BoardState, b2: BoardState, b3: BoardState, m1: set<Location>, m2: set<Location>)
    requires StampedFrom(b2, b1, m1) && StampedFrom(b3, b2, m2)
    ensures StampedFrom(b3, b1, m1 + m2)
  {
  }

  /** A ship whose cells were each valid placements on a board holding the
      earlier ships keeps its distance from all of them. */
  lemma AddedShipKeepsApart(b: BoardState, ships: seq<Ship>, ship: Ship)
    requires IsSquare(b) && ShipsOnBoard(b, ships) && FleetApart(ships)
    requires forall k :: 0 <= k < |ship.sectionLocationList| ==> PlacementOk(b, ship.sectionLocationList[k])
    ensures FleetApart(ships + [ship])
  {
    var all := ships + [ship];
    forall i, j | 0 <= i < j < |all|
      ensures SectionsApart(all[i].sectionLocationList, all[j].sectionLocationList)
    {
      if j == |ships| {
        var s, t := all[i].sectionLocationList, ship.sectionLocationList;
        forall k, l | 0 <= k < |s| && 0 <= l < |t| ensures Chebyshev(s[k], t[l]) >= 2 {
          PlacementKeepsDistance(b, t[l], s[k]);
        }
      }
    }
  }

  /** Stamping a new ship's cells keeps every ship's cells occupied. */
  lemma StampKeepsShipsOnBoard(b1: BoardState, b2: BoardState, ships: seq<Ship>, ship: Ship)
    requires IsSquare(b1) && ShipsOnBoard(b1, ships)
    requires StampedFrom(b2, b1, Elements(ship.sectionLocationList))
    requires forall k :: 0 <= k < |ship.sectionLocationList| ==> InBounds(b1, ship.sectionLocationList[k])
    ensures ShipsOnBoard(b2, ships + [ship])
  {
    var all := ships + [ship];
    forall i, k | 0 <= i < |all| && 0 <= k < |all[i].sectionLocationList|
      ensures InBounds(b2, all[i].sectionLocationList[k]) && At(b2, all[i].sectionLocationList[k]) != EMPTY
    {
      var p := all[i].sectionLocationList[k];
      assert b2[p.row][p.column] == if p in Elements(ship.sectionLocationList) then SHIP else b1[p.row][p.column];
    }
  }

  /** One try of get_random_ship_placement_location: nothing if the anchor
      fails is_valid_placement, otherwise the anchor followed by the cells
      along the direction for as long as each passes is_valid_placement, up to
      shipLength cells in all. */
  method LaySections(b: BoardState, a: Attempt, shipLength: nat) returns (sections: seq<Location>)
    requires IsSquare(b) && shipLength > 0
    ensures |sections| <= shipLength
    ensures forall k :: 0 <= k < |sections| ==> sections[k] == Offset(a, k) && PlacementOk(b, sections[k])
    ensures |sections| == shipLength <==> Succeeds(b, a, shipLength)
  {
    var row, column := a.row, a.column;
    if !IsValidPlacement(b, row, column) {
      assert !PlacementOk(b, Offset(a, 0));
      return [];
    }
    sections := [Location(row, column)];
    if shipLength > 1 {
      var i := 0;
      while i < shipLength - 1
        invariant 0 <= i <= shipLength - 1
        invariant Location(row, column) == Offset(a, i)
        invariant |sections| == i + 1
        invariant forall k :: 0 <= k <= i ==> sections[k] == Offset(a, k) && PlacementOk(b, sections[k])
      {
        match a.direction {
          case Down => row := row + 1;
          case Up => row := row - 1;
          case Right => column := column + 1;
          case Left => column := column - 1;
        }
        if IsValidPlacement(b, row, column) {
          sections := sections + [Location(row, column)];
        } else {
          assert !PlacementOk(b, Offset(a, i + 1));
          return;
        }
        i := i + 1;
      }
    }
  }

  /** get_random_ship_placement_location: at most MAX_TRIES tries, each drawing
      an anchor and a direction. It returns the run of the first try that lays
      all shipLength cells, or [] when shipLength is 0 or every try fails
      (the while-else branch). The grid is only read. */
  method GetRandomShipPlacementLocation(grid: Grid, shipLength: nat, attempt: nat -> Attempt)
    returns (sectionLocationTupleList: seq<Location>)
    requires grid.Valid()
    ensures sectionLocationTupleList == [] <==>
      shipLength == 0 || forall t :: 0 <= t < MAX_TRIES ==> !Succeeds(grid.gridState, attempt(t), shipLength)
    ensures sectionLocationTupleList != [] ==>
      exists t :: FirstSuccess(grid.gridState, attempt, shipLength, t) &&
                  sectionLocationTupleList == Run(attempt(t), shipLength)
    ensures sectionLocationTupleList == [] || |sectionLocationTupleList| == shipLength
    ensures forall k :: 0 <= k < |sectionLocationTupleList| ==>
      PlacementOk(grid.gridState, sectionLocationTupleList[k])
    ensures sectionLocationTupleList == FirstFit(grid.gridState, attempt, shipLength, 0)
  {
    var b := grid.gridState;
    var tries := 0;
    var placed := false;
    sectionLocationTupleList := [];
    while |sectionLocationTupleList| != shipLength && tries != MAX_TRIES
      invariant 0 <= tries <= MAX_TRIES
      invariant shipLength == 0 ==> tries == 0 && sectionLocationTupleList == []
      invariant |sectionLocationTupleList| < shipLength || shipLength == 0
      invariant forall u :: 0 <= u < tries ==> !Succeeds(b, attempt(u), shipLength)
      invariant FirstFit(b, attempt, shipLength, 0) == FirstFit(b, attempt, shipLength, tries)
      decreases MAX_TRIES - tries
    {
      tries := tries + 1;
      sectionLocationTupleList := LaySections(b, attempt(tries - 1), shipLength);
      if |sectionLocationTupleList| == shipLength {
        assert FirstSuccess(b, attempt, shipLength, tries - 1);
        assert sectionLocationTupleList == Run(attempt(tries - 1), shipLength);
        placed := true;
        break;
      }
    }
    if !placed {
      // the while-else branch: no placement found
      sectionLocationTupleList := [];
    }
  }

  class Grid {
    const size: nat
    var gridState: BoardState
    var aliveShipObjectList: seq<Ship>

    /** The board is size x size. */
    predicate Valid()
      reads this
    {
      |gridState| == size && IsSquare(gridState)
    }

    constructor (size: nat)
      ensures Valid() && this.size == size
      ensures forall r, c :: 0 <= r < size && 0 <= c < size ==> gridState[r][c] == EMPTY
      ensures aliveShipObjectList == []
    {
      var rows: seq<seq<int>> := [];
      for r := 0 to size
        invariant |rows| == r
        invariant forall i :: 0 <= i < r ==> |rows[i]| == size
        invariant forall i, c :: 0 <= i < r && 0 <= c < size ==> rows[i][c] == EMPTY
      {
        var row: seq<int> := [];
        for c := 0 to size
          invariant |row| == c
          invariant forall j :: 0 <= j < c ==> row[j] == EMPTY
        {
          row := row + [EMPTY];
        }
        rows := rows + [row];
      }
      this.size := size;
      gridState := rows;
      aliveShipObjectList := [];
    }

    /** Mark each of the given cells SHIP. */
    method MarkSections(sections: seq<Location>)
      requires Valid()
      requires forall k :: 0 <= k < |sections| ==> InBounds(gridState, sections[k])
      modifies this`gridState
      ensures Valid()
      ensures StampedFrom(gridState, old(gridState), Elements(sections))
    {
      for i := 0 to |sections|
        invariant Valid()
        invariant StampedFrom(gridState, old(gridState), Elements(sections[..i]))
      {
        var row, column := sections[i].row, sections[i].column;
        gridState := gridState[row := gridState[row][column := SHIP]];
        assert sections[..i + 1] == sections[..i] + [sections[i]];
      }
      assert sections[..|sections|] == sections;
    }

    /** One ship of populate_grid: place it, append it to the fleet and mark
        its cells SHIP. */
    method AddShip(name: string, shipLength: nat, draws: (nat, nat) -> Attempt, k: nat) returns (shipObject: Ship)
      requires Valid() && ShipsOnBoard(gridState, aliveShipObjectList)
      modifies this
      ensures Valid() && ShipsOnBoard(gridState, aliveShipObjectList)
      ensures aliveShipObjectList == old(aliveShipObjectList) + [shipObject]
      ensures fresh(shipObject) && PlacedAs(shipObject, (name, shipLength))
      ensures shipObject.sectionLocationList == FirstFit(old(gridState), ShipDraws(draws, k), shipLength, 0)
      ensures StampedFrom(gridState, old(gridState), Elements(shipObject.sectionLocationList))
      ensures FleetApart(old(aliveShipObjectList)) ==> FleetApart(aliveShipObjectList)
    {
      ghost var b0 := gridState;
      ghost var ships0 := aliveShipObjectList;
      var sections := GetRandomShipPlacementLocation(this, shipLength, ShipDraws(draws, k));
      shipObject := new Ship(name, sections);
      aliveShipObjectList := aliveShipObjectList + [shipObject];
      if FleetApart(ships0) {
        AddedShipKeepsApart(b0, ships0, shipObject);
      }
      MarkSections(shipObject.sectionLocationList);
      StampKeepsShipsOnBoard(b0, gridState, ships0, shipObject);
    }

    /** The inner loop of populate_grid: place `number` ships of one type;
        draws(first + i, t) are the draws of try t for the i-th of them. */
    method AddShips(shipType: ShipType, first: nat, draws: (nat, nat) -> Attempt) returns (ghost added: seq<Ship>)
      requires Valid() && ShipsOnBoard(gridState, aliveShipObjectList)
      modifies this
      ensures Valid() && ShipsOnBoard(gridState, aliveShipObjectList)
      ensures aliveShipObjectList == old(aliveShipObjectList) + added
      ensures forall j :: 0 <= j < |added| ==> fresh(added[j])
      ensures PlacedFleet(added, Kinds(shipType))
      ensures StampedFrom(gridState, old(gridState), FleetCells(added))
      ensures FleetApart(old(aliveShipObjectList)) ==> FleetApart(aliveShipObjectList)
    {
      ghost var ships0 := aliveShipObjectList;
      added := [];
      for i := 0 to shipType.number
        invariant Valid() && ShipsOnBoard(gridState, aliveShipObjectList)
        invariant aliveShipObjectList == ships0 + added && |added| == i
        invariant forall j :: 0 <= j < |added| ==> fresh(added[j])
        invariant forall j :: 0 <= j < |added| ==> PlacedAs(added[j], (shipType.name, shipType.size))
        invariant StampedFrom(gridState, old(gridState), FleetCells(added))
        invariant FleetApart(ships0) ==> FleetApart(aliveShipObjectList)
      {
        ghost var boardBefore := gridState;
        var ship := AddShip(shipType.name, shipType.size, draws, first + i);
        FleetCellsAppend(added, ship);
        StampedFromTrans(old(gridState), boardBefore, gridState, FleetCells(added), Elements(ship.sectionLocationList));
        added := added + [ship];
      }
    }

    /** populate_grid with the fleet description as a parameter: for each ship
        type in order, place `number` ships of its size; draws(k, t) are the
        draws of try t for the k-th ship placed by this call. */
    method PopulateGrid(shipSizeDic: seq<ShipType>, draws: (nat, nat) -> Attempt) returns (ghost added: seq<Ship>)
      requires Valid() && ShipsOnBoard(gridState, aliveShipObjectList)
      modifies this
      ensures Valid() && ShipsOnBoard(gridState, aliveShipObjectList)
      ensures aliveShipObjectList == old(aliveShipObjectList) + added
      ensures forall j :: 0 <= j < |added| ==> fresh(added[j])
      ensures PlacedFleet(added, Roster(shipSizeDic))
      ensures StampedFrom(gridState, old(gridState), FleetCells(added))
      ensures FleetApart(old(aliveShipObjectList)) ==> FleetApart(aliveShipObjectList)
    {
      ghost var ships0 := aliveShipObjectList;
      added := [];
      var placed: nat := 0;
      for s := 0 to |shipSizeDic|
        invariant Valid() && ShipsOnBoard(gridState, aliveShipObjectList)
        invariant aliveShipObjectList == ships0 + added && placed == |added|
        invariant forall j :: 0 <= j < |added| ==> fresh(added[j])
        invariant PlacedFleet(added, Roster(shipSizeDic[..s]))
        invariant StampedFrom(gridState, old(gridState), FleetCells(added))
        invariant FleetApart(ships0) ==> FleetApart(aliveShipObjectList)
      {
        var shipType := shipSizeDic[s];
        ghost var boardBefore := gridState;
        ghost var more := AddShips(shipType, placed, draws);
        FleetStep(shipSizeDic, s, old(gridState), boardBefore, gridState, ships0, added, more);
        added := added + more;
        placed := placed + shipType.number;
      }
      assert shipSizeDic[..|shipSizeDic|] == shipSizeDic;
    }

    /** get_hidden_grid as written: the copy the source makes shares its rows
        with the grid, so the grid itself loses its SHIP marks and the result
        is that same board. */
    method GetHiddenGrid() returns (hiddenGridState: BoardState)
      requires Valid()
      modifies this`gridState
      ensures Valid()
      ensures hiddenGridState == gridState == Hidden(old(gridState))
    {
      for rowIndex := 0 to size
        invariant Valid()
        invariant forall r, c :: 0 <= r < size && 0 <= c < size ==>
          gridState[r][c] == if r < rowIndex && old(gridState)[r][c] == SHIP then EMPTY else old(gridState)[r][c]
      {
        for columnIndex := 0 to size
          invariant Valid()
          invariant forall r, c :: 0 <= r < size && 0 <= c < size ==>
            gridState[r][c] == if (r < rowIndex || (r == rowIndex && c < columnIndex)) && old(gridState)[r][c] == SHIP
                               then EMPTY else old(gridState)[r][c]
        {
          if gridState[rowIndex][columnIndex] == SHIP {
            gridState := gridState[rowIndex := gridState[rowIndex][columnIndex := EMPTY]];
          }
        }
      }
      forall r | 0 <= r < size ensures gridState[r] == Hidden(old(gridState))[r] {
        assert |gridState[r]| == |Hidden(old(gridState))[r]| == size;
      }
      hiddenGridState := gridState;
    }

    /** get_hidden_grid as intended: a fresh board with the ships hidden,
        built row by row; the grid is left as it was. */
    method GetHiddenGridCopy() returns (hiddenGridState: BoardState)
      requires Valid()
      ensures hiddenGridState == Hidden(gridState)
    {
      hiddenGridState := [];
      for rowIndex := 0 to size
        invariant |hiddenGridState| == rowIndex
        invariant forall r :: 0 <= r < rowIndex ==> hiddenGridState[r] == HiddenRow(gridState[r])
      {
        var row: seq<int> := [];
        for columnIndex := 0 to size
          invariant row == HiddenRow(gridState[rowIndex][..columnIndex])
        {
          var cell := gridState[rowIndex][columnIndex];
          row := row + [if cell == SHIP then EMPTY else cell];
          assert gridState[rowIndex][..columnIndex + 1] == gridState[rowIndex][..columnIndex] + [cell];
        }
        assert gridState[rowIndex][..size] == gridState[rowIndex];
        hiddenGridState := hiddenGridState + [row];
      }
    }
  }

  /** One row as the opponent may see it: SHIP cells shown as EMPTY. */
  function HiddenRow(row: seq<int>): seq<int>
  {
    seq(|row|, c requires 0 <= c < |row| => if row[c] == SHIP then EMPTY else row[c])
  }

  /** The board as the opponent may see it. */
  function Hidden(b: BoardState): BoardState
  {
    seq(|b|, r requires 0 <= r < |b| => HiddenRow(b[r]))
  }

  /** The hidden board shows no ship, shows every hit and miss where it is,
      and leaves exactly the same moves valid. */
  lemma HiddenHidesOnlyShips(b: BoardState)
    requires IsSquare(b)
    ensures IsSquare(Hidden(b)) && |Hidden(b)| == |b|
    ensures forall p :: InBounds(b, p) ==>
      At(Hidden(b), p) != SHIP && (At(b, p) != SHIP ==> At(Hidden(b), p) == At(b, p))
    ensures forall m :: IsValidMove(Hidden(b), m) <==> IsValidMove(b, m)
  {
    var h := Hidden(b);
    forall m ensures IsValidMove(h, m) <==> IsValidMove(b, m) {
      if InBounds(b, m) {
        assert h[m.row][m.column] == if b[m.row][m.column] == SHIP then EMPTY else b[m.row][m.column];
      }
    }
  }

  /** Hiding in place, as get_hidden_grid does, erases the ships from the
      grid itself: on a one-cell grid holding a ship section, the cell that
      rejected a new section before accepts one afterwards. */
  lemma HidingInPlaceFreesShipCells()
    ensures var b: BoardState := [[SHIP]];
      !IsValidPlacement(b, 0, 0) && IsSquare(Hidden(b)) && IsValidPlacement(Hidden(b), 0, 0)
  {
    var b: BoardState := [[SHIP]];
    var h := Hidden(b);
    assert |h| == 1 && |h[0]| == 1 && h[0][0] == EMPTY;
  }
}
