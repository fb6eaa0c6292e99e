# Battleship engine in Dafny

A Dafny model of the game engine of `battleShip.py`, a console Battleship
where the computer fires at the human player's fleet.

- **Board** (`board.dfy`) holds the N x N board of cell codes: 0 empty,
  1 ship, 2 hit, 3 miss. It also holds the three board predicates of the
  source: `is_valid_placement`, `is_valid_move` and
  `is_move_adjacent_to_known_ship`. The first and the last are kept with
  their chains of edge cases and proved equal to a closed form over the
  eight surrounding cells (Chebyshev distance 1); `is_valid_move` looks at
  the move's own cell only.
- **Ships** (`ships.dfy`) holds the `Ship` class and `take_damage`. The
  damage record is also given as a value with a pure update function, and
  the lemmas cover sinking, and never coming back to life, over any series
  of hits.
- **Grids** (`grids.dfy`) holds the `Grid` class: its constructor, ship
  placement (`get_random_ship_placement_location`, `populate_grid`) and
  `get_hidden_grid`. Random draws are inputs. Each placement try is one
  `Attempt`: anchor row, anchor column and one of four directions. The main
  result is that a placed ship is a straight run of cells and that no two
  ships touch, diagonals included.
- **Targeting** (`targeting.dfy`) holds the computer player `AIMind` (random
  move, pattern move around a hit, move along the axis of two hits) and
  `ai_make_a_move`. The latter fires the chosen move at the human grid,
  damages the first ship that has a section there, removes it when it sinks
  and updates the hunting state.

State that the source changes in place is kept in Dafny classes:
`Grid.gridState`, `Grid.aliveShipObjectList`, the fields of `Ship` and
those of `AIMind`. Each method states the new state in terms of the old one
and of specification functions, and lemmas state what those functions
guarantee. A turn of the computer player is specified by the step relation
`MoveStep` (which move each mode picks and the player state after it) and
by `AfterHit` (the state after a hit).

## Model

| member | source | states |
|---|---|---|
| `Board.IsValidPlacement` | battleShip.py:189-257 | a cell passes only when it is on the board and empty (the full characterisation is `ValidPlacementExactly`) |
| `Board.ValidPlacementExactly` | battleShip.py:189-257 | `is_valid_placement(r, c)` holds exactly when (r, c) is on the board and empty and so is every on-board cell touching it, diagonals included |
| `Board.PlacementKeepsDistance` | battleShip.py:189-257 | a cell that passes `is_valid_placement` is at Chebyshev distance at least 2 from every occupied cell |
| `Board.IsValidMove` | battleShip.py:260-275 | a move is valid exactly when it is on the board and its cell is neither a hit nor a miss |
| `Board.IsMoveAdjacentToKnownShip` | battleShip.py:278-338 | it holds only when some on-board cell touching the move, diagonals included, is a hit (both directions in `AdjacentToKnownShipExactly`) |
| `Board.AdjacentToKnownShipExactly` | battleShip.py:278-338 | `is_move_adjacent_to_known_ship` holds exactly when some on-board cell touching the move, diagonals included, is a hit |
| `Board.ShotShrinksUntried` | battleShip.py:433-439 | marking a valid move as hit or miss removes exactly that cell from the untried cells, so the count of untried cells drops by one |
| `Ships.Ship.constructor` | battleShip.py:63-67 | a new ship keeps its name and sections, has no damage and is afloat |
| `Ships.Ship.TakeDamage` | battleShip.py:69-85 | the damaged list grows by the cell only when the cell is a section; the ship is dead afterwards exactly when it was alive and the damaged cells, as a set, equal its sections, or it was already dead |
| `Ships.Damage` | battleShip.py:69-85 | one hit only appends to the damaged list, by at most one cell; when it appends, the cell is the one hit and it is a section |
| `Ships.DamageRecordsOnlySections` | battleShip.py:76-80 | after one hit the damaged set is the old damaged set plus the cell if and only if the cell is a section |
| `Ships.NeverRevived` | battleShip.py:83-85 | a dead ship stays dead after a hit |
| `Ships.RepeatedHitIsIdempotent` | battleShip.py:76-85 | hitting the same cell a second time changes neither the damaged set nor the alive flag |
| `Ships.DamageAllRecords` | battleShip.py:69-85 | after any series of hits the damaged set is the old one plus the hit cells that are sections |
| `Ships.HittingEverySectionSinks` | battleShip.py:83-85 | once every section has been hit the ship is dead |
| `Ships.NeverSunkBack` | battleShip.py:83-85 | a dead ship stays dead through any series of hits |
| `Ships.AfloatUntilEverySectionHit` | battleShip.py:83-85 | an afloat ship stays afloat while some section has not been hit |
| `Grids.RunIsStraight` | battleShip.py:362-378 | the cells of one try are n distinct cells from the anchor, each a side step from the previous one, all in the anchor's row (left/right) or column (up/down) |
| `Grids.LaySections` | battleShip.py:352-384 | one try lays the anchor and then the following cells of its direction while each passes `is_valid_placement`; it reaches full length exactly when all n cells of the run pass |
| `Grids.GetRandomShipPlacementLocation` | battleShip.py:341-392 | returns `[]` exactly when the length is 0 or all 100000 tries fail, and otherwise the full run of the first successful try (`FirstFit`); the grid is only read |
| `Grids.FirstFitIsFirstSuccess` | battleShip.py:351-392 | `FirstFit` is empty exactly when the length is 0 or no try from t on succeeds; otherwise it is the run of a successful try with every earlier try failing |
| `Grids.Grid.constructor` | battleShip.py:14-24 | a size x size board of empty cells and no ships |
| `Grids.Grid.MarkSections` | battleShip.py:43-44 | the listed cells become SHIP and every other cell is kept |
| `Grids.Grid.AddShip` | battleShip.py:40-44 | one new afloat, undamaged ship with the given name is appended; its sections are exactly what placement returns for its draws `draws(k, ·)` on the board before it (`FirstFit`), so none or a straight run of the given length; its cells are stamped SHIP; the fleet stays on the board and stays apart |
| `Grids.Grid.AddShips` | battleShip.py:40-44 | `number` such ships of one fleet entry are appended and their cells stamped; apartness is preserved |
| `Grids.Grid.PopulateGrid` | battleShip.py:26-44 | the ships appended are, in order, the ships the fleet description asks for, each fresh and placed as above; exactly their cells become SHIP; a fleet whose ships were apart stays apart |
| `Grids.AddedShipKeepsApart` | battleShip.py:38-44 | a ship whose cells each passed `is_valid_placement` on a board holding the earlier ships touches none of them |
| `Grids.StampKeepsShipsOnBoard` | battleShip.py:43-44 | stamping a new ship keeps every ship's cells on the board and occupied |
| `Grids.FleetStep` | battleShip.py:38-44 | one round of the outer loop extends the placed ships by the ships of one more fleet entry and the stamped cells by theirs |
| `Grids.Grid.GetHiddenGrid` | battleShip.py:46-57 | as written: the grid's own SHIP cells become EMPTY and the result is that same board |
| `Grids.Grid.GetHiddenGridCopy` | battleShip.py:46-57 | as intended: returns the hidden board without changing the grid |
| `Grids.HiddenHidesOnlyShips` | battleShip.py:46-57 | the hidden board shows no SHIP, keeps every other cell, and has exactly the same valid moves |
| `Grids.HidingInPlaceFreesShipCells` | battleShip.py:49-56 | on a one-cell grid holding a ship section, the cell rejects a new section before in-place hiding and accepts one after it |
| `Targeting.FirstValidMove` | battleShip.py:120-130 | returns nothing exactly when no candidate is a valid move, otherwise the first valid candidate |
| `Targeting.PatternOrderUnfolds` | battleShip.py:120-130 | the pattern tries below, above, right, left in that order |
| `Targeting.PatternMoveTouchesHit` | battleShip.py:116-138 | a pattern move is a valid move that shares a side with the hit |
| `Targeting.DrawRandomMove` | battleShip.py:109-112 | the result is the first draw that is a valid move with no hit around it |
| `Targeting.RandomMoveAvoidsHits` | battleShip.py:109-112 | a kept random draw has no hit among its on-board neighbours |
| `Targeting.CellsNextToAShipHoldNoOtherShip` | battleShip.py:278-283 | when ships are apart, a cell touching a section of one ship holds no section of another; this is why the random search may skip cells next to a hit |
| `Targeting.AIMind.constructor` | battleShip.py:91-99 | the player starts with no move, no hits and no orientation, out of target mode |
| `Targeting.AIMind.ProvideRandomMove` | battleShip.py:101-114 | the last move becomes the first kept draw, which is inside the first GRID_SIZE rows and columns |
| `Targeting.AIMind.ProvidePatternMove` | battleShip.py:116-138 | the move is the first valid side neighbour of the hit with target mode unchanged; with none, target mode is left and the move is the first kept random draw |
| `Targeting.AIMind.ProvideTargetedMove` | battleShip.py:140-186 | the orientation is settled from the two hits; the move is the cell after the later hit when that is valid and the last move was not a miss, otherwise the nearest valid cell behind the first hit, which becomes the new first hit; with no orientation the last move is repeated |
| `Targeting.TargetAlong` | battleShip.py:155-184 | it walks back exactly when it cannot go forward, and the move it returns is valid |
| `Targeting.WalkBackLeft` | battleShip.py:162-170 | the result lies in the first hit's row and is the nearest valid cell to its left |
| `Targeting.WalkBackUp` | battleShip.py:176-184 | the result lies in the first hit's column and is the nearest valid cell above it |
| `Targeting.NearestBehindExists` | battleShip.py:167-170 | when any cell behind the first hit is a valid move, there is a nearest one |
| `Targeting.NearestBehindUnique` | battleShip.py:167-170 | that nearest cell is unique |
| `Targeting.TargetedMoveOnAxis` | battleShip.py:148-184 | horizontal moves lie in the first hit's row and vertical moves in its column; forward moves touch the later hit and backward moves lie beyond the first hit |
| `Targeting.ResolveOrientation` | battleShip.py:148-153 | a known orientation is kept; a new one is horizontal only for two hits in one row and vertical only for two in one column; it stays unknown exactly when neither holds |
| `Targeting.MoveStepDetermined` | battleShip.py:399-409 | the step relation of one turn is a function: the state before and the draws fix the move and the new state |
| `Targeting.AIMind.ChooseMove` | battleShip.py:399-409 | the move and the new player state are the `MoveStep` of the old state: pattern mode takes the first valid side neighbour of the hit, or leaves target mode with the first kept random draw; two-hit mode takes the targeted move; otherwise the first kept random draw; only the last move, target mode, orientation and first hit can change; a random or pattern move has not been fired at before |
| `Targeting.FirstShipWith` | battleShip.py:412-414 | the index of the first listed ship with a section at the move, or nothing exactly when no ship has one |
| `Targeting.RecordShot` | battleShip.py:411-439 | the cell becomes HIT if the first ship with a section there exists, and MISS otherwise; no other cell changes; only that ship is damaged; it leaves the list if it sank; the hunting state follows `AfterHit` on a hit and is unchanged on a miss |
| `Targeting.ApplyHit` | battleShip.py:414-434 | damage, removal of a sunk ship, the HIT mark and the hunting-state update for one ship |
| `Targeting.AfterHit` | battleShip.py:414-432 | a hit keeps the last move, makes the move the latest hit, and leaves the player in target mode exactly when the ship did not sink |
| `Targeting.AfterHitModes` | battleShip.py:424-432 | sinking a ship ends target mode, clears the second-hit flag and the orientation; otherwise the player is in target mode around the hit |
| `Targeting.AfterHitRemembers` | battleShip.py:415-419 | a first hit becomes the origin hit; a hit in target mode becomes the subsequent hit |
| `Targeting.AfterHitConsistent` | battleShip.py:414-432 | a hit keeps the hunting state consistent: target mode knows its hits, and the two-hit mode also knows the later hit |
| `Targeting.AiMakeAMove` | battleShip.py:394-439 | one turn: the move and the intermediate player state are the `MoveStep` of the old state; on a miss the cell becomes MISS, no ship changes and the player keeps that state; on a hit the first ship with a section there takes `Damage`, leaves the list if it sank, the cell becomes HIT and the player's state is `AfterHit` of it; every other ship is unchanged |

## Left out

- `main()` and the console loop are not modelled. They only print boards and loop while ships remain.
- Every `print` is left out. Firing at a dead ship, or at a cell that is not one of its sections, only prints in the source, and the model does exactly the rest.
- Randomness is not modelled as a sequence. The placement draws are the oracle `draws(k, t)`: the `Attempt` of try t for the k-th ship placed. The random-move draws are the oracle `draws(t)`. The source draws the direction only after a valid anchor; here it is bundled into every try, which is unobservable.
- Draws for placement are not constrained to `[0, size)`. Out-of-range anchors are rejected by `is_valid_placement` anyway.
- `Targeting.AIMind.ProvideRandomMove` requires that some draw is kept. The source's rejection loop does not terminate otherwise.
- `Targeting.AIMind.ProvideTargetedMove` requires that, when it cannot go forward, some cell behind the first hit is still a valid move. The source's backward walk never stops otherwise: once the index leaves the board it keeps decreasing.
- `Targeting.AiMakeAMove` requires that the move its mode asks for exists, for the two reasons above. It also requires that the player fires at the grid it watches, which is the only way `main()` sets things up.
- `Targeting.AIMind.ProvideTargetedMove` requires that the last move is on the board. The source reads that cell, and every move it makes is on the board. It also does not take the source's unused argument.
- The random moves use `GRID_SIZE` (6) as the source does, not `grid.size`. The two agree for the grid `main()` builds.
- The hard-coded fleet dictionary is a parameter: a sequence of `ShipType(name, size, number)` read in order.
- Ship lengths are natural numbers. Negative lengths are not modelled.
- `Grids.Grid.AddShip` and `Grids.Grid.PopulateGrid` keep the source's behaviour when placement fails: they append a ship with no sections.
- `Grids.Grid.AddShips` states the kinds, the stamping and the apartness of the ships it appends, but not that the i-th of them has the sections placement returns for `draws(first + i, ·)` on the board at that moment; `Grids.Grid.AddShip` states that for one ship.
- `Grids.Grid.PopulateGrid` returns the appended ships as a ghost result. Its contract covers those ships and their kinds, and does not pin down which `draws` row each ship used.
- A failed placement, or damage to a dead ship or at a cell that is not a section, only prints in the source and carries on; the model keeps the rest of the behaviour.

## Findings

| source | as written | input that shows it | evidently intended | confidence | as-written member | corrected member |
|---|---|---|---|---|---|---|
| battleShip.py:49-56 | `list(self.gridState)` copies only the outer list, so hiding ships writes EMPTY into the grid's own rows | a grid whose only cell holds a ship section: after `get_hidden_grid` that cell accepts a new ship section | return a hidden copy and leave the grid's SHIP cells in place | high (not executed) | `Grids.HidingInPlaceFreesShipCells` | `Grids.Grid.GetHiddenGridCopy` |
