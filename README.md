# Map, movement and level-structure core of a roguelike, in Dafny

This project models the grid core of a Rust roguelike and proves properties of that model:

- `roguelike_core/src/map.rs`: tiles, walls and the `Map`.
- `roguelike_core/src/movement.rs`: move modes, directions, reaches, momentum, collision and the move decision.
- `roguelike_core/src/utils.rs`: position helpers.
- Four routines of the level generator `roguelike_engine/src/procgen.rs`: `adjacent_blocks`, `process_block`, `find_structures` and `handle_diagonal_full_tile_walls`.

**The grid.** It is a column-major `seq<seq<Tile>>` (`MapTiles.Tiles`). A tile may carry a wall on its left edge and on its bottom edge. A move between neighbouring cells is blocked by:

- a blocked target tile;
- a wall on the edge it crosses;
- for diagonal moves, the corner checks of `move_blocked_by_wall`.

**Layered checks.** The same decision is built up in layers:

- `Blocking.MoveBlocked`: one step.
- `Blocking.PathBlocked`: a chain of steps.
- `Blocking.IsBlockedByWall`: the digital line from a cell to a target.

**The line.** `Lines.Line` steps like libtcod's Bresenham iterator. It leaves out its start, ends at its target, and its length is the Chebyshev distance (`Utils.Distance`).

**Built on the line checks:**

- Field of view (`Fov`): the walk `fov_line`, `is_in_fov_lines` with its culling step, and the facing filter `is_in_fov_direction`. `FovExamples` builds the grids of the four `test_fov_blocked_by_wall_*` tests and traces the walk on them.
- The flood fill and the area of effect (`Flood`, `Areas`).
- The move decision (`MoveCalc`).

**The `Map` object** (`Maps.Map`) owns the grid. Its methods are proved against the functions above. The operations that write tiles (`place_block`, `place_line`, `handle_diagonal_full_tile_walls`) update its grid in place.

**The level generator's structure finder** (`Procgen`) groups blocked cells into structures. It is proved to produce disjoint, well-shaped structures of blocked cells.

Integers are unbounded, and nothing here models 32-bit overflow. Where the source has a stray or broken line, the model follows the evident meaning:

- `path_blocked_by_wall` iterates `positions` but takes `path`, so the model uses the path.
- `move_blocked_by_wall` names `dx, dy` for `dxy` and calls `.expect` on a non-`Option`. The model uses the step's offset, and a unit step never has the empty direction.
- `fov_line` uses an undeclared `effective_distance` and returns `false` where a position is expected. It is modelled after its own doc comment, as "the last position within FOV": a budget of `max_dist` is spent on the distances walked, a clear line reaches its end if the budget covers it, a short wall is looked over at the cost of its distance plus one, and any other block stops the walk at the start of the blocked step.
- `visible_back` ends in `:` rather than `;`.

The function `line` that `is_blocked_by_wall`, `needs_culling` and `place_line` call is not part of this model. It is taken to be the libtcod line that `distance` uses, without its start point, as `is_blocked_by_wall` prepends the start itself.

## Model

| member | source | states |
|---|---|---|
| Lines.Line | roguelike_core/src/utils.rs:14-18 | the line from a to b has exactly as many cells as the Chebyshev distance between them |
| Lines.ErrInvariant | roguelike_core/src/utils.rs:14-18 | the Bresenham error term stays in [0, 2a) and equals a - 2bk + 2a·(minor steps so far) |
| Lines.MinorAtEnd | roguelike_core/src/utils.rs:14-18 | after a major steps the minor axis has advanced exactly b times, so the line ends on its target |
| Lines.MinorBound | roguelike_core/src/utils.rs:14-18 | the minor axis never overshoots and never falls behind by more than the remaining major steps |
| Lines.LinePointDistances | roguelike_core/src/utils.rs:14-18 | the k-th point of a line is k away from the start and the rest of the distance away from the target |
| Lines.LinePointStep | roguelike_core/src/utils.rs:14-18 | consecutive points of a line are king-move neighbours |
| Lines.LineDistances | roguelike_core/src/utils.rs:14-18 | the i-th cell of a line is i+1 from its start and the line's length minus i+1 from its target |
| Lines.LineEndsAtTarget | roguelike_core/src/map.rs:333-345 | a line between distinct cells is non-empty and its last cell is the target |
| Lines.LineIsChain | roguelike_core/src/map.rs:340-344 | the start followed by the line is a chain of unit steps, as path_blocked_by_wall needs |
| Lines.LineStraight | roguelike_core/src/utils.rs:14-18 | an axis-aligned or exactly diagonal line is the straight run of cells towards the target |
| Lines.LineUnit | roguelike_core/src/map.rs:333-345 | the line to a neighbouring cell is that cell alone |
| Lines.LineApproaches | roguelike_core/src/utils.rs:14-18 | every cell of a line is strictly closer to the target than the start is |
| Utils.Distance | roguelike_core/src/utils.rs:14-18 | the count of the line's cells is the larger of the coordinate differences |
| Utils.SignCharacterised | roguelike_core/src/utils.rs:24-30 | signedness is -1, 0 or 1, zero exactly at zero, with the sign of its argument, and the sign times the value is its absolute value |
| Utils.Clamp | roguelike_core/src/utils.rs:261-269 | a value in range is unchanged, the result lies in range, and it is the value or one of the bounds |
| Utils.NextPos | roguelike_core/src/utils.rs:293-305 | next_pos is one step past pos + delta in delta's direction on each axis |
| Utils.NextPosExtendsRay | roguelike_core/src/utils.rs:293-305 | that step lengthens the ray by exactly one and keeps its direction on both axes |
| Utils.MoveNextTo | roguelike_core/src/utils.rs:321-337 | the loop over the line stops at the cell before the target |
| Utils.NextToAdjacent | roguelike_core/src/utils.rs:321-337 | for a target further than one step, that cell neighbours the target and is one step short of the full distance |
| Utils.NextToStraight | roguelike_core/src/utils.rs:321-337 | on straight or diagonal lines it is the target moved back one step towards the start |
| Utils.NextToExamples | roguelike_core/src/utils.rs:339-346 | the outcomes test_move_next_to expects, including (0,0) for a target at distance one |
| Utils.AddSubInverse | roguelike_core/src/utils.rs:203-209 | sub_pos undoes add_pos and back, and move_by is add_pos |
| Utils.MoveAxes | roguelike_core/src/utils.rs:281-291 | move_x and move_y shift one coordinate and keep the other |
| Utils.InDirectionOfApproaches | roguelike_core/src/utils.rs:32-38 | in_direction_of takes one king step towards the end, or stays when already there |
| Utils.InDirectionOfDiagonalExamples | roguelike_core/src/utils.rs:348-359 | the diagonal cases of test_in_direction_of |
| Utils.InDirectionOfAxisExamples | roguelike_core/src/utils.rs:348-359 | the axis cases of test_in_direction_of |
| Utils.IsOrdinalExactlyOneAxis | roguelike_core/src/utils.rs:40-43 | is_ordinal holds exactly when one coordinate is non-zero |
| Utils.DxyInverse | roguelike_core/src/utils.rs:317-319 | adding dxy(start, end) to start gives end |
| Movement.Increase | roguelike_core/src/movement.rs:42-48 | increase moves one rank up, saturating at Run |
| Movement.Decrease | roguelike_core/src/movement.rs:50-56 | decrease moves one rank down, saturating at Sneak |
| Movement.ModeSaturation | roguelike_core/src/movement.rs:42-56 | increase and decrease are inverse away from the ends and fixed at the ends |
| Movement.RankInjective | roguelike_core/src/movement.rs:35-40 | the three modes have distinct ranks |
| Movement.CardinalFromDxyCases | roguelike_core/src/movement.rs:101-129 | None exactly for no move or a diagonal without a last direction; axis moves give their direction; diagonals keep the horizontal one |
| Movement.IntoMove | roguelike_core/src/movement.rs:171-183 | each direction is a unit offset, and only Center is (0,0) |
| Movement.MoveActionsComplete | roguelike_core/src/movement.rs:185-196 | move_actions lists all nine directions, each once |
| Movement.DirectionFromDxySigns | roguelike_core/src/movement.rs:147-169 | from_dxy depends only on the signs, and gives Center only for (0,0) |
| Movement.DirectionRoundTrip | roguelike_core/src/movement.rs:147-183 | from_dxy inverts into_move except that Left and Right come back swapped |
| Movement.MoveWithReachSpec | roguelike_core/src/movement.rs:206-256 | Single allows every direction, Diag only diagonals, Horiz only axis moves; the offset is dist times the unit move |
| Movement.MoveWithReachDistance | roguelike_core/src/movement.rs:206-256 | an allowed move goes exactly dist cells, or nowhere for Center |
| Movement.ReachByMode | roguelike_core/src/utils.rs:245-259 | every mode has a Single reach, of 2 exactly when running and 1 otherwise |
| Movement.Quads | roguelike_core/src/movement.rs:274-295 | the Horiz and Diag loops produce the four end points for each distance 1 .. dist-1 |
| Movement.LinesFromOrigin | roguelike_core/src/movement.rs:298-303 | the closing loop concatenates the lines from the origin to each end point |
| Movement.Offsets | roguelike_core/src/movement.rs:258-306 | offsets is the lines from the origin to the reach's end points |
| Movement.QuadsBelowWithin | roguelike_core/src/movement.rs:274-295 | every end point for distances below n lies within n-1 of the origin |
| Movement.OffsetsWithinReach | roguelike_core/src/movement.rs:258-306 | every offset is at least 1 and at most dist (Single) or dist-1 (Horiz, Diag) from the origin |
| Movement.MomentumStepBounded | roguelike_core/src/movement.rs:347-362 | a step keeps a momentum component within [-max, max] |
| Movement.MomentumStepCases | roguelike_core/src/movement.rs:347-362 | reversing or stopping resets the component to 0; keeping the direction adds one within bounds |
| Movement.Momentum.constructor | roguelike_core/src/movement.rs:316-324 | default momentum is zero on both axes |
| Movement.Momentum.Magnitude | roguelike_core/src/movement.rs:335-341 | the magnitude is the larger absolute component |
| Movement.Momentum.Running | roguelike_core/src/movement.rs:327-329 | running exactly when some component is non-zero |
| Movement.Momentum.AtMaximum | roguelike_core/src/movement.rs:331-333 | at maximum exactly when the magnitude equals the maximum |
| Movement.Momentum.Moved | roguelike_core/src/movement.rs:347-362 | from any momentum, each component takes the momentum step on its axis and is clamped to the maximum, so the bound holds afterwards |
| Movement.Momentum.SetMomentum | roguelike_core/src/movement.rs:364-367 | both components are overwritten |
| Movement.Momentum.Clear | roguelike_core/src/movement.rs:373-376 | both components become zero, so the momentum is no longer running |
| Movement.AlongOpposite | roguelike_core/src/movement.rs:343-345 | momentum along a direction is never along its opposite; diagonal exactly when both components are non-zero |
| MapTiles.NoWall | roguelike_core/src/map.rs:227-233 | no_wall holds exactly for Empty, the least wall in the derived order |
| MapTiles.WallOrder | roguelike_core/src/map.rs:219-225 | the derived order is Empty < ShortWall < TallWall and is asymmetric |
| MapTiles.CharByte | roguelike_core/src/map.rs:150-176 | the `as u8` cast of a tile character keeps it when below 256 and always yields a byte |
| MapTiles.TileConstructors | roguelike_core/src/map.rs:121-190 | every constructor leaves the edges empty, is unexplored floor, blocks exactly for water and walls, and blocks sight only for full walls |
| MapTiles.SetTile | roguelike_core/src/map.rs:906-911 | writing a tile changes that cell alone and keeps the grid's shape |
| MapTiles.FromDims | roguelike_core/src/map.rs:261-274 | a width by height grid of empty tiles |
| MapTiles.InBoundsSpec | roguelike_core/src/map.rs:539-556 | a cell is within bounds exactly when it indexes the grid |
| MapTiles.BlockedLeft | roguelike_core/src/map.rs:288-297 | the left edge is blocked whenever either cell is off the grid, so the grid's left border always blocks, and whenever the cell to the left is blocked; the wall it reads is stated by EdgeOwnership |
| MapTiles.BlockedRight | roguelike_core/src/map.rs:299-308 | the right edge is blocked whenever `pos` is off the grid or the cell to the right is blocked; the wall it reads is stated by EdgeOwnership |
| MapTiles.BlockedDown | roguelike_core/src/map.rs:310-319 | the lower edge is blocked whenever `pos` is off the grid or the cell below is blocked; the wall it reads is stated by EdgeOwnership |
| MapTiles.BlockedUp | roguelike_core/src/map.rs:321-330 | the upper edge is blocked whenever `pos` is off the grid or the cell above is blocked; the wall it reads is stated by EdgeOwnership |
| MapTiles.EdgeOwnership | roguelike_core/src/map.rs:288-330 | the edge between two cells is blocked from either side exactly when the owning tile's wall is set or the cell being entered is blocked; the left edge of the grid is always blocked |
| Blocking.MoveBlocked | roguelike_core/src/map.rs:361-533 | blocked leaving the grid; otherwise blocked exactly when the target is blocked or some check fires; the result records the step, its direction and the last reported wall |
| Blocking.RunChecksSpec | roguelike_core/src/map.rs:386-532 | running the checks in order finds a blocker exactly when one fires and keeps the last reported wall |
| Blocking.AxisMoveBlocked | roguelike_core/src/map.rs:397-421 | an axis step is blocked exactly when the target is blocked or the crossed edge carries a wall, which is reported |
| Blocking.DiagonalCornerBlocked | roguelike_core/src/map.rs:423-526 | a diagonal step is blocked when both edges of the corner it cuts are blocked |
| Blocking.PathBlocked | roguelike_core/src/map.rs:348-358 | no result means every cell after the first is on the grid and open; a result is a step of the path before which every cell is on the grid and open; its start is the path's start or on the grid, and a reported wall ends on the grid |
| Blocking.PathBlockedFirstStep | roguelike_core/src/map.rs:348-358 | no result means every step of the path is a unit step that the single-step check lets through, walls on edges included; a result is that check's report on the first step it stops, every earlier step passing |
| Blocking.PathBlockedStep | roguelike_core/src/map.rs:348-358 | a two-cell path is blocked exactly as its one move is |
| Blocking.IsBlockedByWall | roguelike_core/src/map.rs:333-345 | no move is never blocked; no result means every cell of the line is on the grid and open; a result is a step that ends on the line, starts at the start or on the line, never starts at the target, and reports a wall only on the grid |
| Blocking.IsBlockedByWallFirstStep | roguelike_core/src/map.rs:333-358 | along the start followed by the line to the target, no result means every step passes the single-step check, walls on edges included; a result is that check's report on the first step it stops, every earlier step passing |
| Blocking.IsBlockedByWallStep | roguelike_core/src/map.rs:333-345 | for a unit move the line check is the single move check |
| Blocking.FirstStepBeforeEnd | roguelike_core/src/map.rs:348-358 | the step at which a line check stops lies on the line and never starts at its target |
| Blocking.SelectSpec | roguelike_core/src/map.rs:777-791 | the filter keeps exactly the offsets whose flag is set |
| Blocking.ReachableViaSpec | roguelike_core/src/map.rs:777-791 | a cell is reachable exactly when some offset lands on it along a clear line |
| Blocking.ReachableNeighbors | roguelike_core/src/map.rs:777-791 | at most one cell per neighbour offset, so at most eight; which cells, by ReachableNeighborsSpec |
| Blocking.ReachableNeighborsSpec | roguelike_core/src/map.rs:777-791 | at most eight neighbours, exactly those with a clear unit line, each open, on the grid and one step away |
| Blocking.AstarNeighbors | roguelike_core/src/map.rs:1065-1076 | at most eight neighbours, each at cost 1; which ones, by AstarNeighborsSpec |
| Blocking.AstarNeighborsSpec | roguelike_core/src/map.rs:1065-1076 | the unfolding onto reachable_neighbors: nothing beyond max_dist from the start, otherwise the reachable neighbours in order, each at cost 1; which cells these are, by AstarNeighborsMember |
| Blocking.AstarNeighborsMember | roguelike_core/src/map.rs:1065-1076 | a pair comes back exactly when the start is within max_dist, its cost is 1 and its cell is one unblocked step from pos, on the grid and not blocked |
| Blocking.ReachableNeighborsFarOff | roguelike_core/src/map.rs:376-382 | from an origin two or more cells off the grid every line check can start and no neighbour comes back |
| Blocking.IsBlockedByWallAtStep | roguelike_core/src/map.rs:333-357 | when every earlier step of the line is clear and step i is blocked, the line check answers with step i's blocked move |
| Blocking.IsBlockedByWallClear | roguelike_core/src/map.rs:333-357 | when every step of the line is clear, the line check finds nothing |
| Blocking.InBoundsOffsetsOk | roguelike_core/src/map.rs:777-791 | from a cell on the grid every neighbour line check can be made |
| Blocking.NeighborOffsetsUnit | roguelike_core/src/map.rs:777-791 | the eight neighbour offsets are all one step away |
| Blocking.ClearUnitOffset | roguelike_core/src/map.rs:777-791 | a clear unit offset lands on an open cell of the grid one step away |
| MoveCalc.Xy | roguelike_core/src/movement.rs:80-89 | every movement carries the cell it is about |
| MoveCalc.WithPos | roguelike_core/src/movement.rs:388-394 | with_pos has no entity, no block, and moves to the given cell |
| MoveCalc.CheckCollision | roguelike_core/src/movement.rs:457-494 | the blocked field is the line check; a found entity sends the mover back to pos; otherwise it goes to the target, or to the start of the blocked step |
| MoveCalc.FirstOccupantSpec | roguelike_core/src/movement.rs:471-491 | the entity scan finds an entity exactly when some cell is occupied with every earlier cell free and not the wall's stop cell, and then it finds the first such cell's entity |
| MoveCalc.ScanLine | roguelike_core/src/movement.rs:471-491 | the loop over the move's line computes that scan |
| MoveCalc.CheckCollisionScan | roguelike_core/src/movement.rs:457-494 | check_collision is the line check followed by the scan, which stops at the start of the blocked step |
| MoveCalc.ScanStopsAtWall | roguelike_core/src/movement.rs:482-488 | when the wall stop lies on the line, no entity beyond it is found |
| MoveCalc.Decide | roguelike_core/src/movement.rs:506-551 | no movement exactly when only a dead entity was found |
| MoveCalc.DecideCases | roguelike_core/src/movement.rs:506-551 | each row of the decision table: move, jump, stop short or attack |
| MoveCalc.JumpWallOnlyWhenRunning | roguelike_core/src/movement.rs:531-541 | a jump happens only when running into a short wall with an open cell behind it and no entity, and lands behind the wall |
| MoveCalc.CalculateMove | roguelike_core/src/movement.rs:496-559 | a direction the reach does not allow gives no movement |
| MoveCalc.WallOnlyOutcome | roguelike_core/src/movement.rs:496-559 | with no entity a move always happens, reaches the target on a clear line, and otherwise ends on the line or at the start |
| MoveCalc.CalculateMoveWithoutEntity | roguelike_core/src/movement.rs:496-559 | with no entity, calculate_move decides on check_collision of the reach's offset and ends on that line |
| MoveCalc.RunDiffersOnlyByJump | roguelike_core/src/movement.rs:531-547 | running and walking give the same movement unless running jumps a wall |
| Fov.Sight | roguelike_core/src/map.rs:679-681 | the walk's look from a cell is the line check towards the end, which lands on the line and stops short of the end |
| Fov.LineCheckSightOk | roguelike_core/src/map.rs:679-681 | from a cell on the grid the line check towards any end can be made and answers as the walk needs |
| Fov.FovWalk | roguelike_core/src/map.rs:674-704 | the last position within view stays on the grid and never moves away from the end |
| Fov.FovLine | roguelike_core/src/map.rs:675-704 | the loop of fov_line computes that walk |
| Fov.FovWalkWithinBudget | roguelike_core/src/map.rs:675-704 | the walk reaches the end only if the distance is within the budget |
| Fov.FovWalkCrouching | roguelike_core/src/map.rs:683-695 | crouching, the walk reaches the end only along a clear line |
| Fov.IsInFovLines | roguelike_core/src/map.rs:660-743 | a cell is in its own view; a distinct cell is in view only when both cells are on the grid and closer than the radius; the culling rule is stated by InFovHasVisiblePredecessors |
| Fov.NeedsCulling | roguelike_core/src/map.rs:720-735 | culling is only ever asked for on lines of three or more cells; what it asks then, by CullingAlwaysChecks |
| Fov.IsInFovDirection | roguelike_core/src/map.rs:558-617 | the as-written facing filter: a cell is seen from itself, and a cell seen in a direction is in view; its strict DownLeft/UpRight half-planes are exhibited by FacingDiagonalGap |
| Fov.InFovSelf | roguelike_core/src/map.rs:558-563 | a cell is always in its own view, in every direction |
| Fov.InFovNeedsBoundsAndRadius | roguelike_core/src/map.rs:660-672 | a distinct cell is in view only when both cells are on the grid and the distance is below the radius, and never otherwise |
| Fov.CullingAlwaysChecks | roguelike_core/src/map.rs:720-735 | for lines of three or more cells the culling check always asks whether the cell before the target is in view |
| Fov.FirstPairDiffers | roguelike_core/src/map.rs:726-731 | on a line of three or more cells, the zip in needs_culling always finds a differing pair |
| Fov.InFovHasVisiblePredecessors | roguelike_core/src/map.rs:737-742 | a cell three or more away is in view only if the cell before it is, in both directions |
| Fov.OpenNeighborInFov | roguelike_core/src/map.rs:660-742 | an open neighbour reachable in one step is in view for any radius above one |
| Fov.NeighborWalkArrives | roguelike_core/src/map.rs:675-704 | the walk to such a neighbour arrives |
| Fov.NeighborSightClear | roguelike_core/src/map.rs:679-681 | the line check to an open neighbour reachable in one step finds nothing |
| Fov.InFovDirectionNarrows | roguelike_core/src/map.rs:558-617 | seen in a direction implies seen; Center sees no other cell |
| Fov.FacingPairsCover | roguelike_core/src/map.rs:567-616 | facing up, down, left, right, down-right or up-left, a direction and its opposite together see every offset |
| Fov.FacingDiagonalGap | roguelike_core/src/map.rs:592-616 | facing down-left or up-right, the offsets on the line x = y are seen from neither side |
| Fov.IsInFovDirectionClosed | roguelike_core/src/map.rs:558-617 | the corrected facing filter: it sees everything the as-written one sees, and differs from it only facing DownLeft or UpRight on the diagonal x = y |
| Fov.FacingClosedPairsCover | roguelike_core/src/map.rs:592-616 | with both diagonal half-planes closed, every direction and its opposite cover all offsets, and the filter changes only on x = y |
| Fov.FacingClosedCovers | roguelike_core/src/map.rs:558-617 | with the closed filter every cell in view is seen facing a direction or its opposite |
| Flood.PushUnseen | roguelike_core/src/map.rs:869-877 | the inner loop appends the unseen neighbours in order, and returns exactly the appended ones |
| Flood.FloodNeighborsSpec | roguelike_core/src/map.rs:866-868 | each neighbour offered to the fill is open, on the grid, one step from and reachable from its cell |
| Flood.FloodNeighborsOnGrid | roguelike_core/src/map.rs:866-868 | the fill asks astar_neighbors with the radius as the limit, and every cell it offers is on the grid |
| Flood.AddUnseenSpec | roguelike_core/src/map.rs:869-877 | the seen list only grows at its end, gains every candidate, gains nothing else, and stays free of repeats |
| Flood.FloodRoundSpec | roguelike_core/src/map.rs:864-879 | one round keeps the earlier cells as a prefix, adds only neighbours of the last round, adds every such neighbour not seen before, and keeps the list free of repeats |
| Flood.FloodRoundStep | roguelike_core/src/map.rs:864-879 | a round keeps the fill well formed and pushes its frontier one step further |
| Flood.FloodRoundsOk | roguelike_core/src/map.rs:863-879 | after any number of rounds the fill is well formed |
| Flood.Flood | roguelike_core/src/map.rs:855-881 | the fill is non-empty and starts with the start cell, later rounds only appending; the rest by FloodSpec and FloodComplete |
| Flood.FloodSpec | roguelike_core/src/map.rs:855-881 | the fill starts with the start cell, has no repeats, each later cell is reachable from an earlier one, and every cell is on the grid and within the radius |
| Flood.FloodZero | roguelike_core/src/map.rs:1224-1230 | a fill of radius 0 is the start cell alone, as test_floodfill expects |
| Flood.FloodRoundsClosed | roguelike_core/src/map.rs:863-879 | after each round, every neighbour the fill offers for a cell found up to the round before is in the list |
| Flood.FloodComplete | roguelike_core/src/map.rs:855-881 | every neighbour offered for a cell found in the first radius - 1 rounds is in the fill, so the fill is closed under its neighbour step up to its last round |
| Flood.OpenStep | roguelike_core/src/map.rs:361-421 | on a grid without walls, a unit step between interior cells can be checked and is never blocked |
| Flood.OpenNeighbors | roguelike_core/src/map.rs:777-791 | on a grid without walls, an interior cell's reachable neighbours are all eight neighbours in offset order |
| Flood.FloodOpenOne | roguelike_core/src/map.rs:855-881 | on a grid without walls, a fill of radius 1 from an interior cell is that cell followed by its eight neighbours |
| Flood.FloodOpenGrid | roguelike_core/src/map.rs:1224-1233 | on the empty 10 by 10 map a fill of radius 1 from (5, 5) is (5, 5) and its eight neighbours, nine cells as test_floodfill expects |
| Areas.FlattenSpec | roguelike_core/src/map.rs:45-59 | a cell is among the positions exactly when it is in some ring |
| Areas.Positions | roguelike_core/src/map.rs:45-59 | the loops concatenate the rings in order |
| Areas.KeepsWhen | roguelike_core/src/map.rs:833-845 | a cell is kept unless blocked both ways beyond the blocked radius |
| Areas.KeepFlags | roguelike_core/src/map.rs:831-846 | one keep decision per flooded cell |
| Areas.Rings | roguelike_core/src/map.rs:823-846 | there is one ring for each distance 0 .. radius |
| Areas.RingsSpec | roguelike_core/src/map.rs:831-846 | ring d holds exactly the kept cells at distance d |
| Areas.AoeFill | roguelike_core/src/map.rs:820-853 | the area keeps its effect and has radius+1 rings |
| Areas.FloodWithinRadius | roguelike_core/src/map.rs:841-844 | every flooded cell lies within the radius, so its ring index is always in range |
| Areas.AoeFillSpec | roguelike_core/src/map.rs:820-853 | ring d holds exactly the flooded cells at distance d that are kept |
| Areas.AoeFillHasCentre | roguelike_core/src/map.rs:820-853 | the centre is always in ring 0 |
| Areas.AoeFillKeepsNear | roguelike_core/src/map.rs:826-845 | within the blocked radius every flooded cell is kept, walled off or not |
| Maps.OnGrid | roguelike_core/src/map.rs:962-967 | the cells kept are exactly those of the input on the grid |
| Maps.Map.WithVec | roguelike_core/src/map.rs:245-259 | the map takes over the given grid |
| Maps.Map.FromDims | roguelike_core/src/map.rs:261-274 | the map holds a width by height grid of empty tiles |
| Maps.Map.MoveBlockedByWall | roguelike_core/src/map.rs:361-533 | the method's checks compute the move check |
| Maps.Map.PathBlockedByWall | roguelike_core/src/map.rs:348-358 | the loop over the path's windows computes the path check |
| Maps.Map.IsBlockedByWall | roguelike_core/src/map.rs:333-345 | the method computes the line check |
| Maps.Map.ReachableNeighbors | roguelike_core/src/map.rs:777-791 | the loop keeps exactly the neighbours with a clear line, in order |
| Maps.Map.OffsetIsClear | roguelike_core/src/map.rs:782-786 | one neighbour test of that loop |
| Maps.Map.Floodfill | roguelike_core/src/map.rs:855-881 | the nested loops compute the fill |
| Maps.Map.NextRound | roguelike_core/src/map.rs:863-879 | one pass of the outer loop is one round of the fill |
| Maps.Map.FloodStep | roguelike_core/src/map.rs:864-879 | the loop over the last round computes the next round and its new cells |
| Maps.Map.AoeFill | roguelike_core/src/map.rs:820-853 | the method computes the area of effect |
| Maps.Map.SortIntoRings | roguelike_core/src/map.rs:831-846 | the loop over the fill sorts the kept cells into rings by distance |
| Maps.Map.KeepsCell | roguelike_core/src/map.rs:833-845 | one keep decision of that loop |
| Maps.AddToRing | roguelike_core/src/map.rs:842-845 | pushing a kept cell onto its ring extends the rings by that cell |
| Maps.Map.NearTileType | roguelike_core/src/map.rs:913-931 | true exactly when some neighbour on the grid has the tile type |
| Maps.Map.PlaceBlock | roguelike_core/src/map.rs:944-956 | exactly the cells of the block get the tile, others are unchanged; the block's cells are returned column by column |
| Maps.Map.PlaceColumn | roguelike_core/src/map.rs:948-953 | one column of the block gets the tile |
| Maps.Map.PlaceLine | roguelike_core/src/map.rs:958-970 | exactly the line's cells get the tile, others are unchanged; the cells on the grid are returned in order |
| Maps.Map.PlaceCells | roguelike_core/src/map.rs:962-967 | the loop writes the tile over the listed cells on the grid |
| MapExamples.AxisStepBlocked | roguelike_core/src/map.rs:397-421 | a single axis line check is blocked exactly when the target is blocked or the owning edge has a wall, which it reports |
| MapExamples.BlockedCellOnLine | roguelike_core/src/map.rs:333-358 | a blocked cell anywhere on the line blocks the line check |
| MapExamples.BlockedByWallRight | roguelike_core/src/map.rs:1078-1096 | a short left wall at (5,5) blocks the move from (4,5) to the right, and nothing blocks from (5,5) |
| MapExamples.BlockedByWallLeft | roguelike_core/src/map.rs:1078-1140 | the same wall blocks the move from (5,5) to the left |
| MapExamples.BlockedByWallUp | roguelike_core/src/map.rs:1097-1140 | a short bottom wall at (5,5) blocks the move up from (5,6) |
| MapExamples.BlockedByWallDown | roguelike_core/src/map.rs:1097-1140 | that wall blocks the move down from (5,5) |
| MapExamples.BlockedByWaterNext | roguelike_core/src/map.rs:1206-1222 | water at (5,5) blocks a three-cell line from (4,5) |
| MapExamples.BlockedByWaterSecond | roguelike_core/src/map.rs:1206-1222 | and one from (3,5) |
| MapExamples.BlockedByWaterAdjacent | roguelike_core/src/map.rs:1206-1222 | and every unit step into it |
| Procgen.NewBlocksSpec | roguelike_engine/src/procgen.rs:439-451 | the filter keeps exactly the candidates that are blocked, on the grid and unseen, without repeats |
| Procgen.Adjacent | roguelike_engine/src/procgen.rs:439-451 | at most four cells, each on the grid, blocked and unseen; exactly which, and in what order, by AdjacentSpec and AdjacentBlocks |
| Procgen.AdjacentSpec | roguelike_engine/src/procgen.rs:439-451 | at most four distinct neighbours, exactly the four-neighbours that are blocked, on the grid and unseen |
| Procgen.AdjacentIgnoresSelf | roguelike_engine/src/procgen.rs:439-451 | marking the block itself seen does not change its adjacent blocks |
| Procgen.AdjacentBlocks | roguelike_engine/src/procgen.rs:439-451 | the loop computes the adjacent blocks, right, down, left, up |
| Procgen.AdjacentOfCentre | roguelike_engine/src/procgen.rs:452-470 | the centre of the plus has four adjacent blocks |
| Procgen.AdjacentOfCorner | roguelike_engine/src/procgen.rs:452-470 | the corner (1,1) has two |
| Procgen.AdjacentOfArm | roguelike_engine/src/procgen.rs:452-470 | the arm (2,1) has one |
| Procgen.AdjacentOfCentreSeen | roguelike_engine/src/procgen.rs:452-470 | with (1,2) seen the centre has three |
| Procgen.AddBlocks | roguelike_engine/src/procgen.rs:427-430 | the first loop appends the adjacent blocks to the structure and marks them seen |
| Procgen.ProcessBlock | roguelike_engine/src/procgen.rs:405-437 | the structure grows by exactly the newly seen blocked cells, adjacent ones first; the type only moves forward, becoming Complex on a split and leaving Line on a bend |
| Procgen.ProcessEach | roguelike_engine/src/procgen.rs:432-434 | continuing from each adjacent block keeps those guarantees |
| Procgen.Processed | roguelike_engine/src/procgen.rs:405-437 | the two loops together extend the structure by newly seen blocked cells |
| Procgen.TypeStepTrans | roguelike_engine/src/procgen.rs:405-437 | a type change composes: Complex stays Complex, a Path never returns to Line |
| Procgen.CollectBlocks | roguelike_engine/src/procgen.rs:473-481 | exactly the blocked cells of the grid, in row-major order |
| Procgen.MarkSeen | roguelike_engine/src/procgen.rs:500-502 | the adjacent blocks are added to the seen set |
| Procgen.StartStructure | roguelike_engine/src/procgen.rs:485-514 | a block with two new neighbours starts nothing; with none it is a Single; with one it starts a Line or Path; with more it starts a Complex, its neighbours following it (corrected start, see Findings); every start claims only newly seen blocked cells |
| Procgen.StartLine | roguelike_engine/src/procgen.rs:494-497 | a line start claims the block and then its neighbour first |
| Procgen.StartComplex | roguelike_engine/src/procgen.rs:498-507 | the complex start as written claims its cells, but its adjacent blocks end up seen yet outside the structure |
| Procgen.FindStructures | roguelike_engine/src/procgen.rs:472-519 | every structure is well shaped, lists blocked cells of the grid without repeats, and no cell is in two structures; every blocked cell with fewer than two blocked 4-neighbours is in some structure, and one with none is a Single of its own (with the corrected complex start) |
| Procgen.ReadBlock | roguelike_engine/src/procgen.rs:483-516 | reading one block keeps the structures disjoint and well shaped and covers that block when it has fewer than two blocked neighbours |
| Procgen.CoveredEnd | roguelike_engine/src/procgen.rs:472-519 | once every block has been read, each blocked cell with fewer than two blocked neighbours is in a structure, and each with none is a Single |
| Procgen.OwnedMember | roguelike_engine/src/procgen.rs:472-519 | a cell is among the cells of the structures exactly when some structure lists it |
| Procgen.AppendDisjoint | roguelike_engine/src/procgen.rs:484-514 | a structure of newly seen cells is disjoint from the earlier ones |
| Procgen.StartComplexFixed | roguelike_engine/src/procgen.rs:498-507 | the corrected complex start adds its adjacent blocks first, so it holds exactly the cells it sees |
| Procgen.FixedClaims | roguelike_engine/src/procgen.rs:498-507 | a start that extends from its newly seen block holds exactly the newly seen cells |
| Procgen.HookOrder | roguelike_engine/src/procgen.rs:473-481 | on the hook grid, (0,1) is read first and (1,1) next |
| Procgen.HookFirstSkipped | roguelike_engine/src/procgen.rs:485-488 | (0,1) has two adjacent blocks and starts nothing |
| Procgen.HookSecondComplex | roguelike_engine/src/procgen.rs:498-507 | (1,1) then has three adjacent blocks and takes the complex start |
| DiagonalWalls.WindowBlocked | roguelike_engine/src/procgen.rs:187-199 | a 2 by 2 window has at most four blocked cells |
| DiagonalWalls.FixWindow | roguelike_engine/src/procgen.rs:188-198 | one window of the pass keeps the grid's shape; what it writes is stated by FixWindowSpec |
| DiagonalWalls.FixAll | roguelike_engine/src/procgen.rs:182-201 | the whole pass keeps the grid's shape, and a grid of height 0 (an empty `0..(height - 1)` range) is left as it is; what it writes is stated by FixAllGrows and FixAllClean |
| DiagonalWalls.FixWindowSpec | roguelike_engine/src/procgen.rs:187-199 | one window writes only a wall, only inside the window, only for a diagonal pair, which leaves three blocked cells and no pair |
| DiagonalWalls.FixRowGrows | roguelike_engine/src/procgen.rs:187-199 | a row of windows only turns cells into walls |
| DiagonalWalls.FixRowsGrows | roguelike_engine/src/procgen.rs:186-200 | so do the rows before it |
| DiagonalWalls.FixAllGrows | roguelike_engine/src/procgen.rs:182-201 | the pass only writes full walls and never unblocks a cell |
| Fov.InFovFromWalkAndPredecessors | roguelike_core/src/map.rs:706-742 | a cell within the radius is in view when the walk there reaches it and the cells before it on both lines are in view |
| FovExamples.WithShortWalls | roguelike_core/src/map.rs:1146-1150 | the grid keeps its shape, each listed cell becomes an empty tile with a short wall on one edge, and every other cell is unchanged |
| FovExamples.FovWallGrid | roguelike_core/src/map.rs:1144-1150 | the tests' 10 by 10 grid with a row of six short walls: valid, no blocked cell, and each cell's tile |
| FovExamples.AxisLineStops | roguelike_core/src/map.rs:333-357 | on a wall-row test grid, along a horizontal or vertical line whose earlier steps cross no wall and whose step i crosses a short wall, the line check stops on step i with that short wall and the step's direction |
| FovExamples.AxisLineClear | roguelike_core/src/map.rs:333-357 | on a wall-row test grid, a horizontal or vertical line crossing no wall is clear |
| FovExamples.LookUp | roguelike_core/src/map.rs:1178-1188 | on the bottom-wall grid the line check from (5, 9) up to (5, 5) stops at the short wall under (5, 5) |
| FovExamples.LookDown | roguelike_core/src/map.rs:1194-1204 | on the bottom-wall grid the line check from (5, 1) down to (5, 6) stops at the short wall under (5, 5) |
| FovExamples.LookLeft | roguelike_core/src/map.rs:1162-1172 | on the left-wall grid the line check from (9, 5) left to (4, 5) stops at the short wall on the left of (5, 5) |
| FovExamples.LookRight | roguelike_core/src/map.rs:1146-1156 | on the left-wall grid the line check from (4, 5) to (9, 5) stops on its first step, into (5, 5) |
| FovExamples.LookPastWallRight | roguelike_core/src/map.rs:1146-1156 | on the left-wall grid the line from (5, 5) on to (9, 5) is clear |
| FovExamples.WalkOverWallUp | roguelike_core/src/map.rs:1176-1188 | the walk of `is_in_fov_lines` from (5, 9) reaches (5, 5) at radius 10, which the test asserts is not in view |
| FovExamples.WalkOverWallDown | roguelike_core/src/map.rs:1192-1204 | the walk from (5, 1) reaches (5, 6) at radius 10, which the test asserts is not in view |
| FovExamples.WalkOverWallLeft | roguelike_core/src/map.rs:1160-1172 | the walk from (9, 5) reaches (4, 5) at radius 10, which the test asserts is not in view |
| FovExamples.WalkOverWallRight | roguelike_core/src/map.rs:1144-1156 | the walk from (4, 5) reaches (9, 5) at radius 10, which the test asserts is not in view |
| DiagonalWalls.FixRowClean | roguelike_engine/src/procgen.rs:187-199 | a row without diagonal pairs is left alone |
| DiagonalWalls.FixAllClean | roguelike_engine/src/procgen.rs:182-201 | a grid without diagonal pairs passes through unchanged |
| DiagonalWalls.GrowsKeepsBlocked | roguelike_engine/src/procgen.rs:182-201 | writing walls never unblocks a cell |
| DiagonalWalls.HandleDiagonalFullTileWalls | roguelike_engine/src/procgen.rs:182-201 | the map's grid becomes the pass applied to the old grid, and nothing else of the map changes |
| DiagonalWalls.FixRowInPlace | roguelike_engine/src/procgen.rs:187-199 | the inner loop applies the row's windows in place from left to right |

## Left out

- I/O, rendering, logging, the doryen FOV algorithm (`is_in_fov_alg`, `compute_fov`, `set_cell`, `update_map`), A* search, randomness (`random_offset`, `pos_in_radius`, `add_obstacle`), floating point helpers and hashing are not modelled. They are outside the core.
- `move_towards`, `pos_mag`, `path_clear_of_obstacles`, `pos_in_radius`, `is_empty`, `direction` (a copy of `signedness`) and the combat helpers of utils.rs are not modelled. They are outside the core.
- The entity lookup `is_blocked_tile` of the game data is not modelled. The entity scan takes a map from cells to entities in its place. The decision functions take the scan's outcome as a parameter.
- `MAX_MOMENTUM` lives in a constants file that is not part of this model. Momentum takes its ceiling as a parameter.
- 32-bit integer overflow is not modelled. Positions and counts are unbounded.
- MapTiles.Valid requires at least one column and equal column lengths. `Map::empty` has no column, so `height` would index out of range.
- Blocking.MoveBlocked: requires a unit step that passes `StepOk`: the step starts on the grid, or ends off it, or is horizontal or vertical. So it leaves out every diagonal step from a cell off the grid into the grid. For most of these the source's corner checks index a cell off the grid and panic. Not for all: an up-right step from (x, H), just below the grid, into (x + 1, H - 1) does not panic when `blocked_right((x, H - 1))` is false (map.rs:449-471). The model leaves these steps out as well. `blocked_right`, `blocked_down` and `blocked_up` check `pos` twice instead of the neighbour, so the model also requires the neighbour on the grid whenever `pos` is.
- Maps.Map.PlaceBlock: requires all four corners of the block on the grid. The source indexes the map at each cell of the block without a bounds check (map.rs:944-956) and panics otherwise.
- Maps.Map.ReachableNeighbors and Maps.Map.Floodfill require `OffsetsOk`: the first step of each of the eight neighbour lines passes `StepOk`. This admits every origin on the grid and every origin two or more cells off it. From such a far origin no neighbour comes back (Blocking.ReachableNeighborsFarOff), as in the source, where each line check stops at map.rs:376-382 without reading a tile. Only origins one cell off the grid with a diagonal neighbour on it are left out.
- Maps.Map.AoeFill: requires the origin on the grid. The dampening test reads lines from the origin to each flooded cell, which the model states for origins on the grid only. From an origin far off the grid the source returns the origin alone at distance 0; the model leaves that case out.
- Fov.FovWalk: the walk is reconstructed from the doc comment of `fov_line`, whose body uses an undeclared variable and returns a boolean where a position is expected. Like the body, the walk looks over a short wall at a cost of the distance to the wall plus one. This contradicts the four tests `test_fov_blocked_by_wall_right`, `_left`, `_up` and `_down` (map.rs:1142-1204). Each builds a 10 by 10 grid with a row of six short walls and asserts that the target is not in view at radius 10. In the model the walk looks over the wall and reaches each test's target well within the radius (FovExamples.WalkOverWallUp, FovExamples.WalkOverWallDown, FovExamples.WalkOverWallLeft, FovExamples.WalkOverWallRight). The model follows the code, not the tests.
- Fov.IsInFovLines: on the four test grids, the walk reaching the target is the first condition of `is_in_fov_lines`. Proving the whole function true there also needs every culling predecessor traced along the line, which is not done. So the tests' `false` is contradicted at the level of the walk only (see the previous line).
- `needs_culling` zips the line to the next-to-last cell with only the last cell of the full line. So for lines of three or more cells it always asks about the next-to-last cell (Fov.CullingAlwaysChecks). The model keeps this as written.
- `is_in_fov_direction` has no `Center` arm, so it does not compile as shown. The model answers `false` for `Center` whenever the two cells differ.
- `Direction::from_dxy` maps a positive x offset to `Left` and a negative one to `Right`. The model keeps this (Movement.DirectionRoundTrip).
- `check_collision` resets `last_pos` to `pos` on every iteration. An entity therefore always puts the mover back at its start (MoveCalc.CheckCollision).
- Flood.FloodOpenGrid: of `test_floodfill` (map.rs:1224-1258), only the fills of radius 0 and 1 on the open map are proved. The walled cases (six cells at radius 1, the radius 2 and 3 fills) are not, because the short walls would have to be traced through every corner check of each step.
- Procgen.FindStructures: the examples of `test_find_simple_structures` and `test_find_complex_structures` (procgen.rs:521-572) are not evaluated. The finder is a method over a whole grid, so its result on a concrete grid is not a value a lemma can compute. Its contract states coverage only for cells with fewer than two blocked 4-neighbours, since a cell read between two new neighbours starts nothing and may stay uncovered (next line).
- A 2 by 2 square of blocked cells is a case where every block has exactly two new neighbours when first read. `find_structures` then assigns it to no structure. The model reproduces this: Procgen.FindStructures promises coverage only of cells with fewer than two blocked neighbours, and every cell of the square has two.
- DiagonalWalls.FixAllGrows: the pass is proved to write only walls and to leave a grid without diagonal pairs unchanged. That no diagonal pair survives the whole pass is not proved: a wall written in one window can create a pair in a window already visited.

## Findings

| source | as written | input that shows it | evidently intended | confidence | as-written member | corrected member |
|---|---|---|---|---|---|---|
| roguelike_core/src/map.rs:592-610 | facing `DownLeft` sees `x - y < 0` and facing `UpRight` sees `x - y > 0`, both strict, while `DownRight` and `UpLeft` use `>= 0` and `<= 0` | a target at offset (1, 1) or (-1, -1) from the viewer: in view, but seen neither facing down-left nor facing up-right | the diagonal half-planes closed like the other pair, so that a direction and its opposite together see every cell in view | medium, not executed | Fov.FacingDiagonalGap | Fov.FacingClosedCovers |
| roguelike_engine/src/procgen.rs:498-507 | the complex start marks the adjacent blocks seen but never adds them to the structure, and `process_block` skips seen cells, so they join no structure | the 5 by 5 grid with walls at (0,1), (1,1), (2,1), (1,2), (0,2): (0,1) is skipped with two neighbours, then (1,1) has three and (2,1), (1,2), (0,1) end up in no structure | add each adjacent block to the structure before marking it seen, as `process_block` does | medium, not executed | Procgen.HookSecondComplex | Procgen.StartComplexFixed |

`Procgen.StartComplex` is the complex start as written. `Procgen.StartStructure`, and so `Procgen.FindStructures`, use the corrected `Procgen.StartComplexFixed`. `Fov.IsInFovDirection` is the facing filter as written, and `Fov.IsInFovDirectionClosed` is the corrected one.
