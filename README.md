# MazeWarder in Dafny

A model of the game logic of MazeWarder, an Android maze game written in
Kotlin. The model proves properties of that logic. It covers three groups.

- **The wall-edge duel on a fixed 9×9 board** (`GameRenderer.kt`):
  - `isMoveValid` decides whether a step crosses a wall;
  - `computeShortestPath` is an A* search from a cell to a goal row;
  - the AI turn builds placement and type-mutation candidates, scores them and keeps the first best;
  - the second copy of that logic (`GodWardenAI`, `GameBoard`, `AIHeuristic`) picks the placement with the largest summed distance.
- **The cell-grid mazes:**
  - `MazeGenerator` and `AIWallEngine` work on 0/2 integer grids;
  - `MapGenerator` and `MapManager` work on a `Tile` list, with an A* `findPath`;
  - `MazeState` is the view model's grid;
  - `GameRepository` converts a grid to a wall list and back, and a `WallData` to a legacy `WallState`.
- **The small state machines:**
  - `GameViewModel`'s moves, skills, score and victory check;
  - `MazeRaceEngine`, `TutorialManager`, `CharacterController`;
  - the tap and skill handlers of `MazeView`.

Each source file has its own Dafny module. `GameRenderer.kt` is split into `Walls`, `ShortestPath`, `AITurn` and `GodWarden`. Modules are in the same order as the lists above.

Conventions:
- **Kotlin `Int`** arithmetic is 32-bit and wraps. Module `KotlinInt` models it with an explicit wrap. This matters because the scoring code adds the `Int.MAX_VALUE` "unreachable" distance with plain `+`. `MapManager`'s distance tests, its `+ 1` neighbour steps and its path costs use the same wrap. `Long` appears only in the game score.
- **Randomness** (`random()`, `shuffled()`, `(0..100).random()`) is an arbitrary pick or an order parameter. Every contract holds for all outcomes.
- **A thrown exception** is `None`, or a `thrown` result for a method that changes state (`CharacterController.ActivateSkill`). Reading a `lateinit` field before it is set is excluded by a precondition on a ghost flag (`initialized` in `MapManager`, `started` in `MazeRaceEngine`).
- **Objects the source updates in place** are Dafny classes: `MapManager`, `MapGenerator`, `Tile`, `Character`, `CharacterController`, `MazeRaceEngine`, `TutorialManager`, `MazeView` and the `GameViewModel` state holders. Grids the source writes in place are `array2<int>`. The source's `Array<Array<Int>>` grids are jagged in principle. Every grid it builds is rectangular, so a rectangular `array2` loses nothing. That is also why `placeWall`'s bound check against `maze[0].indices` (`AIWallEngine.kt:12`) is enough.

## Model

| member | source | states |
|---|---|---|
| Walls.IsMoveValid | app/src/main/java/com/tuodominio/mazewarden3d/GameRenderer.kt:39-77 | The step is accepted iff the target is on the 9×9 board and no listed wall blocks it; an accepted target is always on the board |
| Walls.AllWallTypesBlock | app/src/main/java/com/tuodominio/mazewarden3d/GameRenderer.kt:55-60 | A type string blocks iff it is one of the five `WALL_TYPES`, so all five kinds block identically |
| Walls.RowStepRule | app/src/main/java/com/tuodominio/mazewarden3d/GameRenderer.kt:49-63 | A same-row step to an adjacent column is refused iff the list holds an 'h' wall at (r, min(c, nc)) with a listed type |
| Walls.ColumnStepRule | app/src/main/java/com/tuodominio/mazewarden3d/GameRenderer.kt:65-75 | A same-column step to an adjacent row is refused iff the list holds a 'v' wall at (min(r, nr), c) with a listed type |
| Walls.NonAdjacentTargetAllowed | app/src/main/java/com/tuodominio/mazewarden3d/GameRenderer.kt:45-77 | Any on-board target that is not a 4-neighbour is accepted whatever the walls |
| Walls.UnlistedTypeNeverBlocks | app/src/main/java/com/tuodominio/mazewarden3d/GameRenderer.kt:55-60 | Adding a wall whose type is not listed never changes the verdict of any step |
| Walls.MoreWallsAllowLess | app/src/main/java/com/tuodominio/mazewarden3d/GameRenderer.kt:52-75 | A step allowed with a wall list stays allowed with any sub-list of it |
| ShortestPath.ComputeShortestPath | app/src/main/java/com/tuodominio/mazewarden3d/GameRenderer.kt:80-127 | Returns 0 when the start row is in the goal rows; `Int.MAX_VALUE` iff no goal-row cell is reachable by valid moves; otherwise the length of a real wall-respecting walk to a goal row, which is at most 81 |
| ShortestPath.ExpandNeighbours | app/src/main/java/com/tuodominio/mazewarden3d/GameRenderer.kt:109-124 | Relaxing the four neighbours keeps the search invariant (every g-score is the length of a real walk, the queue has no repeats) and does not raise the termination measure |
| ShortestPath.MinFIndex | app/src/main/java/com/tuodominio/mazewarden3d/GameRenderer.kt:102 | `poll` returns a queued node whose f is least |
| ShortestPath.ExhaustedMeansUnreachable | app/src/main/java/com/tuodominio/mazewarden3d/GameRenderer.kt:102-126 | When the queue empties, no goal-row cell is reachable from the start |
| ShortestPath.WalkLengthBound | app/src/main/java/com/tuodominio/mazewarden3d/GameRenderer.kt:80-127 | A repeat-free walk over board cells has at most 82 cells |
| ShortestPath.RelaxKeepsInv | app/src/main/java/com/tuodominio/mazewarden3d/GameRenderer.kt:114-122 | Lowering a neighbour's g-score to tentativeG and queueing it if absent keeps the search invariant |
| AITurn.IndexOf | app/src/main/java/com/tuodominio/mazewarden3d/GameRenderer.kt:497 | `indexOf`: -1 iff absent; otherwise the first position holding the value |
| AITurn.NextTypeFollowsList | app/src/main/java/com/tuodominio/mazewarden3d/GameRenderer.kt:496-498 | The mutation of a listed type is the next entry of `WALL_TYPES` (the list at line 140), cyclically |
| AITurn.UnknownTypeBecomesNormale | app/src/main/java/com/tuodominio/mazewarden3d/GameRenderer.kt:497-498 | An unknown type (index -1) mutates to "normale" |
| AITurn.NextTypeCycle | app/src/main/java/com/tuodominio/mazewarden3d/GameRenderer.kt:496-498 | Five mutations of a listed type give it back |
| AITurn.MutationKeepsBlocking | app/src/main/java/com/tuodominio/mazewarden3d/GameRenderer.kt:496-502 | A type mutation never opens a step, and on a listed type it changes no step at all |
| AITurn.PlacementCandidates | app/src/main/java/com/tuodominio/mazewarden3d/GameRenderer.kt:478-493 | The placement candidates are, in scan order, exactly the free slots, each as the current walls plus that one "normale" wall |
| AITurn.EvolutionCandidates | app/src/main/java/com/tuodominio/mazewarden3d/GameRenderer.kt:496-503 | One candidate per existing wall, which replaces only that wall by its type mutation |
| AITurn.GenerateCandidates | app/src/main/java/com/tuodominio/mazewarden3d/GameRenderer.kt:475-503 | All placement candidates, then all mutation candidates |
| AITurn.CandidatesDescribed | app/src/main/java/com/tuodominio/mazewarden3d/GameRenderer.kt:478-503 | An 'h' slot is offered iff c < 8 and no 'h' wall sits at (r, c); a 'v' slot iff r < 8 and no 'v' wall sits there; each mutation candidate keeps r, c and orientation and changes only the type |
| AITurn.FiniteScoreIsExact | app/src/main/java/com/tuodominio/mazewarden3d/GameRenderer.kt:523 | With all four distances finite, the wrapped score equals the true change in summed distances and lies within ±162 |
| AITurn.SelectBest | app/src/main/java/com/tuodominio/mazewarden3d/GameRenderer.kt:518-528 | Each candidate is scored by the two searches; the result is none iff every score is `Int.MIN_VALUE`, otherwise the first candidate with the largest score |
| AITurn.FallbackAgreesWithMaxBy | app/src/main/java/com/tuodominio/mazewarden3d/GameRenderer.kt:518-528 | The strict `>` selection picks the same index as the first-maximum rule of `maxByOrNull` |
| AITurn.LastColumnGodWallIsInert | app/src/main/java/com/tuodominio/mazewarden3d/GameRenderer.kt:511-515 | The god move is re-read as an 'h' wall, so a chosen 'v' slot in column 8 becomes a wall that blocks no step |
| AITurn.ApplyAIMove | app/src/main/java/com/tuodominio/mazewarden3d/GameRenderer.kt:467-529 | With a free slot, the chosen candidate is the current walls plus the god move's first best-scoring slot (as 'h'); with none, it is no candidate or a mutation candidate |
| GodWarden.AvailableSlotsExact | app/src/main/java/com/tuodominio/mazewarden3d/GameRenderer.kt:1042-1055 | A wall is offered iff it is an unoccupied 'h' slot with c < 8 or 'v' slot with r < 8, typed "normale"; the list is in row, column, 'h'-before-'v' order without repeats |
| GodWarden.AvailableWalls | app/src/main/java/com/tuodominio/mazewarden3d/GameRenderer.kt:1042-1055 | The loop builds exactly that ordered slot list |
| GodWarden.SimulateWithWall | app/src/main/java/com/tuodominio/mazewarden3d/GameRenderer.kt:1057-1059 | The simulated board keeps the players and the walls and appends the one new wall |
| GodWarden.SimulatedWallNeverOpensPath | app/src/main/java/com/tuodominio/mazewarden3d/GameRenderer.kt:1057-1059 | Whatever is reachable with the extra wall was reachable before it |
| GodWarden.EvaluateWallPlacement | app/src/main/java/com/tuodominio/mazewarden3d/GameRenderer.kt:1076-1085 | The score is the wrapped Int sum of each player's search result, player 0 aiming at row 8 and the others at row 0 |
| GodWarden.SealedPlayerScoresLow | app/src/main/java/com/tuodominio/mazewarden3d/GameRenderer.kt:1084 | Sealing one player in (`Int.MAX_VALUE`) while the other is at a positive distance wraps the sum negative, below any finite pair; the sum stays `Int.MAX_VALUE` only when the other player is already on the goal |
| GodWarden.FirstArgMax | app/src/main/java/com/tuodominio/mazewarden3d/GameRenderer.kt:875 | `maxByOrNull` returns the first element with the largest score |
| GodWarden.FirstMaxUnique | app/src/main/java/com/tuodominio/mazewarden3d/GameRenderer.kt:875 | That first maximum is unique |
| GodWarden.EvaluatePlacements | app/src/main/java/com/tuodominio/mazewarden3d/GameRenderer.kt:865-872 | One evaluation per slot, each that of the board with that wall added |
| GodWarden.CalculateStrategicPlacement | app/src/main/java/com/tuodominio/mazewarden3d/GameRenderer.kt:861-881 | `pass()` iff no slot is free; otherwise `AIMove(c, r, true, type)` of the first slot with the largest evaluation |
| AIWallEngine.FirstFreeSpec | app/src/main/java/com/tuodominio/mazewarden3d/AIWallEngine.kt:8-17 | No cell is chosen iff no in-bounds 4-neighbour of the player is 0; otherwise the chosen cell is such a neighbour and is the first of them in the shuffle order |
| AIWallEngine.PlaceWall | app/src/main/java/com/tuodominio/mazewarden3d/AIWallEngine.kt:7-18 | Only the chosen free neighbour changes, from 0 to 2; every other cell keeps its value; `enemyPos` plays no part |
| MazeGenerator.Generate | app/src/main/java/com/tuodominio/mazewarden3d/MazeGenerator.kt:5-21 | A fresh width×height grid whose every cell is the generated pattern |
| MazeGenerator.GeneratedShape | app/src/main/java/com/tuodominio/mazewarden3d/MazeGenerator.kt:8-18 | Every cell is 0 or 2; a cell is 2 iff i or j is even and it is not one of the two overridden corridor ends; (1,1) and (width-2, height-2) are 0 |
| MazeGenerator.OddMazeHasClosedBorder | app/src/main/java/com/tuodominio/mazewarden3d/MazeGenerator.kt:6-14 | For odd sizes every border cell is 2 |
| MapGenerator.FirstAt | app/src/main/java/com/tuodominio/mazewarden3d/MapGenerator.kt:43-44 | `first { … }` on coordinates: -1 iff no tile has them, otherwise the first tile that does |
| MapGenerator.InitialKindCases | app/src/main/java/com/tuodominio/mazewarden3d/MapGenerator.kt:24-36 | Border tiles are WALL; an interior tile is FLOOR, WALL or TRAP; TRAP only where the wall roll left FLOOR |
| MapGenerator.MapGenerator.RollTile | app/src/main/java/com/tuodominio/mazewarden3d/MapGenerator.kt:21-36 | A fresh tile at (x, z) whose kind follows the density rolls |
| MapGenerator.MapGenerator.FillTiles | app/src/main/java/com/tuodominio/mazewarden3d/MapGenerator.kt:17-40 | The cleared map receives size×size fresh tiles in x-major order, each rolled for its coordinates; none when size < 1 |
| MapGenerator.FirstAtOnGrid | app/src/main/java/com/tuodominio/mazewarden3d/MapGenerator.kt:43-44 | On an x-major size×size map, `first` finds (x, z) iff it is a cell of the map, at index x·size + z |
| MapGenerator.MapGenerator.SetFirst | app/src/main/java/com/tuodominio/mazewarden3d/MapGenerator.kt:43-44 | `first` throws (reported as not found) iff (x, z) is not a cell of the map; otherwise only the tile at (x, z) changes kind |
| MapGenerator.MapGenerator.GenerateMap | app/src/main/java/com/tuodominio/mazewarden3d/MapGenerator.kt:16-47 | Throws (None) iff size < 2, leaving the filled tiles in `map`; otherwise exactly size×size distinct tiles, tile i at (i / size, i % size), each of the rolled kind with (1, size/2) START_A and (size-2, size/2) START_B, and the map field holds the result |
| MapGenerator.GeneratedKinds | app/src/main/java/com/tuodominio/mazewarden3d/MapGenerator.kt:24-44 | The final kinds: the START tiles where stated; other border tiles WALL; other interior tiles FLOOR, WALL or TRAP |
| MapManager.MapManager.SetMap | app/src/main/java/com/tuodominio/mazewarden3d/MapManager.kt:8-10 | The current map becomes the given list, and the `lateinit` map counts as set from then on |
| MapManager.MapManager.GetTile | app/src/main/java/com/tuodominio/mazewarden3d/MapManager.kt:12-14 | The first tile with those coordinates; null iff none has them |
| MapManager.MapManager.GetTileInFront | app/src/main/java/com/tuodominio/mazewarden3d/MapManager.kt:16-23 | The first tile at x+2 for MAGA and x+1 for the other classes (Int `+`, so it wraps), same z; null iff none |
| MapManager.MapManager.GetNearbyWall | app/src/main/java/com/tuodominio/mazewarden3d/MapManager.kt:25-31 | The first WALL tile whose Int `abs(dx)` and `abs(dz)` are at most 1; null iff none |
| MapManager.MapManager.GetNearbyEmptyTile | app/src/main/java/com/tuodominio/mazewarden3d/MapManager.kt:33-39 | The first FLOOR tile whose Int `abs(dx)` and `abs(dz)` are at most 2; null iff none |
| MapManager.MapManager.GetSafeTeleport | app/src/main/java/com/tuodominio/mazewarden3d/MapManager.kt:41-45 | A FLOOR tile whose Int `abs(dx)` is 2; none (the throw) iff the map has no such tile |
| MapManager.AxisDistanceIsDistance | app/src/main/java/com/tuodominio/mazewarden3d/MapManager.kt:28-29 | While the difference fits in an Int, the Int `abs(a - b)` test measures the true distance |
| MapManager.HeuristicIsManhattan | app/src/main/java/com/tuodominio/mazewarden3d/MapManager.kt:131-133 | While the distances and their sum fit in an Int, `heuristic` is the Manhattan distance |
| MapManager.DistanceWrapsAtIntMin | app/src/main/java/com/tuodominio/mazewarden3d/MapManager.kt:80-85 | The wrapped distance from a centre at `Int.MIN_VALUE` to column 0 is `Int.MIN_VALUE`, so `getTilesInRadius` keeps that tile for any radius |
| MapManager.TwoColumnsAcrossTheWrap | app/src/main/java/com/tuodominio/mazewarden3d/MapManager.kt:41-45 | Column `Int.MIN_VALUE + 1` counts as two columns from `Int.MAX_VALUE`, so `getSafeTeleport` can land across the wrap |
| MapManager.MapManager.RemoveTile | app/src/main/java/com/tuodominio/mazewarden3d/MapManager.kt:47-49 | That tile becomes FLOOR and no other tile changes |
| MapManager.MapManager.MoveWall | app/src/main/java/com/tuodominio/mazewarden3d/MapManager.kt:51-54 | `to` ends WALL even when it is `from`; otherwise `from` ends FLOOR; nothing else changes |
| MapManager.MapManager.IsWalkable | app/src/main/java/com/tuodominio/mazewarden3d/MapManager.kt:57-60 | True iff the first tile at those coordinates exists and is FLOOR, START_A or START_B |
| MapManager.MapManager.GetWalkableTiles | app/src/main/java/com/tuodominio/mazewarden3d/MapManager.kt:62-66 | Exactly the walkable tiles, in map order |
| MapManager.MapManager.GetTilesInRadius | app/src/main/java/com/tuodominio/mazewarden3d/MapManager.kt:80-85 | Exactly the tiles whose Int Manhattan distance from the centre (wrapped `-`, `abs` and `+`) is at most `radius`, in map order |
| MapManager.MapManager.CountTilesByType | app/src/main/java/com/tuodominio/mazewarden3d/MapManager.kt:158-160 | The number of tiles of that type |
| MapManager.MapManager.ValidPositionsAreDefaultMapCells | app/src/main/java/com/tuodominio/mazewarden3d/MapManager.kt:147-149 | A position is valid iff it is a cell of the default 9×9 map |
| MapManager.AdjacentIsUnitStep | app/src/main/java/com/tuodominio/mazewarden3d/MapManager.kt:106-111 | Away from the Int limits, the four `neighbors` are exactly the cells at Manhattan distance 1 |
| Lists.FirstIndex | app/src/main/java/com/tuodominio/mazewarden3d/MapManager.kt:120 | `find`/`first` stop at the first element satisfying the test, and -1 means none does |
| MapManager.FirstMinF | app/src/main/java/com/tuodominio/mazewarden3d/MapManager.kt:96 | `minByOrNull { f }`: the first node with the least f |
| MapManager.MapManager.PopFirstMin | app/src/main/java/com/tuodominio/mazewarden3d/MapManager.kt:96-97 | The popped node has least f, is a chained unclosed candidate, and leaves the open list without it |
| MapManager.MapManager.CloseAndExpand | app/src/main/java/com/tuodominio/mazewarden3d/MapManager.kt:103-125 | The node joins the closed set (so the measure of unclosed candidates falls) and the open-list invariant is kept |
| MapManager.MapManager.RelaxNeighbour | app/src/main/java/com/tuodominio/mazewarden3d/MapManager.kt:113-124 | Queueing or updating one neighbour keeps the open-list invariant |
| MapManager.MapManager.ReconstructPath | app/src/main/java/com/tuodominio/mazewarden3d/MapManager.kt:135-145 | The tiles of the node's parent chain, root first, skipping cells the map has no tile for |
| MapManager.MapManager.ChainTilesShape | app/src/main/java/com/tuodominio/mazewarden3d/MapManager.kt:135-145 | A non-empty reconstructed path ends on the node's cell and starts on the start cell, or next to it when the start has no tile; consecutive tiles are neighbours and every tile after the first is walkable |
| MapManager.MapManager.FindPath | app/src/main/java/com/tuodominio/mazewarden3d/MapManager.kt:87-129 | The search terminates; a non-empty result ends on the end cell and starts on the start cell, or next to it when the start has no tile; consecutive tiles are neighbours (Int `± 1` steps) and every tile after the first is walkable |
| GameModels.Empty | app/src/main/java/com/tuodominio/mazewarden3d/model/GameModels.kt:29-34 | 11×11, all FLOOR, no dynamic walls, exit (9, 9) |
| GameModels.Generate | app/src/main/java/com/tuodominio/mazewarden3d/model/GameModels.kt:36-51 | A size×size grid that is WALL exactly where the generator gives 2, no dynamic walls, exit (size-2, size-2) |
| GameModels.HasWallAt | app/src/main/java/com/tuodominio/mazewarden3d/model/GameModels.kt:58-61 | True for every invalid position, otherwise iff the cell is WALL |
| GameModels.ParseWallTypeIsNameInverse | app/src/main/java/com/tuodominio/mazewarden3d/model/GameModels.kt:207-209 | `WallType.valueOf` (called at line 99) accepts exactly the five enum names and inverts `name` |
| GameModels.WallDestroyedCells | app/src/main/java/com/tuodominio/mazewarden3d/model/GameModels.kt:63-80 | After a destruction at p: p was WALL and is now FLOOR, every other cell and every field is unchanged |
| GameModels.DestroyRandomWall | app/src/main/java/com/tuodominio/mazewarden3d/model/GameModels.kt:63-80 | With no WALL cell the state is returned as is; otherwise exactly one WALL cell becomes FLOOR in a new grid |
| GameModels.CollectCells | app/src/main/java/com/tuodominio/mazewarden3d/model/GameModels.kt:64-90 | The collected list holds exactly the cells of that kind in the given square range |
| GameModels.GetRandomEmptyPosition | app/src/main/java/com/tuodominio/mazewarden3d/model/GameModels.kt:82-92 | An interior FLOOR cell when one exists, otherwise (1, 1) |
| GameModels.ApplyAIMove | app/src/main/java/com/tuodominio/mazewarden3d/model/GameModels.kt:94-104 | A pass returns the state; a wall move fails iff the upper-cased type names no `WallType`, else appends one HORIZONTAL wall at (x, z) and keeps size, grid and exit |
| GameModels.LowerCaseWallMoveApplies | app/src/main/java/com/tuodominio/mazewarden3d/model/GameModels.kt:94-104 | A wall move whose type is a lower-cased enum name always applies |
| GameRepository.WallPositions | app/src/main/java/com/tuodominio/mazewarden3d/repository/GameRepository.kt:47-51 | Exactly the (x, y) whose cell is WALL, in row-major order |
| GameRepository.ToMazeState | app/src/main/java/com/tuodominio/mazewarden3d/repository/GameRepository.kt:163-171 | Fails (the array write or allocation throws) iff the size is negative or a stored position passes the `< size` test with a negative coordinate; otherwise a size×size grid that is WALL exactly at the stored positions inside it, dynamic walls and exit passed through |
| GameRepository.RestoredGridSkip | app/src/main/java/com/tuodominio/mazewarden3d/repository/GameRepository.kt:166 | A position with x or y at least size is silently dropped |
| GameRepository.SavedMazeRestores | app/src/main/java/com/tuodominio/mazewarden3d/repository/GameRepository.kt:163-171 | Loading what `saveMazeState` (lines 45-54) stores for a square maze gives that maze back unchanged |
| GameRepository.ToLegacyWalls | app/src/main/java/com/tuodominio/mazewarden3d/repository/GameRepository.kt:113-120 | One `WallState` per wall, in order: r = y, c = x, 'h' iff HORIZONTAL, type the lower-cased enum name |
| GameRepository.LegacyWallRoundTrip | app/src/main/java/com/tuodominio/mazewarden3d/repository/GameRepository.kt:113-120 | The conversion loses nothing: the wall can be read back from its legacy form |
| GameRepository.LegacyTypesAreRendererTypes | app/src/main/java/com/tuodominio/mazewarden3d/repository/GameRepository.kt:118 | Every converted type is one of the renderer's five `WALL_TYPES` |
| GameRepository.CalculateStrategicPlacement | app/src/main/java/com/tuodominio/mazewarden3d/repository/GameRepository.kt:188-193 | The placeholder always passes |
| GameRepository.CalculateAIMove | app/src/main/java/com/tuodominio/mazewarden3d/repository/GameRepository.kt:110-129 | Always a move, and never a wall move |
| GameRepository.AIMoveNeverChangesMaze | app/src/main/java/com/tuodominio/mazewarden3d/repository/GameRepository.kt:110-129 | Applying the repository's AI move leaves any maze unchanged |
| GameViewModel.CalculateNewPosition | app/src/main/java/com/tuodominio/mazewarden3d/viewmodel/GameViewModel.kt:167-174 | UP gives y-1, DOWN y+1, LEFT x-1, RIGHT x+1 (wrapping at the Int limits); the other coordinate is kept |
| GameViewModel.StepBackReturns | app/src/main/java/com/tuodominio/mazewarden3d/viewmodel/GameViewModel.kt:167-174 | A step and the opposite step return to the start, even across the Int wrap |
| GameViewModel.IsValidMove | app/src/main/java/com/tuodominio/mazewarden3d/viewmodel/GameViewModel.kt:176-178 | Valid iff in bounds and FLOOR |
| GameViewModel.CanUseSkill | app/src/main/java/com/tuodominio/mazewarden3d/viewmodel/GameViewModel.kt:180-182 | Usable iff the cooldown entry is absent or at most 0 |
| GameViewModel.SkillUsableOnlyOnce | app/src/main/java/com/tuodominio/mazewarden3d/viewmodel/GameViewModel.kt:120-124 | After use a skill is unusable; the other skills keep their status |
| GameViewModel.CalculateScore | app/src/main/java/com/tuodominio/mazewarden3d/viewmodel/GameViewModel.kt:184-189 | 1000 − 10·moves plus whole seconds left of five minutes, when the penalty fits in an Int; never more than 300 above the move part |
| GameViewModel.ScoreFallsWithMoves | app/src/main/java/com/tuodominio/mazewarden3d/viewmodel/GameViewModel.kt:184-189 | Each extra move costs exactly 10 points |
| GameViewModel.ScoreFallsWithTime | app/src/main/java/com/tuodominio/mazewarden3d/viewmodel/GameViewModel.kt:184-189 | Taking longer never raises the score |
| GameViewModel.GameViewModel.StartNewGame | app/src/main/java/com/tuodominio/mazewarden3d/viewmodel/GameViewModel.kt:59-68 | Initial game, player and audio states and a fresh 11×11 maze |
| GameViewModel.GameViewModel.CheckVictoryCondition | app/src/main/java/com/tuodominio/mazewarden3d/viewmodel/GameViewModel.kt:154-165 | On the exit: won, with the current score, and the victory sound; elsewhere nothing changes |
| GameViewModel.GameViewModel.TriggerAIMove | app/src/main/java/com/tuodominio/mazewarden3d/viewmodel/GameViewModel.kt:145-152 | The maze and all other state are unchanged |
| GameViewModel.GameViewModel.MovePlayer | app/src/main/java/com/tuodominio/mazewarden3d/viewmodel/GameViewModel.kt:70-97 | A valid step moves the player, counts one move and plays STEP, or wins on the exit; an invalid one changes only the sound, to WALL_HIT |
| GameViewModel.GameViewModel.UseSkill | app/src/main/java/com/tuodominio/mazewarden3d/viewmodel/GameViewModel.kt:99-129 | An unusable skill changes nothing; a usable one acts as its kind says, plays SKILL_USE and sets only its own cooldown |
| MazeRaceEngine.MazeRaceEngine.StartRace | app/src/main/java/com/tuodominio/mazewarden3d/MazeRaceEngine.kt:19-28 | Two fresh generated size×size mazes, both players on (1, 1), exit (size-2, size-2), race open, start announced |
| MazeRaceEngine.MazeRaceEngine.UpdatePlayerPos | app/src/main/java/com/tuodominio/mazewarden3d/MazeRaceEngine.kt:30-47 | Nothing once over; otherwise player 1 moves iff `player` is 1 and player 2 otherwise, each maze gains at most the one `placeWall` cell, and the race ends iff a player is on the exit, player 1 winning a tie |
| CharacterController.MoveRefusedIsDistance | app/src/main/java/com/tuodominio/mazewarden3d/CharacterController.kt:44 | Within Int range, `move` refuses exactly targets more than one cell away on some axis; diagonal steps pass |
| CharacterController.WrappedJumpIsAccepted | app/src/main/java/com/tuodominio/mazewarden3d/CharacterController.kt:44 | A jump whose difference wraps to `Int.MIN_VALUE` passes the guard, because `abs` of it is negative |
| CharacterController.CharacterController.LoadCharacters | app/src/main/java/com/tuodominio/mazewarden3d/CharacterController.kt:29-41 | Exactly three new heroes: Guerriero at (1, 4), Maga at (4, 4), Robot at (7, 4), skills unused |
| CharacterController.CharacterController.Move | app/src/main/java/com/tuodominio/mazewarden3d/CharacterController.kt:43-53 | A refused target changes nothing; otherwise both coordinates are set |
| CharacterController.CharacterController.ActivateSkill | app/src/main/java/com/tuodominio/mazewarden3d/CharacterController.kt:55-93 | Nothing once used; GUERRIERO clears a WALL in front; ROBOT moves the nearby wall onto the nearby empty tile; each spends the skill only when it acts; MAGA spends it whenever a target exists and does not move; `thrown` iff an unused MAGA skill finds no teleport target, the exception `first` raises, with nothing changed |
| TutorialManager.TutorialManager.Start | app/src/main/java/com/tuodominio/mazewarden3d/TutorialManager.kt:18-29 | Step 0, active, the first step shown and spoken |
| TutorialManager.TutorialManager.Next | app/src/main/java/com/tuodominio/mazewarden3d/TutorialManager.kt:31-50 | Nothing when inactive; otherwise the next step shown and spoken, or past the last step the tutorial completes |
| TutorialManager.TutorialManager.Complete | app/src/main/java/com/tuodominio/mazewarden3d/TutorialManager.kt:52-66 | Closing text and line, inactive, step kept, text hidden |
| TutorialManager.TutorialManager.Skip | app/src/main/java/com/tuodominio/mazewarden3d/TutorialManager.kt:68-72 | Inactive, step kept, hidden, "Tutorial saltato." spoken |
| TutorialManager.TutorialManager.GetProgress | app/src/main/java/com/tuodominio/mazewarden3d/TutorialManager.kt:74-80 | "Step k/5" for the one-based step while active, "Tutorial completato" otherwise |
| TutorialManager.TutorialManager.GetCurrentStepHint | app/src/main/java/com/tuodominio/mazewarden3d/TutorialManager.kt:82-91 | The step's hint for steps 0..4; "" iff the step is outside them |
| TutorialManager.TutorialManager.ActiveStepIsFirstIncomplete | app/src/main/java/com/tuodominio/mazewarden3d/TutorialManager.kt:93-95 | While active the step is below 5, and step i counts as completed iff i is before it |
| TutorialManager.TutorialManager.Reset | app/src/main/java/com/tuodominio/mazewarden3d/TutorialManager.kt:97-100 | Step 0 and inactive |
| MazeView.MazeView.constructor | app/src/main/java/com/tuodominio/mazewarden3d/MazeView.kt:12-16 | A generated mazeSize×mazeSize maze, player (1, 1), exit (mazeSize-2, mazeSize-2) |
| MazeView.MazeView.MovePlayerToward | app/src/main/java/com/tuodominio/mazewarden3d/MazeView.kt:77-100 | Out of bounds, not Manhattan-adjacent or onto a 2 cell: nothing changes; otherwise the player moves to the target and, unless it is the exit, `placeWall` closes its chosen neighbour |
| MazeView.MazeView.DestroyRandomWall | app/src/main/java/com/tuodominio/mazewarden3d/MazeView.kt:102-117 | Exactly one 2 cell becomes 0 when one exists; otherwise nothing changes |
| MazeView.MazeView.TeleportRandom | app/src/main/java/com/tuodominio/mazewarden3d/MazeView.kt:119-134 | The player lands on an interior 0 cell when one exists; otherwise stays |
| MazeView.CollectCells | app/src/main/java/com/tuodominio/mazewarden3d/MazeView.kt:106-128 | The collected list holds exactly the cells of that value in the given range |
| KotlinInt.MaxPlusPositiveIsNegative | app/src/main/java/com/tuodominio/mazewarden3d/GameRenderer.kt:523 | `Int.MAX_VALUE + d` for a positive distance d wraps to a negative value |
| KotlinInt.Sum | app/src/main/java/com/tuodominio/mazewarden3d/GameRenderer.kt:1084 | `sum()` is a wrapped Int |

## Left out

- Rendering, the Filament scene, lights, fog, particles and animation: these are foreign engine calls over floating point, so only the game state they display is modelled.
- `GameRenderer.kt:430-465` rebuilds walls and player cells from world-transform floats. `AITurn.ApplyAIMove` takes those cells and walls as parameters instead.
- Coroutines, `StateFlow` and `Handler` delays are left out. Each launched block is one sequential call. The delayed hide in `TutorialManager.complete` is modelled as taking effect at once.
- Audio and speech playback are left out. The view model's `lastSound` field is kept. The tutorial's `VoicePlayer` and `TextView` are the `Speaker` and `Screen` classes.
- Persistence, JSON and encrypted preferences are left out. `GameRepository` keeps only the grid ↔ wall-list conversion, with `loadMazeState`'s null modelled as `ToMazeState` failing. `GameViewModel`'s `saveGameState`, `initializeGame`'s saved-game branch, `selectCharacter`, `updateAudioSettings`, `pauseGame` and `resumeGame` only store or forward values.
- `ScoreBoard` is recorded as a list of announcements because it only shows toasts and plays sounds.
- The game's random choices are not modelled. Each is an arbitrary pick or a permutation parameter.
- `MapManager`'s `getWallTiles`, `getTrapTiles`, `getSpecialTiles` and `getRandomEmptyTile` are left out. Each is a single filter of the kind `GetWalkableTiles` models, or a random pick from one.
- `GodWardenAI.generateCandidateWalls` and `evaluateWallPlacement` (`GameRenderer.kt:883-918`) are left out because nothing calls them.
- The `Tile`/`Character` `entity`, `modelFile` loading and `MazeView.scanAndRevealExit`/`updatePlayerSkin` are left out because they are drawing only.
- ShortestPath.ComputeShortestPath: a finite result is proved to be the length of a real walk, so it is never below the true distance. That it equals the shortest distance (A* optimality) is not proved.
- MapManager.MapManager.FindPath: only soundness of a non-empty path and termination are proved. That an empty result means no path exists is not proved.
- AITurn.ApplyAIMove: when no slot is free, the contract says only that the result is none or a mutation candidate. `AITurn.SelectBest` states the first-best choice among them.
- MapManager.MapManager: `currentMap` is `lateinit`. Every query that reads it (`getTile` through `findPath`, and `CharacterController.activateSkill` through them) throws until `setMap` runs. That path is excluded by the precondition `initialized` rather than modelled.
- MazeGenerator.Generate: requires width and height of at least 2. Below that, the source's corner writes throw an index exception, and the model does not capture it. Three callers inherit that precondition: `GameModels.Generate`, `MazeRaceEngine.MazeRaceEngine.StartRace` (whose size nothing in the source constrains) and the `MazeView.MazeView` constructor.
- GameViewModel.CalculateScore: the exact formula is stated only while 10·moves fits in an Int. Outside that, the contract gives bounds on the wrapped result. The source returns the `Int` move part plus a `Long` time bonus from an `Int` function. The model reads the sum as the unnarrowed Long value.
- GameViewModel.GameViewModel.TriggerAIMove: an exception in the AI call would surface as a null move. The placeholder never throws, so this path is not modelled.
- `GameModels`' upper- and lower-casing handle ASCII letters only. The enum names are ASCII.
- `MazeRaceEngine`'s `lateinit` fields are modelled with a ghost `started` flag. Reading them before `startRace` (an exception) is excluded by precondition.
