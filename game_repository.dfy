/**
 * The logic of repository/GameRepository.kt once the JSON and storage
 * plumbing is set aside: a maze is saved as the list of its WALL cells
 * and loaded back by `SimplifiedMazeState.toMazeState`, and the AI move
 * is asked of the placeholder `GodWardenAI` declared in the same file.
 */
module GameRepository {
  import opened Wrappers
  import opened GameModels
  import Walls

  /* ---------- saveMazeState: the grid as a list of wall positions ---------- */

  /** `p` comes strictly before `q` in row-major order. */
  predicate Before(p: Position, q: Position) {
    p.y < q.y || (p.y == q.y && p.x < q.x)
  }

  predicate RowMajor(ps: seq<Position>) {
    forall i, j | 0 <= i < j < |ps| :: Before(ps[i], ps[j])
  }

  /** The WALL cells among the first `n` cells of row `y`, left to right. */
  function RowWalls(row: seq<CellType>, y: int, n: nat): (r: seq<Position>)
    requires n <= |row|
    ensures forall p :: p in r <==> p.y == y && 0 <= p.x < n && row[p.x] == WALL
    ensures RowMajor(r)
  {
    if n == 0 then []
    else
      var prefix := RowWalls(row, y, n - 1);
      var r := prefix + (if row[n - 1] == WALL then [Position(n - 1, y)] else []);
      assert forall i | 0 <= i < |prefix| :: prefix[i] in prefix;
      r
  }

  /**
   * The `flatMapIndexed`/`mapIndexedNotNull` extraction of `saveMazeState`
   * over the first `n` rows: exactly the positions (x, y) whose cell is a
   * WALL, in row-major order; rows may have any length.
   */
  function WallPositions(grid: seq<seq<CellType>>, n: nat): (r: seq<Position>)
    requires n <= |grid|
    ensures forall p :: p in r <==> 0 <= p.y < n && 0 <= p.x < |grid[p.y]| && grid[p.y][p.x] == WALL
    ensures RowMajor(r)
  {
    if n == 0 then []
    else
      var prefix := WallPositions(grid, n - 1);
      var last := RowWalls(grid[n - 1], n - 1, |grid[n - 1]|);
      assert forall i | 0 <= i < |prefix| :: prefix[i] in prefix;
      assert forall i | 0 <= i < |last| :: last[i] in last;
      prefix + last
  }

  /** `SimplifiedMazeState`, the form a maze is stored in. */
  datatype SimplifiedMazeState = SimplifiedMazeState(
    size: int, wallPositions: seq<Position>, dynamicWalls: seq<WallData>, exitPosition: Position)

  /** The `SimplifiedMazeState` that `saveMazeState` writes for `m`. */
  function Simplify(m: MazeState): SimplifiedMazeState {
    SimplifiedMazeState(m.size, WallPositions(m.grid, |m.grid|), m.walls, m.exitPosition)
  }

  /* ---------- loadMazeState: SimplifiedMazeState.toMazeState ---------- */

  /**
   * `toMazeState` throws, and `loadMazeState` answers `null`, when the
   * size is negative (`Array(size)`) or when a listed position that
   * passes the `< size` test has a negative coordinate.
   */
  predicate LoadFails(s: SimplifiedMazeState) {
    s.size < 0 ||
    exists i | 0 <= i < |s.wallPositions| ::
      s.wallPositions[i].y < s.size && s.wallPositions[i].x < s.size &&
      (s.wallPositions[i].x < 0 || s.wallPositions[i].y < 0)
  }

  /** A `size`×`size` grid that is WALL at the listed positions and FLOOR elsewhere. */
  function RestoredGrid(size: nat, ps: seq<Position>): (grid: seq<seq<CellType>>)
    ensures |grid| == size && forall y | 0 <= y < size :: |grid[y]| == size
  {
    seq(size, y requires 0 <= y < size => seq(size, x requires 0 <= x < size => if Position(x, y) in ps then WALL else FLOOR))
  }

  /** The maze `toMazeState` returns when it does not throw. */
  function Restored(s: SimplifiedMazeState): (m: MazeState)
    requires s.size >= 0
    ensures WellFormed(m)
  {
    MazeState(s.size, RestoredGrid(s.size, s.wallPositions), s.dynamicWalls, s.exitPosition)
  }

  /** With no position listed the grid is all FLOOR. */
  lemma RestoredGridEmpty(size: nat)
    ensures RestoredGrid(size, []) == seq(size, _ => seq(size, _ => FLOOR))
  {
    var a, b := RestoredGrid(size, []), seq(size, _ => seq(size, _ => FLOOR));
    forall y | 0 <= y < size
      ensures a[y] == b[y]
    {
    }
  }

  /** Marking one more wall that lies inside the grid is one cell update. */
  lemma RestoredGridAppend(size: nat, ps: seq<Position>, p: Position)
    requires 0 <= p.x < size && 0 <= p.y < size
    ensures RestoredGrid(size, ps + [p]) ==
      RestoredGrid(size, ps)[p.y := RestoredGrid(size, ps)[p.y][p.x := WALL]]
  {
    var a, b := RestoredGrid(size, ps + [p]), RestoredGrid(size, ps)[p.y := RestoredGrid(size, ps)[p.y][p.x := WALL]];
    forall y | 0 <= y < size
      ensures a[y] == b[y]
    {
      forall x | 0 <= x < size
        ensures a[y][x] == b[y][x]
      {
        assert Position(x, y) in ps + [p] <==> Position(x, y) in ps || Position(x, y) == p;
      }
    }
  }

  /** A position outside the grid on the high side leaves the grid as it is. */
  lemma RestoredGridSkip(size: nat, ps: seq<Position>, p: Position)
    requires p.x >= size || p.y >= size
    ensures RestoredGrid(size, ps + [p]) == RestoredGrid(size, ps)
  {
    var a, b := RestoredGrid(size, ps + [p]), RestoredGrid(size, ps);
    forall y | 0 <= y < size
      ensures a[y] == b[y]
    {
      forall x | 0 <= x < size
        ensures a[y][x] == b[y][x]
      {
        assert Position(x, y) in ps + [p] <==> Position(x, y) in ps || Position(x, y) == p;
      }
    }
  }

  /**
   * `toMazeState`: a fresh all-FLOOR grid, then each listed position that
   * is below `size` on both axes becomes WALL; `None` is the exception of
   * `LoadFails`.  The rest of the state is copied through.
   */
  method ToMazeState(s: SimplifiedMazeState) returns (r: Option<MazeState>)
    ensures r.None? <==> LoadFails(s)
    ensures r.Some? ==> r.value == Restored(s)
  {
    if s.size < 0 {
      return None;
    }
    var grid := seq(s.size, _ => seq(s.size, _ => FLOOR));
    RestoredGridEmpty(s.size);
    var i := 0;
    while i < |s.wallPositions|
      invariant 0 <= i <= |s.wallPositions|
      invariant grid == RestoredGrid(s.size, s.wallPositions[..i])
      invariant forall k | 0 <= k < i ::
        !(s.wallPositions[k].y < s.size && s.wallPositions[k].x < s.size && (s.wallPositions[k].x < 0 || s.wallPositions[k].y < 0))
    {
      var pos := s.wallPositions[i];
      assert s.wallPositions[..i + 1] == s.wallPositions[..i] + [pos];
      if pos.y < s.size && pos.x < s.size {
        if pos.y < 0 || pos.x < 0 {
          return None;
        }
        RestoredGridAppend(s.size, s.wallPositions[..i], pos);
        grid := grid[pos.y := grid[pos.y][pos.x := WALL]];
      } else {
        RestoredGridSkip(s.size, s.wallPositions[..i], pos);
      }
      i := i + 1;
    }
    assert s.wallPositions[..i] == s.wallPositions;
    return Some(MazeState(s.size, grid, s.dynamicWalls, s.exitPosition));
  }

  /**
   * Saving then loading gives the maze back: a well-formed maze never
   * makes the load fail, and the restored grid is the saved one, with
   * the dynamic walls and the exit passed through.
   */
  lemma SavedMazeRestores(m: MazeState)
    requires WellFormed(m)
    ensures !LoadFails(Simplify(m))
    ensures Restored(Simplify(m)) == m
  {
    var s := Simplify(m);
    forall i | 0 <= i < |s.wallPositions|
      ensures s.wallPositions[i].x >= 0 && s.wallPositions[i].y >= 0
    {
      assert s.wallPositions[i] in s.wallPositions;
    }
    var g := RestoredGrid(m.size, s.wallPositions);
    forall y | 0 <= y < m.size
      ensures g[y] == m.grid[y]
    {
      forall x | 0 <= x < m.size
        ensures g[y][x] == m.grid[y][x]
      {
        assert Position(x, y) in s.wallPositions <==> m.grid[y][x] == WALL;
      }
    }
  }

  /* ---------- calculateAIMove ---------- */

  /** `WallState` as GameRepository.kt declares it. */
  datatype WallState = WallState(r: int, c: int, orientation: char, wallType: string)

  /** `GameBoard` as GameRepository.kt declares it. */
  datatype GameBoard = GameBoard(walls: seq<WallState>, playerPositions: seq<(int, int)>)

  /** One wall as `calculateAIMove` converts it to the legacy form. */
  function ToLegacyWall(wall: WallData): WallState {
    WallState(wall.position.y, wall.position.x,
      if wall.orientation == HORIZONTAL then 'h' else 'v',
      Lower(Name(wall.wallType)))
  }

  /** The conversion, wall by wall and in order. */
  function ToLegacyWalls(walls: seq<WallData>): (r: seq<WallState>)
    ensures |r| == |walls|
    ensures forall i | 0 <= i < |walls| ::
      r[i].r == walls[i].position.y && r[i].c == walls[i].position.x &&
      (r[i].orientation == 'h' <==> walls[i].orientation == HORIZONTAL) &&
      (r[i].orientation == 'v' <==> walls[i].orientation == VERTICAL) &&
      r[i].wallType == Lower(Name(walls[i].wallType))
  {
    seq(|walls|, i requires 0 <= i < |walls| => ToLegacyWall(walls[i]))
  }

  /** Reads a legacy wall back; `None` for an orientation or type name the model package does not have. */
  function FromLegacyWall(w: WallState): Option<WallData> {
    var orientation := if w.orientation == 'h' then Some(HORIZONTAL) else if w.orientation == 'v' then Some(VERTICAL) else None;
    var wallType := ParseWallType(Upper(w.wallType));
    if orientation.None? || wallType.None? then None
    else Some(WallData(Position(w.c, w.r), wallType.value, orientation.value))
  }

  /** The conversion loses nothing: every converted wall reads back as itself. */
  lemma LegacyWallRoundTrip(wall: WallData)
    ensures FromLegacyWall(ToLegacyWall(wall)) == Some(wall)
  {
    UpperOfLowerName(wall.wallType);
  }

  /** Every converted type name is one the renderer's `WALL_TYPES` lists, so every converted wall blocks. */
  lemma LegacyTypesAreRendererTypes(wall: WallData)
    ensures ToLegacyWall(wall).wallType in Walls.WALL_TYPES
  {
    var n := Lower(Name(wall.wallType));
    match wall.wallType
    case NORMALE => assert n == Walls.WALL_TYPES[0];
    case INVISIBILE => assert n == Walls.WALL_TYPES[1];
    case RIMBALZANTE => assert n == Walls.WALL_TYPES[2];
    case TELEPORTANTE => assert n == Walls.WALL_TYPES[3];
    case DISTRUGGIBILE => assert n == Walls.WALL_TYPES[4];
  }

  /** The placeholder `GodWardenAI.calculateStrategicPlacement`: it always passes. */
  function CalculateStrategicPlacement(board: GameBoard): (r: AIMove)
    ensures !r.isWall && r.x == -1 && r.z == -1
  {
    PASS
  }

  /** `calculateAIMove`: converts the walls, builds the board and asks the placeholder; it cannot throw. */
  function CalculateAIMove(maze: MazeState, player: PlayerState): (r: Option<AIMove>)
    ensures r.Some? && !r.value.isWall
  {
    var walls := ToLegacyWalls(maze.walls);
    var board := GameBoard(walls, [(player.position.x, player.position.y)]);
    Some(CalculateStrategicPlacement(board))
  }

  /** Whatever the maze and the player, the AI move it yields leaves the maze unchanged. */
  lemma AIMoveNeverChangesMaze(maze: MazeState, player: PlayerState)
    ensures ApplyAIMove(maze, CalculateAIMove(maze, player).value) == Some(maze)
  {
  }
}
