/**
 * The game-state values of model/GameModels.kt: positions, wall records,
 * skills, and `MazeState` with its queries and the copies it returns.
 * Kotlin's `Array<Array<CellType>>` grid is a value here: every operation
 * of `MazeState` that changes the grid works on a clone.
 */
module GameModels {
  import opened Wrappers
  import MazeGenerator

  datatype Position = Position(x: int, y: int)

  datatype CellType = FLOOR | WALL

  datatype Direction = UP | DOWN | LEFT | RIGHT

  datatype WallType = NORMALE | INVISIBILE | RIMBALZANTE | TELEPORTANTE | DISTRUGGIBILE

  datatype WallOrientation = HORIZONTAL | VERTICAL

  datatype WallData = WallData(position: Position, wallType: WallType, orientation: WallOrientation)

  datatype Skill = WALL_DESTROYER | TELEPORT | EXIT_SCANNER
  {
    /** The number of turns the skill stays unavailable after use. */
    function CooldownTurns(): int {
      match this
      case WALL_DESTROYER => 3
      case TELEPORT => 5
      case EXIT_SCANNER => 7
    }
  }

  datatype Character = WARRIOR | MAGE | SCOUT
  {
    function Skills(): seq<Skill> {
      match this
      case WARRIOR => [WALL_DESTROYER]
      case MAGE => [TELEPORT]
      case SCOUT => [EXIT_SCANNER]
    }
  }

  datatype SoundEffect = STEP | WALL_HIT | SKILL_USE | VICTORY

  datatype Difficulty = EASY | NORMAL | HARD | NIGHTMARE

  /** `GameState`; `elapsedTimeMs` is a Kotlin Long. */
  datatype GameState = GameState(
    isLoading: bool, isPaused: bool, isGameWon: bool, isExitRevealed: bool,
    turnCount: int, elapsedTimeMs: int, finalScore: int, difficulty: Difficulty,
    error: Option<string>)

  const INITIAL_GAME: GameState := GameState(false, false, false, false, 0, 0, 0, NORMAL, None)

  datatype PlayerState = PlayerState(position: Position, character: Character, moveCount: int, skillCooldowns: map<Skill, int>)

  const INITIAL_PLAYER: PlayerState := PlayerState(Position(1, 1), WARRIOR, 0, map[])

  /** `AudioState` without its volume settings. */
  datatype AudioState = AudioState(lastSound: Option<SoundEffect>)

  const INITIAL_AUDIO: AudioState := AudioState(None)

  /** `AIMove` of the model package (the renderer declares its own). */
  datatype AIMove = AIMove(x: int, z: int, isWall: bool, wallType: string)

  const PASS: AIMove := AIMove(-1, -1, false, "normale")

  datatype MazeState = MazeState(size: int, grid: seq<seq<CellType>>, walls: seq<WallData>, exitPosition: Position)

  /** Every `MazeState` the game builds has a `size`×`size` grid, indexed `grid[y][x]`. */
  predicate WellFormed(m: MazeState) {
    |m.grid| == m.size && forall y | 0 <= y < |m.grid| :: |m.grid[y]| == m.size
  }

  /* ---------- Kotlin string helpers on the ASCII range ---------- */

  function UpperChar(c: char): char {
    if 'a' <= c <= 'z' then (c as int - 32) as char else c
  }

  function LowerChar(c: char): char {
    if 'A' <= c <= 'Z' then (c as int + 32) as char else c
  }

  /** `String.uppercase()`. */
  function Upper(s: string): string {
    seq(|s|, i requires 0 <= i < |s| => UpperChar(s[i]))
  }

  /** `String.lowercase()`. */
  function Lower(s: string): string {
    seq(|s|, i requires 0 <= i < |s| => LowerChar(s[i]))
  }

  /** `WallType.name`. */
  function Name(t: WallType): string {
    match t
    case NORMALE => "NORMALE"
    case INVISIBILE => "INVISIBILE"
    case RIMBALZANTE => "RIMBALZANTE"
    case TELEPORTANTE => "TELEPORTANTE"
    case DISTRUGGIBILE => "DISTRUGGIBILE"
  }

  /** `WallType.valueOf`; `None` is the `IllegalArgumentException` it throws. */
  function ParseWallType(s: string): Option<WallType> {
    if s == "NORMALE" then Some(NORMALE)
    else if s == "INVISIBILE" then Some(INVISIBILE)
    else if s == "RIMBALZANTE" then Some(RIMBALZANTE)
    else if s == "TELEPORTANTE" then Some(TELEPORTANTE)
    else if s == "DISTRUGGIBILE" then Some(DISTRUGGIBILE)
    else None
  }

  /** `valueOf` accepts exactly the five names, each naming its own constant. */
  lemma ParseWallTypeIsNameInverse(s: string, t: WallType)
    ensures ParseWallType(s) == Some(t) <==> s == Name(t)
  {
  }

  /** A name as `WallType.name.lowercase()` prints it comes back through `uppercase()` unchanged. */
  lemma UpperOfLowerName(t: WallType)
    ensures Upper(Lower(Name(t))) == Name(t)
  {
    var n := Name(t);
    assert forall i | 0 <= i < |n| :: 'A' <= n[i] <= 'Z';
    assert forall i | 0 <= i < |n| :: Upper(Lower(n))[i] == n[i];
  }

  /* ---------- MazeState ---------- */

  /** `MazeState.empty()`: an 11×11 grid with no wall anywhere inside it. */
  function Empty(): (m: MazeState)
    ensures WellFormed(m) && m.size == 11 && m.walls == [] && m.exitPosition == Position(9, 9)
    ensures forall p | IsPositionValid(m, p) :: !HasWallAt(m, p)
  {
    MazeState(11, seq(11, _ => seq(11, _ => FLOOR)), [], Position(9, 9))
  }

  /**
   * `MazeState.generate(size)`: the `MazeGenerator` grid, 2 read as WALL;
   * walls on every even row and column except the two corridor ends, no
   * dynamic walls, and an open exit at (size-2, size-2).
   */
  method Generate(size: int) returns (m: MazeState)
    requires 2 <= size
    ensures WellFormed(m) && m.size == size && m.walls == []
    ensures m.exitPosition == Position(size - 2, size - 2)
    ensures forall y, x | 0 <= y < size && 0 <= x < size ::
      m.grid[y][x] == WALL <==> (y % 2 == 0 || x % 2 == 0) && !MazeGenerator.IsCorridorEnd(size, size, y, x)
    ensures m.grid[1][1] == FLOOR && m.grid[size - 2][size - 2] == FLOOR
  {
    var maze := MazeGenerator.Generate(size, size);
    var grid := seq(size, row requires 0 <= row < size reads maze =>
      seq(size, col requires 0 <= col < size reads maze => if maze[row, col] == 2 then WALL else FLOOR));
    forall y, x | 0 <= y < size && 0 <= x < size
      ensures grid[y][x] == WALL <==> (y % 2 == 0 || x % 2 == 0) && !MazeGenerator.IsCorridorEnd(size, size, y, x)
    {
      MazeGenerator.GeneratedShape(size, size, y, x);
    }
    MazeGenerator.GeneratedShape(size, size, 1, 1);
    m := MazeState(size, grid, [], Position(size - 2, size - 2));
  }

  /** `isPositionValid`. */
  predicate IsPositionValid(m: MazeState, p: Position) {
    0 <= p.x < m.size && 0 <= p.y < m.size
  }

  /** `hasWallAt`: a position is free of walls exactly when it is an in-bounds FLOOR cell. */
  predicate HasWallAt(m: MazeState, p: Position)
    requires WellFormed(m)
    ensures HasWallAt(m, p) <==> !(0 <= p.x < m.size && 0 <= p.y < m.size && m.grid[p.y][p.x] == FLOOR)
  {
    if !IsPositionValid(m, p) then true else m.grid[p.y][p.x] == WALL
  }

  /** Some in-bounds cell of the grid is a WALL. */
  ghost predicate AnyWall(m: MazeState)
    requires WellFormed(m)
  {
    exists p :: IsPositionValid(m, p) && HasWallAt(m, p)
  }

  /** `r` is `m` with the wall at `p` turned into FLOOR in a cloned grid. */
  predicate WallDestroyedAt(m: MazeState, r: MazeState, p: Position)
    requires WellFormed(m)
  {
    IsPositionValid(m, p) && m.grid[p.y][p.x] == WALL &&
    r == m.(grid := m.grid[p.y := m.grid[p.y][p.x := FLOOR]])
  }

  /** The cell-by-cell reading of `WallDestroyedAt`: one wall gone, nothing else changed. */
  lemma WallDestroyedCells(m: MazeState, r: MazeState, p: Position)
    requires WellFormed(m) && WallDestroyedAt(m, r, p)
    ensures WellFormed(r) && r.size == m.size && r.walls == m.walls && r.exitPosition == m.exitPosition
    ensures HasWallAt(m, p) && !HasWallAt(r, p)
    ensures forall q | IsPositionValid(m, q) && q != p :: r.grid[q.y][q.x] == m.grid[q.y][q.x]
  {
    forall q | IsPositionValid(m, q) && q != p
      ensures r.grid[q.y][q.x] == m.grid[q.y][q.x]
    {
      if q.y == p.y {
        assert q.x != p.x;
      }
    }
  }

  /** The positions (x, y) with `lo <= x, y < hi` whose cell is `kind`, in any order. */
  method CollectCells(m: MazeState, lo: int, hi: int, kind: CellType) returns (cells: seq<Position>)
    requires WellFormed(m) && 0 <= lo && hi <= m.size
    ensures forall p :: p in cells <==> lo <= p.x < hi && lo <= p.y < hi && m.grid[p.y][p.x] == kind
  {
    cells := [];
    var y := lo;
    while y < hi
      invariant y == lo || lo <= y <= hi
      invariant forall p :: p in cells <==> lo <= p.x < hi && lo <= p.y < y && m.grid[p.y][p.x] == kind
    {
      var x := lo;
      while x < hi
        invariant lo <= x <= hi
        invariant forall p :: p in cells <==>
          (lo <= p.x < hi && lo <= p.y < y && m.grid[p.y][p.x] == kind) || (p.y == y && lo <= p.x < x && m.grid[p.y][p.x] == kind)
      {
        if m.grid[y][x] == kind {
          cells := cells + [Position(x, y)];
        }
        x := x + 1;
      }
      y := y + 1;
    }
  }

  /**
   * `destroyRandomWall`: with no wall cell, the same state; otherwise one
   * wall cell, any of them, becomes FLOOR in a cloned grid.
   */
  method DestroyRandomWall(m: MazeState) returns (r: MazeState)
    requires WellFormed(m)
    ensures !AnyWall(m) ==> r == m
    ensures AnyWall(m) ==> exists p :: WallDestroyedAt(m, r, p)
  {
    var wallPositions := CollectCells(m, 0, m.size, WALL);
    if |wallPositions| == 0 {
      return m;
    }
    var i :| 0 <= i < |wallPositions|;
    var randomWall := wallPositions[i];
    assert randomWall in wallPositions;
    var newGrid := m.grid[randomWall.y := m.grid[randomWall.y][randomWall.x := FLOOR]];
    r := m.(grid := newGrid);
    assert WallDestroyedAt(m, r, randomWall);
  }

  /** An interior FLOOR cell: not on the outer ring. */
  predicate InteriorFloor(m: MazeState, p: Position)
    requires WellFormed(m)
  {
    1 <= p.x < m.size - 1 && 1 <= p.y < m.size - 1 && m.grid[p.y][p.x] == FLOOR
  }

  /** `getRandomEmptyPosition`: some interior FLOOR cell, or (1,1) when there is none. */
  method GetRandomEmptyPosition(m: MazeState) returns (p: Position)
    requires WellFormed(m)
    ensures (exists q :: InteriorFloor(m, q)) ==> InteriorFloor(m, p)
    ensures (forall q :: !InteriorFloor(m, q)) ==> p == Position(1, 1)
  {
    var emptyPositions := CollectCells(m, 1, m.size - 1, FLOOR);
    if |emptyPositions| == 0 {
      return Position(1, 1);
    }
    var i :| 0 <= i < |emptyPositions|;
    p := emptyPositions[i];
    assert p in emptyPositions;
    assert InteriorFloor(m, p);
  }

  /**
   * `applyAIMove`: a pass leaves the state as it is; a wall move appends
   * one HORIZONTAL wall of the named type at (x, z), and an unknown type
   * name is the `valueOf` exception (`None`).
   */
  function ApplyAIMove(m: MazeState, aiMove: AIMove): (r: Option<MazeState>)
    ensures !aiMove.isWall ==> r == Some(m)
    ensures aiMove.isWall ==> (r.None? <==> ParseWallType(Upper(aiMove.wallType)).None?)
    ensures r.Some? ==> r.value.size == m.size && r.value.grid == m.grid && r.value.exitPosition == m.exitPosition
    ensures r.Some? && aiMove.isWall ==>
      r.value.walls == m.walls + [WallData(Position(aiMove.x, aiMove.z), ParseWallType(Upper(aiMove.wallType)).value, HORIZONTAL)]
  {
    if !aiMove.isWall then Some(m)
    else
      match ParseWallType(Upper(aiMove.wallType))
      case None => None
      case Some(t) => Some(m.(walls := m.walls + [WallData(Position(aiMove.x, aiMove.z), t, HORIZONTAL)]))
  }

  /** A wall move that names its type in lower case, as the renderer does, is always applied. */
  lemma LowerCaseWallMoveApplies(m: MazeState, x: int, z: int, t: WallType)
    ensures ApplyAIMove(m, AIMove(x, z, true, Lower(Name(t)))) == Some(m.(walls := m.walls + [WallData(Position(x, z), t, HORIZONTAL)]))
  {
    UpperOfLowerName(t);
  }
}
