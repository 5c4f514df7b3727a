/**
 * `MazeGenerator.generate` (MazeGenerator.kt): a width x height grid of Ints
 * where 2 is a wall and 0 a corridor.  Every cell on an even row or even
 * column is a wall; then the cells (1, 1) and (width-2, height-2) are opened.
 */
module MazeGenerator {
  const WALL: int := 2
  const OPEN: int := 0

  /** The value the nested loops write: a wall on every even row and every even column. */
  function Pattern(i: int, j: int): int {
    if i % 2 == 0 || j % 2 == 0 then WALL else OPEN
  }

  /** The two cells opened after the loops. */
  predicate IsCorridorEnd(width: int, height: int, i: int, j: int) {
    (i == 1 && j == 1) || (i == width - 2 && j == height - 2)
  }

  /** The generated value of cell [i][j]. */
  function GeneratedCell(width: int, height: int, i: int, j: int): int {
    if IsCorridorEnd(width, height, i, j) then OPEN else Pattern(i, j)
  }

  /**
   * `generate(width, height)`.  The two final writes index [1][1] and
   * [width-2][height-2], which exist only when both sizes are at least 2.
   */
  method Generate(width: int, height: int) returns (maze: array2<int>)
    requires 2 <= width && 2 <= height
    ensures fresh(maze)
    ensures maze.Length0 == width && maze.Length1 == height
    ensures forall i, j | 0 <= i < width && 0 <= j < height :: maze[i, j] == GeneratedCell(width, height, i, j)
  {
    maze := new int[width, height]((i, j) => OPEN);
    var i := 0;
    while i < width
      invariant 0 <= i <= width
      invariant forall a, b | 0 <= a < width && 0 <= b < height :: maze[a, b] == if a < i then Pattern(a, b) else OPEN
    {
      var j := 0;
      while j < height
        invariant 0 <= j <= height
        invariant forall a, b | 0 <= a < width && 0 <= b < height ::
          maze[a, b] == if a < i || (a == i && b < j) then Pattern(a, b) else OPEN
      {
        if i % 2 == 0 || j % 2 == 0 {
          maze[i, j] := WALL;
        }
        j := j + 1;
      }
      i := i + 1;
    }
    maze[1, 1] := OPEN;
    maze[width - 2, height - 2] := OPEN;
  }

  /**
   * The shape of a generated maze: every cell is 0 or 2; a cell is a wall
   * exactly when it lies on an even row or column and is not one of the two
   * opened cells; both opened cells are corridors.
   */
  lemma GeneratedShape(width: int, height: int, i: int, j: int)
    requires 2 <= width && 2 <= height
    ensures GeneratedCell(width, height, i, j) == OPEN || GeneratedCell(width, height, i, j) == WALL
    ensures GeneratedCell(width, height, i, j) == WALL <==>
      (i % 2 == 0 || j % 2 == 0) && !IsCorridorEnd(width, height, i, j)
    ensures GeneratedCell(width, height, 1, 1) == OPEN
    ensures GeneratedCell(width, height, width - 2, height - 2) == OPEN
  {
  }

  /** With odd sizes (at least 3) the whole border is wall, so the maze is closed. */
  lemma {:induction false} OddMazeHasClosedBorder(width: int, height: int, i: int, j: int)
    requires 3 <= width && 3 <= height && width % 2 == 1 && height % 2 == 1
    requires 0 <= i < width && 0 <= j < height
    requires i == 0 || i == width - 1 || j == 0 || j == height - 1
    ensures GeneratedCell(width, height, i, j) == WALL
  {
    assert !IsCorridorEnd(width, height, i, j);
    if i == width - 1 {
      assert i % 2 == 0;
    } else if j == height - 1 {
      assert j % 2 == 0;
    }
  }
}
