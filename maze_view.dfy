/**
 * `MazeView` (MazeView.kt): the single-player cell maze.  The view holds a
 * square 0/2 grid from `MazeGenerator.generate`, the player's cell and the
 * exit cell.  A tap moves the player one cell; after every move that does not
 * reach the exit, `AIWallEngine.placeWall` closes a cell next to the player.
 * Two skills knock down a random wall or teleport the player to a random
 * corridor cell.
 */
module MazeView {
  import opened MazeGenerator
  import opened AIWallEngine
  import opened Wrappers
  import KotlinInt


  /**
   * The cells in rows [rowLo, rowHi) and columns [colLo, colHi) whose value
   * is `v`, row by row (the list the skill loops build before their random
   * pick).
   */
  method CollectCells(maze: array2<int>, rowLo: int, rowHi: int, colLo: int, colHi: int, v: int)
    returns (cells: seq<(int, int)>)
    requires 0 <= rowLo && rowHi <= maze.Length0 && 0 <= colLo && colHi <= maze.Length1
    ensures forall p :: p in cells <==>
      rowLo <= p.0 < rowHi && colLo <= p.1 < colHi && maze[p.0, p.1] == v
  {
    cells := [];
    var i := rowLo;
    while i < rowHi
      invariant rowLo <= i && (rowLo <= rowHi ==> i <= rowHi)
      invariant forall p :: p in cells <==>
        rowLo <= p.0 < rowHi && p.0 < i && colLo <= p.1 < colHi && maze[p.0, p.1] == v
    {
      var j := colLo;
      while j < colHi
        invariant colLo <= j && (colLo <= colHi ==> j <= colHi)
        invariant forall p :: p in cells <==>
          rowLo <= p.0 < rowHi && colLo <= p.1 < colHi && maze[p.0, p.1] == v && (p.0 < i || (p.0 == i && p.1 < j))
      {
        if maze[i, j] == v {
          cells := cells + [(i, j)];
        }
        j := j + 1;
      }
      i := i + 1;
    }
  }

  class MazeView {
    const mazeSize: int
    /** The grid; the field is never reassigned, only its cells are written. */
    const maze: array2<int>
    var playerX: int
    var playerY: int
    const exitX: int
    const exitY: int

    /**
     * The maze is mazeSize x mazeSize and holds only 0 and 2, the player
     * stands on a cell of it, and the exit is (mazeSize-2, mazeSize-2).
     */
    ghost predicate Valid()
      reads this, maze
    {
      && 2 <= mazeSize
      && maze.Length0 == mazeSize && maze.Length1 == mazeSize
      && 0 <= playerX < mazeSize && 0 <= playerY < mazeSize
      && exitX == mazeSize - 2 && exitY == mazeSize - 2
      && forall a, b | 0 <= a < mazeSize && 0 <= b < mazeSize :: maze[a, b] == 0 || maze[a, b] == 2
    }

    /** Initial state: a generated maze, the player at (1, 1), the exit at (mazeSize-2, mazeSize-2). */
    constructor(size: int)
      requires 2 <= size
      ensures Valid() && fresh(maze)
      ensures mazeSize == size && playerX == 1 && playerY == 1
      ensures forall a, b | 0 <= a < size && 0 <= b < size :: maze[a, b] == GeneratedCell(size, size, a, b)
    {
      mazeSize := size;
      var m := Generate(size, size);
      maze := m;
      playerX, playerY := 1, 1;
      exitX, exitY := size - 2, size - 2;
      new;
      forall a, b | 0 <= a < size && 0 <= b < size
        ensures maze[a, b] == 0 || maze[a, b] == 2
      {
        GeneratedShape(size, size, a, b);
      }
    }

    /** The tap rule: an in-bounds target, one step away (Manhattan), that is not a wall. */
    predicate StepAllowed(x: int, y: int)
      reads this, maze
      requires Valid()
    {
      0 <= x < mazeSize && 0 <= y < mazeSize && KotlinInt.AbsValue(x - playerX) + KotlinInt.AbsValue(y - playerY) == 1 && maze[x, y] != 2
    }

    /**
     * `movePlayerToward(x, y)`, with `order` the shuffle `placeWall` uses.  A
     * refused step changes nothing; an allowed one moves the player to
     * exactly (x, y); then, unless (x, y) is the exit, the maze gains the
     * wall `placeWall` chooses around the new position.
     */
    method MovePlayerToward(x: int, y: int, order: seq<int>)
      requires Valid() && IsShuffle(order)
      modifies this, maze
      ensures Valid()
      ensures !old(StepAllowed(x, y)) ==>
        playerX == old(playerX) && playerY == old(playerY) &&
        forall a, b | 0 <= a < mazeSize && 0 <= b < mazeSize :: maze[a, b] == old(maze[a, b])
      ensures old(StepAllowed(x, y)) ==> playerX == x && playerY == y
      ensures old(StepAllowed(x, y)) && x == exitX && y == exitY ==>
        forall a, b | 0 <= a < mazeSize && 0 <= b < mazeSize :: maze[a, b] == old(maze[a, b])
      ensures old(StepAllowed(x, y)) && (x != exitX || y != exitY) ==>
        forall a, b | 0 <= a < mazeSize && 0 <= b < mazeSize ::
          maze[a, b] == if old(FirstFree(maze, (x, y), order, 0)) == Some((a, b)) then 2 else old(maze[a, b])
    {
      if !(0 <= x < mazeSize && 0 <= y < mazeSize) {
        return;
      }
      if KotlinInt.AbsValue(x - playerX) + KotlinInt.AbsValue(y - playerY) != 1 {
        return;
      }
      if maze[x, y] == 2 {
        return;
      }
      playerX, playerY := x, y;
      if playerX == exitX && playerY == exitY {
        return;
      }
      PlaceWall(maze, (playerX, playerY), (exitX, exitY), order);
    }

    /**
     * `destroyRandomWall`: when the maze has a wall cell, one of them (any)
     * becomes 0 and no other cell changes; otherwise nothing changes.
     */
    method DestroyRandomWall()
      requires Valid()
      modifies maze
      ensures Valid()
      ensures (forall a, b | 0 <= a < mazeSize && 0 <= b < mazeSize :: old(maze[a, b]) != 2) ==>
        forall a, b | 0 <= a < mazeSize && 0 <= b < mazeSize :: maze[a, b] == old(maze[a, b])
      ensures (exists a, b | 0 <= a < mazeSize && 0 <= b < mazeSize :: old(maze[a, b]) == 2) ==>
        exists a, b | 0 <= a < mazeSize && 0 <= b < mazeSize ::
          old(maze[a, b]) == 2 &&
          forall a', b' | 0 <= a' < mazeSize && 0 <= b' < mazeSize ::
            maze[a', b'] == if (a', b') == (a, b) then 0 else old(maze[a', b'])
    {
      var walls := CollectCells(maze, 0, maze.Length0, 0, maze.Length1, 2);
      if |walls| > 0 {
        var k :| 0 <= k < |walls|;
        var rand := walls[k];
        maze[rand.0, rand.1] := 0;
        assert rand in walls;
      }
    }

    /**
     * `teleportRandom`: when some interior cell (rows and columns
     * 1..mazeSize-2) is 0, the player lands on one of them (any); otherwise
     * the player stays.  The maze is untouched.
     */
    method TeleportRandom()
      requires Valid()
      modifies this
      ensures Valid()
      ensures (forall a, b | 1 <= a < mazeSize - 1 && 1 <= b < mazeSize - 1 :: maze[a, b] != 0) ==>
        playerX == old(playerX) && playerY == old(playerY)
      ensures (exists a, b | 1 <= a < mazeSize - 1 && 1 <= b < mazeSize - 1 :: maze[a, b] == 0) ==>
        1 <= playerX < mazeSize - 1 && 1 <= playerY < mazeSize - 1 && maze[playerX, playerY] == 0
    {
      var empty := CollectCells(maze, 1, mazeSize - 1, 1, mazeSize - 1, 0);
      if |empty| > 0 {
        var k :| 0 <= k < |empty|;
        var rand := empty[k];
        assert rand in empty;
        playerX, playerY := rand.0, rand.1;
      } else {
        forall a, b | 1 <= a < mazeSize - 1 && 1 <= b < mazeSize - 1
          ensures maze[a, b] != 0
        {
          assert (a, b) !in empty;
        }
      }
    }
  }
}
