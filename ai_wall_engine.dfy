/**
 * `AIWallEngine.placeWall` (AIWallEngine.kt): in a shuffled order of the four
 * directions, turn the first in-bounds corridor cell (0) next to the player
 * into a wall (2), and stop.  The shuffle is the `order` parameter, any
 * arrangement of the four directions.
 */
module AIWallEngine {
  import opened Wrappers

  /** The direction list before shuffling. */
  const DIRECTIONS: seq<(int, int)> := [(1, 0), (-1, 0), (0, 1), (0, -1)]

  /** `order` is an arrangement of the four direction indices. */
  predicate IsShuffle(order: seq<int>) {
    && |order| == 4
    && (forall k | 0 <= k < 4 :: 0 <= order[k] < 4)
    && (forall a, b | 0 <= a < b < 4 :: order[a] != order[b])
  }

  function Target(p: (int, int), d: int): (int, int)
    requires 0 <= d < 4
  {
    (p.0 + DIRECTIONS[d].0, p.1 + DIRECTIONS[d].1)
  }

  predicate Adjacent(p: (int, int), q: (int, int)) {
    (if p.0 < q.0 then q.0 - p.0 else p.0 - q.0) + (if p.1 < q.1 then q.1 - p.1 else p.1 - q.1) == 1
  }

  /** An in-bounds corridor cell. */
  predicate IsFree(maze: array2<int>, q: (int, int))
    reads maze
  {
    0 <= q.0 < maze.Length0 && 0 <= q.1 < maze.Length1 && maze[q.0, q.1] == 0
  }

  /** The cell the wall goes on: the first direction, from position `k` of the shuffle on, whose cell is free. */
  function FirstFree(maze: array2<int>, p: (int, int), order: seq<int>, k: nat): Option<(int, int)>
    requires IsShuffle(order) && k <= 4
    reads maze
    decreases 4 - k
  {
    if k == 4 then None
    else if IsFree(maze, Target(p, order[k])) then Some(Target(p, order[k]))
    else FirstFree(maze, p, order, k + 1)
  }

  lemma ShuffleCoversAll(order: seq<int>, d: int)
    requires IsShuffle(order) && 0 <= d < 4
    ensures exists k | 0 <= k < 4 :: order[k] == d
  {
    if order[0] != d && order[1] != d && order[2] != d {
      // the other three take three distinct values besides d, so the fourth is d
      assert order[3] == d;
    }
  }

  lemma {:induction false} FirstFreeFrom(maze: array2<int>, p: (int, int), order: seq<int>, k: nat)
    requires IsShuffle(order) && k <= 4
    ensures FirstFree(maze, p, order, k) == None <==> forall m | k <= m < 4 :: !IsFree(maze, Target(p, order[m]))
    ensures FirstFree(maze, p, order, k).Some? ==>
      exists m | k <= m < 4 :: FirstFree(maze, p, order, k).value == Target(p, order[m])
    decreases 4 - k
  {
    if k < 4 {
      FirstFreeFrom(maze, p, order, k + 1);
    }
  }

  /**
   * Whatever the shuffle: no wall is placed exactly when no in-bounds
   * neighbour of the player is a corridor; otherwise the chosen cell is an
   * in-bounds corridor cell 4-adjacent to the player.
   */
  lemma FirstFreeSpec(maze: array2<int>, p: (int, int), order: seq<int>)
    requires IsShuffle(order)
    ensures FirstFree(maze, p, order, 0) == None <==> forall d | 0 <= d < 4 :: !IsFree(maze, Target(p, d))
    ensures FirstFree(maze, p, order, 0).Some? ==>
      IsFree(maze, FirstFree(maze, p, order, 0).value) && Adjacent(p, FirstFree(maze, p, order, 0).value)
  {
    FirstFreeFrom(maze, p, order, 0);
    forall d | 0 <= d < 4 && FirstFree(maze, p, order, 0) == None
      ensures !IsFree(maze, Target(p, d))
    {
      ShuffleCoversAll(order, d);
    }
    if FirstFree(maze, p, order, 0).Some? {
      FirstFreeChosenIsFree(maze, p, order, 0);
    }
  }

  lemma {:induction false} FirstFreeChosenIsFree(maze: array2<int>, p: (int, int), order: seq<int>, k: nat)
    requires IsShuffle(order) && k <= 4
    requires FirstFree(maze, p, order, k).Some?
    ensures IsFree(maze, FirstFree(maze, p, order, k).value)
    ensures Adjacent(p, FirstFree(maze, p, order, k).value)
    decreases 4 - k
  {
    if !IsFree(maze, Target(p, order[k])) {
      FirstFreeChosenIsFree(maze, p, order, k + 1);
    }
  }

  /**
   * `placeWall`: the maze afterwards is the old maze with the first free
   * neighbour (in shuffle order) turned into a wall, and nothing else
   * changed; `enemyPos` plays no part.
   */
  method PlaceWall(maze: array2<int>, playerPos: (int, int), enemyPos: (int, int), order: seq<int>)
    requires IsShuffle(order)
    modifies maze
    ensures forall x, y | 0 <= x < maze.Length0 && 0 <= y < maze.Length1 ::
      maze[x, y] == if old(FirstFree(maze, playerPos, order, 0)) == Some((x, y)) then 2 else old(maze[x, y])
  {
    var k := 0;
    while k < 4
      invariant 0 <= k <= 4
      invariant forall x, y | 0 <= x < maze.Length0 && 0 <= y < maze.Length1 :: maze[x, y] == old(maze[x, y])
      invariant FirstFree(maze, playerPos, order, 0) == FirstFree(maze, playerPos, order, k)
    {
      var dir := DIRECTIONS[order[k]];
      var wallX := playerPos.0 + dir.0;
      var wallY := playerPos.1 + dir.1;
      if 0 <= wallX < maze.Length0 && 0 <= wallY < maze.Length1 && maze[wallX, wallY] == 0 {
        maze[wallX, wallY] := 2;
        break;
      }
      k := k + 1;
    }
  }
}
