/**
 * `MazeRaceEngine` (MazeRaceEngine.kt): two players race through two
 * generated mazes; after every move the wall engine closes a cell next to
 * each player, and the first player on the exit wins.  The `ScoreBoard`
 * calls are recorded as a list of announcements.
 */
module MazeRaceEngine {
  import opened Wrappers
  import MazeGenerator
  import AIWallEngine

  /** What the race tells the `ScoreBoard`. */
  datatype Announcement = RaceStart | Winner(player: int)

  class MazeRaceEngine {
    var player1Maze: array2<int>
    var player2Maze: array2<int>
    var player1Pos: (int, int)
    var player2Pos: (int, int)
    var exit: (int, int)
    var raceOver: bool
    /** The `ScoreBoard` calls made so far, oldest first. */
    var announcements: seq<Announcement>
    /** The `lateinit` fields have been assigned by `startRace`. */
    ghost var started: bool

    /** The two players never share a maze once the race has started. */
    ghost predicate Valid()
      reads this
    {
      started ==> player1Maze != player2Maze
    }

    /** A fresh engine: no race yet, so the `lateinit` fields hold nothing usable. */
    constructor()
      ensures Valid() && !started && !raceOver && announcements == []
    {
      player1Maze := new int[0, 0];
      player2Maze := new int[0, 0];
      player1Pos := (0, 0);
      player2Pos := (0, 0);
      exit := (0, 0);
      raceOver := false;
      announcements := [];
      started := false;
    }

    /**
     * `startRace`: two freshly generated `size`×`size` mazes, both players
     * on (1,1), the exit on (size-2, size-2), and the race open again.
     */
    method StartRace(size: int)
      requires 2 <= size
      modifies this
      ensures Valid() && started && !raceOver
      ensures fresh(player1Maze) && fresh(player2Maze)
      ensures player1Maze.Length0 == size && player1Maze.Length1 == size
      ensures player2Maze.Length0 == size && player2Maze.Length1 == size
      ensures forall i, j | 0 <= i < size && 0 <= j < size ::
        player1Maze[i, j] == MazeGenerator.GeneratedCell(size, size, i, j) &&
        player2Maze[i, j] == MazeGenerator.GeneratedCell(size, size, i, j)
      ensures player1Pos == (1, 1) && player2Pos == (1, 1) && exit == (size - 2, size - 2)
      ensures announcements == old(announcements) + [RaceStart]
    {
      player1Maze := MazeGenerator.Generate(size, size);
      player2Maze := MazeGenerator.Generate(size, size);
      player1Pos := (1, 1);
      player2Pos := (1, 1);
      exit := (size - 2, size - 2);
      raceOver := false;
      started := true;
      announcements := announcements + [RaceStart];
    }

    /**
     * `updatePlayerPos`: once the race is over, nothing.  Otherwise player 1
     * moves when `player` is 1 and player 2 for any other value; the wall
     * engine then closes one free neighbour of each player in that player's
     * maze (in the shuffle orders `order1` and `order2`); and the race ends
     * as soon as a player stands on the exit, player 1 first.
     */
    method UpdatePlayerPos(player: int, pos: (int, int), order1: seq<int>, order2: seq<int>)
      requires Valid() && started
      requires AIWallEngine.IsShuffle(order1) && AIWallEngine.IsShuffle(order2)
      modifies this, player1Maze, player2Maze
      ensures Valid() && started == old(started)
      ensures player1Maze == old(player1Maze) && player2Maze == old(player2Maze) && exit == old(exit)
      ensures old(raceOver) ==>
        raceOver && player1Pos == old(player1Pos) && player2Pos == old(player2Pos) &&
        announcements == old(announcements) &&
        unchanged(player1Maze) && unchanged(player2Maze)
      ensures !old(raceOver) ==>
        && player1Pos == (if player == 1 then pos else old(player1Pos))
        && player2Pos == (if player == 1 then old(player2Pos) else pos)
        && (forall x, y | 0 <= x < player1Maze.Length0 && 0 <= y < player1Maze.Length1 ::
              player1Maze[x, y] == if old(AIWallEngine.FirstFree(player1Maze, if player == 1 then pos else player1Pos, order1, 0)) == Some((x, y)) then 2 else old(player1Maze[x, y]))
        && (forall x, y | 0 <= x < player2Maze.Length0 && 0 <= y < player2Maze.Length1 ::
              player2Maze[x, y] == if old(AIWallEngine.FirstFree(player2Maze, if player == 1 then player2Pos else pos, order2, 0)) == Some((x, y)) then 2 else old(player2Maze[x, y]))
        && (raceOver <==> player1Pos == exit || player2Pos == exit)
        && announcements == old(announcements) +
             (if player1Pos == exit then [Winner(1)] else if player2Pos == exit then [Winner(2)] else [])
    {
      if raceOver {
        return;
      }
      if player == 1 {
        player1Pos := pos;
      } else {
        player2Pos := pos;
      }
      AIWallEngine.PlaceWall(player1Maze, player1Pos, exit, order1);
      AIWallEngine.PlaceWall(player2Maze, player2Pos, exit, order2);
      if player1Pos == exit {
        raceOver := true;
        announcements := announcements + [Winner(1)];
      } else if player2Pos == exit {
        raceOver := true;
        announcements := announcements + [Winner(2)];
      }
    }
  }
}
