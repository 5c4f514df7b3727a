/**
 * viewmodel/GameViewModel.kt: the four state holders (`gameState`,
 * `mazeState`, `playerState`, `audioState`) become fields of a class, and
 * each coroutine the view model launches becomes a sequential method call.
 * Saving to the repository is left out; asking it for an AI move is not.
 */
module GameViewModel {
  import opened Wrappers
  import opened GameModels
  import opened GameRepository
  import MazeGenerator
  import KotlinInt

  /** The direction opposite to `d`. */
  function Opposite(d: Direction): Direction {
    match d
    case UP => DOWN
    case DOWN => UP
    case LEFT => RIGHT
    case RIGHT => LEFT
  }

  /** `calculateNewPosition`: one step in `direction`, with UP towards smaller `y`, in wrapping Int arithmetic. */
  function CalculateNewPosition(current: Position, direction: Direction): (r: Position)
    requires KotlinInt.InRange(current.x) && KotlinInt.InRange(current.y)
    ensures KotlinInt.InRange(r.x) && KotlinInt.InRange(r.y)
    ensures direction == UP || direction == DOWN ==> r.x == current.x
    ensures direction == LEFT || direction == RIGHT ==> r.y == current.y
    ensures direction == UP && current.y > KotlinInt.INT_MIN ==> r.y == current.y - 1
    ensures direction == DOWN && current.y < KotlinInt.INT_MAX ==> r.y == current.y + 1
    ensures direction == LEFT && current.x > KotlinInt.INT_MIN ==> r.x == current.x - 1
    ensures direction == RIGHT && current.x < KotlinInt.INT_MAX ==> r.x == current.x + 1
  {
    match direction
    case UP => current.(y := KotlinInt.Sub(current.y, 1))
    case DOWN => current.(y := KotlinInt.Add(current.y, 1))
    case LEFT => current.(x := KotlinInt.Sub(current.x, 1))
    case RIGHT => current.(x := KotlinInt.Add(current.x, 1))
  }

  /** One Int step up then one down (wrapping) gives the Int back. */
  lemma IncDecCancel(a: int)
    requires KotlinInt.InRange(a)
    ensures KotlinInt.Sub(KotlinInt.Add(a, 1), 1) == a
    ensures KotlinInt.Add(KotlinInt.Sub(a, 1), 1) == a
  {
    if a == KotlinInt.INT_MAX {
      KotlinInt.MaxPlusOneWraps();
      assert KotlinInt.INT_MIN - 1 - KotlinInt.INT_MIN + KotlinInt.MODULUS == KotlinInt.MODULUS - 1;
    }
    if a == KotlinInt.INT_MIN {
      assert KotlinInt.INT_MIN - 1 - KotlinInt.INT_MIN + KotlinInt.MODULUS == KotlinInt.MODULUS - 1;
      KotlinInt.MaxPlusOneWraps();
    }
  }

  /** A step followed by a step in the opposite direction returns to the start, even across the Int wrap. */
  lemma StepBackReturns(p: Position, d: Direction)
    requires KotlinInt.InRange(p.x) && KotlinInt.InRange(p.y)
    ensures CalculateNewPosition(CalculateNewPosition(p, d), Opposite(d)) == p
  {
    IncDecCancel(p.x);
    IncDecCancel(p.y);
  }

  /** `isValidMove`: the bounds test inside `hasWallAt` is redundant; a move is valid onto an in-bounds FLOOR cell only. */
  predicate IsValidMove(position: Position, maze: MazeState)
    requires WellFormed(maze)
    ensures IsValidMove(position, maze) <==>
      0 <= position.x < maze.size && 0 <= position.y < maze.size && maze.grid[position.y][position.x] == FLOOR
  {
    IsPositionValid(maze, position) && !HasWallAt(maze, position)
  }

  /** `canUseSkill`: a missing cooldown entry counts as 0. */
  predicate CanUseSkill(player: PlayerState, skill: Skill)
    ensures CanUseSkill(player, skill) <==> skill !in player.skillCooldowns || player.skillCooldowns[skill] <= 0
  {
    (if skill in player.skillCooldowns then player.skillCooldowns[skill] else 0) <= 0
  }

  /** The cooldown `useSkill` records for `skill`. */
  function AfterSkill(player: PlayerState, skill: Skill): PlayerState {
    player.(skillCooldowns := player.skillCooldowns[skill := skill.CooldownTurns()])
  }

  /**
   * No code lowers a cooldown, so once used a skill stays unusable; using
   * one skill does not touch the others.
   */
  lemma SkillUsableOnlyOnce(player: PlayerState, skill: Skill, other: Skill)
    ensures !CanUseSkill(AfterSkill(player, skill), skill)
    ensures other != skill ==> (CanUseSkill(AfterSkill(player, skill), other) <==> CanUseSkill(player, other))
  {
  }

  function Max(a: int, b: int): int { if a < b then b else a }

  /**
   * `calculateScore`: 1000 minus 10 per move (Int arithmetic), plus one
   * point per whole second left of a five-minute bonus (Long arithmetic).
   * The source's declared `Int` result is given a `Long` sum; the value
   * here is that sum, not narrowed to 32 bits.
   */
  function CalculateScore(player: PlayerState, game: GameState): (r: int)
    requires KotlinInt.InRange(player.moveCount) && KotlinInt.LongInRange(game.elapsedTimeMs)
    ensures KotlinInt.Sub(1000, KotlinInt.Mul(player.moveCount, 10)) <= r
    ensures 0 <= game.elapsedTimeMs ==> r <= KotlinInt.Sub(1000, KotlinInt.Mul(player.moveCount, 10)) + 300
    ensures 0 <= player.moveCount <= 214_748_364 && 0 <= game.elapsedTimeMs ==>
      r == 1000 - 10 * player.moveCount + (if game.elapsedTimeMs < 300_000 then (300_000 - game.elapsedTimeMs) / 1000 else 0)
  {
    var movesPenalty := KotlinInt.Mul(player.moveCount, 10);
    var timeBonusMs := Max(0, KotlinInt.WrapLong(300_000 - game.elapsedTimeMs));
    KotlinInt.Sub(1000, movesPenalty) + timeBonusMs / 1000
  }

  /** Every extra move costs exactly ten points while the penalty fits in an Int. */
  lemma ScoreFallsWithMoves(player: PlayerState, game: GameState, extra: nat)
    requires 0 <= player.moveCount && player.moveCount + extra <= 214_748_364
    requires 0 <= game.elapsedTimeMs <= KotlinInt.LONG_MAX
    ensures CalculateScore(player.(moveCount := player.moveCount + extra), game) == CalculateScore(player, game) - 10 * extra
  {
  }

  /** Taking longer never raises the score. */
  lemma ScoreFallsWithTime(player: PlayerState, game: GameState, later: int)
    requires 0 <= player.moveCount <= 214_748_364
    requires 0 <= game.elapsedTimeMs <= later <= KotlinInt.LONG_MAX
    ensures CalculateScore(player, game.(elapsedTimeMs := later)) <= CalculateScore(player, game)
  {
    if later < 300_000 {
      DivMonotone(300_000 - later, 300_000 - game.elapsedTimeMs);
    }
  }

  lemma DivMonotone(a: nat, b: nat)
    requires a <= b
    ensures a / 1000 <= b / 1000
  {
  }

  /** The four states right after `startNewGame`: initial values and a freshly generated 11×11 maze. */
  ghost predicate IsNewGame(game: GameState, maze: MazeState, player: PlayerState, audio: AudioState) {
    && game == INITIAL_GAME && player == INITIAL_PLAYER && audio == INITIAL_AUDIO
    && WellFormed(maze) && maze.size == 11 && maze.walls == [] && maze.exitPosition == Position(9, 9)
    && forall y, x | 0 <= y < 11 && 0 <= x < 11 ::
      maze.grid[y][x] == WALL <==> (y % 2 == 0 || x % 2 == 0) && !MazeGenerator.IsCorridorEnd(11, 11, y, x)
  }

  class GameViewModel {
    var gameState: GameState
    var mazeState: MazeState
    var playerState: PlayerState
    var audioState: AudioState

    /** What Kotlin's types guarantee and the game keeps: Int and Long fields in range and a square grid. */
    ghost predicate Valid()
      reads this
    {
      && WellFormed(mazeState) && KotlinInt.InRange(mazeState.size)
      && KotlinInt.InRange(playerState.moveCount)
      && KotlinInt.InRange(playerState.position.x) && KotlinInt.InRange(playerState.position.y)
      && KotlinInt.LongInRange(gameState.elapsedTimeMs)
    }

    /** The state holders start from their initial values, then `init` starts a new game (no saved game). */
    constructor()
      ensures Valid()
      ensures IsNewGame(gameState, mazeState, playerState, audioState)
    {
      gameState := INITIAL_GAME;
      mazeState := Empty();
      playerState := INITIAL_PLAYER;
      audioState := INITIAL_AUDIO;
      new;
      StartNewGame();
    }

    /** `startNewGame`. */
    method StartNewGame()
      modifies this
      ensures Valid()
      ensures IsNewGame(gameState, mazeState, playerState, audioState)
    {
      gameState := INITIAL_GAME;
      mazeState := GameModels.Generate(11);
      playerState := INITIAL_PLAYER;
      audioState := INITIAL_AUDIO;
    }

    /** `checkVictoryCondition`: on the exit the game is won with the current score. */
    method CheckVictoryCondition()
      requires Valid()
      modifies this
      ensures Valid()
      ensures mazeState == old(mazeState) && playerState == old(playerState)
      ensures playerState.position == mazeState.exitPosition ==>
        gameState == old(gameState).(isGameWon := true, finalScore := CalculateScore(playerState, old(gameState))) &&
        audioState == old(audioState).(lastSound := Some(VICTORY))
      ensures playerState.position != mazeState.exitPosition ==>
        gameState == old(gameState) && audioState == old(audioState)
    {
      if playerState.position == mazeState.exitPosition {
        gameState := gameState.(isGameWon := true, finalScore := CalculateScore(playerState, gameState));
        audioState := audioState.(lastSound := Some(VICTORY));
      }
    }

    /**
     * `triggerAIMove`: the repository's placeholder AI always passes, so
     * the maze is left as it is.
     */
    method TriggerAIMove()
      requires Valid()
      modifies this
      ensures mazeState == old(mazeState)
      ensures gameState == old(gameState) && playerState == old(playerState) && audioState == old(audioState)
    {
      var aiMove := CalculateAIMove(mazeState, playerState);
      if aiMove.Some? {
        AIMoveNeverChangesMaze(mazeState, playerState);
        var next := ApplyAIMove(mazeState, aiMove.value);
        if next.Some? {
          mazeState := next.value;
        }
      }
    }

    /**
     * `movePlayer`: a valid step moves the player and counts one move, then
     * checks for victory; an invalid one only plays the wall-hit sound.
     */
    method MovePlayer(direction: Direction)
      requires Valid()
      modifies this
      ensures Valid()
      ensures mazeState == old(mazeState)
      ensures
        var target := CalculateNewPosition(old(playerState.position), direction);
        if IsValidMove(target, old(mazeState)) then
          playerState == old(playerState).(position := target, moveCount := KotlinInt.Add(old(playerState.moveCount), 1)) &&
          if target == old(mazeState.exitPosition) then
            gameState == old(gameState).(isGameWon := true, finalScore := CalculateScore(playerState, old(gameState))) &&
            audioState == old(audioState).(lastSound := Some(VICTORY))
          else
            gameState == old(gameState) && audioState == old(audioState).(lastSound := Some(STEP))
        else
          playerState == old(playerState) && gameState == old(gameState) &&
          audioState == old(audioState).(lastSound := Some(WALL_HIT))
    {
      var currentPlayer := playerState;
      var newPosition := CalculateNewPosition(currentPlayer.position, direction);
      if IsValidMove(newPosition, mazeState) {
        playerState := currentPlayer.(position := newPosition, moveCount := KotlinInt.Add(currentPlayer.moveCount, 1));
        audioState := audioState.(lastSound := Some(STEP));
        CheckVictoryCondition();
        TriggerAIMove();
      } else {
        audioState := audioState.(lastSound := Some(WALL_HIT));
      }
    }

    /**
     * `useSkill`: an unusable skill changes nothing.  A usable one acts
     * (WALL_DESTROYER removes one random wall, TELEPORT moves the player
     * to a random interior FLOOR cell, EXIT_SCANNER reveals the exit),
     * plays the skill sound, and starts that skill's cooldown alone.
     */
    method UseSkill(skill: Skill)
      requires Valid()
      modifies this
      ensures Valid()
      ensures !CanUseSkill(old(playerState), skill) ==>
        gameState == old(gameState) && mazeState == old(mazeState) &&
        playerState == old(playerState) && audioState == old(audioState)
      ensures CanUseSkill(old(playerState), skill) ==>
        && playerState.skillCooldowns == old(playerState.skillCooldowns)[skill := skill.CooldownTurns()]
        && playerState.character == old(playerState.character) && playerState.moveCount == old(playerState.moveCount)
        && audioState == old(audioState).(lastSound := Some(SKILL_USE))
      ensures CanUseSkill(old(playerState), skill) && skill == WALL_DESTROYER ==>
        && gameState == old(gameState) && playerState.position == old(playerState.position)
        && (!AnyWall(old(mazeState)) ==> mazeState == old(mazeState))
        && (AnyWall(old(mazeState)) ==> exists p :: WallDestroyedAt(old(mazeState), mazeState, p))
      ensures CanUseSkill(old(playerState), skill) && skill == TELEPORT ==>
        && gameState == old(gameState) && mazeState == old(mazeState)
        && ((exists q :: InteriorFloor(mazeState, q)) ==> InteriorFloor(mazeState, playerState.position))
        && ((forall q :: !InteriorFloor(mazeState, q)) ==> playerState.position == Position(1, 1))
      ensures CanUseSkill(old(playerState), skill) && skill == EXIT_SCANNER ==>
        && gameState == old(gameState).(isExitRevealed := true)
        && mazeState == old(mazeState) && playerState.position == old(playerState.position)
    {
      var currentPlayer := playerState;
      if CanUseSkill(currentPlayer, skill) {
        match skill {
          case WALL_DESTROYER =>
            var before := mazeState;
            mazeState := DestroyRandomWall(mazeState);
            if AnyWall(before) {
              ghost var p :| WallDestroyedAt(before, mazeState, p);
              WallDestroyedCells(before, mazeState, p);
            }
            audioState := audioState.(lastSound := Some(SKILL_USE));
          case TELEPORT =>
            var newPos := GetRandomEmptyPosition(mazeState);
            playerState := currentPlayer.(position := newPos);
            audioState := audioState.(lastSound := Some(SKILL_USE));
          case EXIT_SCANNER =>
            gameState := gameState.(isExitRevealed := true);
            audioState := audioState.(lastSound := Some(SKILL_USE));
        }
        playerState := AfterSkill(playerState, skill);
      }
    }
  }
}
