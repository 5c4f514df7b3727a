/**
 * Walls on the fixed 9x9 board of the wall-edge maze (GameRenderer.kt):
 * the wall record, the cyclic list of wall types, and the rule that decides
 * whether a step between two cells crosses a blocking wall.
 */
module Walls {
  import KotlinInt

  /** A wall keyed by (r, c, orientation); `wallType` is the source's `type` string. */
  datatype WallState = WallState(r: int, c: int, orientation: char, wallType: string)

  /** `GameRenderer.WALL_TYPES`, the order in which a wall's type cycles. */
  const WALL_TYPES: seq<string> := ["normale", "invisibile", "rimbalzante", "teleportante", "distruggibile"]

  /** The board is 9x9: rows and columns 0..8. */
  const LAST: int := 8

  predicate OnBoard(r: int, c: int) { 0 <= r <= LAST && 0 <= c <= LAST }

  function Min(a: int, b: int): int { if a <= b then a else b }

  /**
   * The type strings the move check treats as impassable: the two "blocking"
   * ones and the three special ones, which path search also treats as walls.
   */
  predicate IsBlockingType(t: string) {
    || t == "normale" || t == "distruggibile"
    || t == "invisibile" || t == "rimbalzante" || t == "teleportante"
  }

  /**
   * Wall `w` stops the step (r, c) -> (nr, nc): for a step along a row, an 'h'
   * wall at (r, min(c, nc)); for a step along a column, a 'v' wall at
   * (min(r, nr), c); in both cases only when its type is a blocking one.
   */
  predicate Blocks(w: WallState, r: int, c: int, nr: int, nc: int) {
    && IsBlockingType(w.wallType)
    && (|| (r == nr && KotlinInt.AbsValue(c - nc) == 1 && w.orientation == 'h' && w.r == r && w.c == Min(c, nc))
        || (c == nc && KotlinInt.AbsValue(r - nr) == 1 && w.orientation == 'v' && w.c == c && w.r == Min(r, nr)))
  }

  /** The step is allowed: the target is on the board and no listed wall stops it. */
  predicate MoveAllowed(r: int, c: int, nr: int, nc: int, walls: seq<WallState>) {
    && OnBoard(nr, nc)
    && forall i :: 0 <= i < |walls| ==> !Blocks(walls[i], r, c, nr, nc)
  }

  /**
   * `isMoveValid`: the bounds check on the target, then a scan of the wall
   * list that returns false at the first wall on the crossed edge whose type
   * is one of the listed ones.
   */
  method IsMoveValid(r: int, c: int, nr: int, nc: int, walls: seq<WallState>) returns (ok: bool)
    ensures ok ==> OnBoard(nr, nc)
    ensures ok <==> MoveAllowed(r, c, nr, nc, walls)
  {
    if !(0 <= nr <= LAST) || !(0 <= nc <= LAST) {
      return false;
    }
    if r == nr && KotlinInt.AbsValue(c - nc) == 1 {
      var minC := Min(c, nc);
      var i := 0;
      while i < |walls|
        invariant 0 <= i <= |walls|
        invariant forall k :: 0 <= k < i ==> !Blocks(walls[k], r, c, nr, nc)
      {
        var w := walls[i];
        if w.orientation == 'h' && w.r == r && w.c == minC {
          if w.wallType == "normale" || w.wallType == "distruggibile" {
            return false;
          }
          if w.wallType == "invisibile" || w.wallType == "rimbalzante" || w.wallType == "teleportante" {
            return false;
          }
        }
        i := i + 1;
      }
    }
    if c == nc && KotlinInt.AbsValue(r - nr) == 1 {
      var minR := Min(r, nr);
      var i := 0;
      while i < |walls|
        invariant 0 <= i <= |walls|
        invariant forall k :: 0 <= k < i ==> !Blocks(walls[k], r, c, nr, nc)
      {
        var w := walls[i];
        if w.orientation == 'v' && w.c == c && w.r == minR {
          if w.wallType == "normale" || w.wallType == "distruggibile" {
            return false;
          }
          if w.wallType == "invisibile" || w.wallType == "rimbalzante" || w.wallType == "teleportante" {
            return false;
          }
        }
        i := i + 1;
      }
    }
    return true;
  }

  /** Every entry of `WALL_TYPES` blocks: the five kinds are interchangeable for movement. */
  lemma AllWallTypesBlock(t: string)
    ensures t in WALL_TYPES <==> IsBlockingType(t)
  {
  }

  /**
   * A same-row step between adjacent columns, onto the board, is refused
   * exactly when the list holds a blocking 'h' wall at (r, min(c, nc)).
   */
  lemma RowStepRule(r: int, c: int, nc: int, walls: seq<WallState>)
    requires KotlinInt.AbsValue(c - nc) == 1 && OnBoard(r, nc)
    ensures !MoveAllowed(r, c, r, nc, walls) <==>
      exists i :: 0 <= i < |walls| && walls[i].orientation == 'h' && walls[i].r == r
        && walls[i].c == Min(c, nc) && walls[i].wallType in WALL_TYPES
  {
    if !MoveAllowed(r, c, r, nc, walls) {
      var i :| 0 <= i < |walls| && Blocks(walls[i], r, c, r, nc);
      AllWallTypesBlock(walls[i].wallType);
    }
  }

  /**
   * A same-column step between adjacent rows, onto the board, is refused
   * exactly when the list holds a blocking 'v' wall at (min(r, nr), c).
   */
  lemma ColumnStepRule(r: int, nr: int, c: int, walls: seq<WallState>)
    requires KotlinInt.AbsValue(r - nr) == 1 && OnBoard(nr, c)
    ensures !MoveAllowed(r, c, nr, c, walls) <==>
      exists i :: 0 <= i < |walls| && walls[i].orientation == 'v' && walls[i].c == c
        && walls[i].r == Min(r, nr) && walls[i].wallType in WALL_TYPES
  {
    if !MoveAllowed(r, c, nr, c, walls) {
      var i :| 0 <= i < |walls| && Blocks(walls[i], r, c, nr, c);
      AllWallTypesBlock(walls[i].wallType);
    }
  }

  /**
   * Any other on-board target (the same cell, a diagonal or a longer jump) is
   * never refused: the move check does not test adjacency.
   */
  lemma NonAdjacentTargetAllowed(r: int, c: int, nr: int, nc: int, walls: seq<WallState>)
    requires OnBoard(nr, nc)
    requires !(r == nr && KotlinInt.AbsValue(c - nc) == 1) && !(c == nc && KotlinInt.AbsValue(r - nr) == 1)
    ensures MoveAllowed(r, c, nr, nc, walls)
  {
  }

  /** A wall whose type string is not one of the listed types never stops a step. */
  lemma UnlistedTypeNeverBlocks(w: WallState, walls: seq<WallState>, r: int, c: int, nr: int, nc: int)
    requires w.wallType !in WALL_TYPES
    ensures MoveAllowed(r, c, nr, nc, walls + [w]) <==> MoveAllowed(r, c, nr, nc, walls)
  {
    assert forall i :: 0 <= i < |walls| ==> (walls + [w])[i] == walls[i];
    assert (walls + [w])[|walls|] == w;
  }

  /**
   * More walls never allow more: if every wall of `walls` is also in `more`,
   * a step allowed under `more` is allowed under `walls`.
   */
  lemma MoreWallsAllowLess(walls: seq<WallState>, more: seq<WallState>, r: int, c: int, nr: int, nc: int)
    requires forall w :: w in walls ==> w in more
    requires MoveAllowed(r, c, nr, nc, more)
    ensures MoveAllowed(r, c, nr, nc, walls)
  {
    forall i | 0 <= i < |walls|
      ensures !Blocks(walls[i], r, c, nr, nc)
    {
      assert walls[i] in more;
      var j :| 0 <= j < |more| && more[j] == walls[i];
    }
  }
}
