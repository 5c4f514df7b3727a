/**
 * The second copy of the wall-placement AI in GameRenderer.kt: `GameBoard`
 * (the free wall slots, and the board with one more wall), `AIHeuristic`
 * (the Int sum of the players' shortest distances) and `GodWardenAI` (the
 * free slot whose board scores highest, the first one on ties).
 */
module GodWarden {
  import opened Walls
  import opened ShortestPath
  import KotlinInt

  /** `GameBoard(walls, playerPositions)`; positions are `Pair(row, column)`. */
  datatype GameBoard = GameBoard(walls: seq<WallState>, playerPositions: seq<Cell>)

  /** `AIMove(x, z, isWall, wallType)`: x is the column, z the row. */
  datatype AIMove = AIMove(x: int, z: int, isWall: bool, wallType: string)

  /** `AIMove.pass()`. */
  const PASS: AIMove := AIMove(-1, -1, false, "normale")

  // ---------------------------------------------------------------------
  // Free wall slots

  /** `walls.none { it.r == r && it.c == c && it.orientation == o }`. */
  predicate FreeSlot(walls: seq<WallState>, r: int, c: int, o: char) {
    forall i | 0 <= i < |walls| :: !(walls[i].r == r && walls[i].c == c && walls[i].orientation == o)
  }

  /**
   * A wall the AI may add: a "normale" wall on the board, 'h' left of the
   * last column or 'v' above the last row, on a key no listed wall has.
   */
  predicate IsPlacement(walls: seq<WallState>, w: WallState) {
    && OnBoard(w.r, w.c) && w.wallType == "normale"
    && ((w.orientation == 'h' && w.c < LAST) || (w.orientation == 'v' && w.r < LAST))
    && FreeSlot(walls, w.r, w.c, w.orientation)
  }

  /** Position of a slot in the scan: by row, then column, 'h' before 'v'. */
  function SlotKey(w: WallState): int {
    w.r * 18 + w.c * 2 + (if w.orientation == 'h' then 0 else 1)
  }

  predicate KeysIncreasing(s: seq<WallState>) {
    forall i, j | 0 <= i < j < |s| :: SlotKey(s[i]) < SlotKey(s[j])
  }

  predicate KeysWithin(s: seq<WallState>, lo: int, hi: int) {
    forall i | 0 <= i < |s| :: lo <= SlotKey(s[i]) < hi
  }

  /** The free slots of one cell, 'h' first. */
  function CellSlots(walls: seq<WallState>, r: int, c: int): seq<WallState> {
    (if c < LAST && FreeSlot(walls, r, c, 'h') then [WallState(r, c, 'h', "normale")] else [])
    + (if r < LAST && FreeSlot(walls, r, c, 'v') then [WallState(r, c, 'v', "normale")] else [])
  }

  /** The free slots of the first `n` cells of row `r`. */
  function RowSlots(walls: seq<WallState>, r: int, n: nat): seq<WallState> {
    if n == 0 then [] else RowSlots(walls, r, n - 1) + CellSlots(walls, r, n - 1)
  }

  /** The free slots of the first `m` rows. */
  function Slots(walls: seq<WallState>, m: nat): seq<WallState> {
    if m == 0 then [] else Slots(walls, m - 1) + RowSlots(walls, m - 1, LAST + 1)
  }

  /** All free slots of the board, in scan order. */
  function AvailableSlots(walls: seq<WallState>): seq<WallState> {
    Slots(walls, LAST + 1)
  }

  // The two scans above are both instances of one shape, `Concat`; the
  // facts about the scan are proved once about that shape.

  /** `f(0) + f(1) + ... + f(n - 1)`. */
  function Concat(f: nat -> seq<WallState>, n: nat): seq<WallState> {
    if n == 0 then [] else Concat(f, n - 1) + f(n - 1)
  }

  /** The cells of row `r` as a function of the column. */
  function CellsOf(walls: seq<WallState>, r: int): nat -> seq<WallState> {
    c => CellSlots(walls, r, c)
  }

  /** The rows of the board as a function of the row. */
  function RowsOf(walls: seq<WallState>): nat -> seq<WallState> {
    r => RowSlots(walls, r, LAST + 1)
  }

  lemma {:induction false} RowSlotsConcat(walls: seq<WallState>, r: int, n: nat)
    ensures RowSlots(walls, r, n) == Concat(CellsOf(walls, r), n)
  {
    if n > 0 {
      RowSlotsConcat(walls, r, n - 1);
    }
  }

  lemma {:induction false} SlotsConcat(walls: seq<WallState>, m: nat)
    ensures Slots(walls, m) == Concat(RowsOf(walls), m)
  {
    if m > 0 {
      SlotsConcat(walls, m - 1);
    }
  }

  lemma ConcatOrdered(a: seq<WallState>, b: seq<WallState>, lo: int, mid: int, hi: int)
    requires lo <= mid <= hi
    requires KeysIncreasing(a) && KeysWithin(a, lo, mid)
    requires KeysIncreasing(b) && KeysWithin(b, mid, hi)
    ensures KeysIncreasing(a + b) && KeysWithin(a + b, lo, hi)
  {
    var s := a + b;
    forall i | 0 <= i < |s|
      ensures s[i] == if i < |a| then a[i] else b[i - |a|]
    {
    }
  }

  /** A wall is in the output of a scan iff one of its lines produced it. */
  lemma {:induction false} ConcatMember(f: nat -> seq<WallState>, n: nat, w: WallState)
    ensures w in Concat(f, n) <==> exists k :: 0 <= k < n && w in f(k)
  {
    if n > 0 {
      ConcatMember(f, n - 1, w);
      assert Concat(f, n) == Concat(f, n - 1) + f(n - 1);
    }
  }

  /** Line `k` of a scan keeping its keys in [lo(k), lo(k + 1)), each line in increasing order, gives a scan in increasing order. */
  lemma {:induction false} ConcatKeys(f: nat -> seq<WallState>, n: nat, lo: nat -> int)
    requires forall k | 0 <= k < n :: lo(k) <= lo(k + 1) && KeysIncreasing(f(k)) && KeysWithin(f(k), lo(k), lo(k + 1))
    ensures KeysIncreasing(Concat(f, n)) && KeysWithin(Concat(f, n), lo(0), lo(n)) && lo(0) <= lo(n)
  {
    if n > 0 {
      ConcatKeys(f, n - 1, lo);
      ConcatOrdered(Concat(f, n - 1), f(n - 1), lo(0), lo(n - 1), lo(n));
    }
  }

  lemma CellSlotsMember(walls: seq<WallState>, r: int, c: int, w: WallState)
    requires 0 <= r <= LAST && 0 <= c <= LAST
    ensures w in CellSlots(walls, r, c) <==> IsPlacement(walls, w) && w.r == r && w.c == c
  {
  }

  lemma CellSlotsOrdered(walls: seq<WallState>, r: int, c: int)
    ensures KeysIncreasing(CellSlots(walls, r, c))
    ensures KeysWithin(CellSlots(walls, r, c), r * 18 + 2 * c, r * 18 + 2 * c + 2)
  {
  }

  lemma RowSlotsMember(walls: seq<WallState>, r: int, w: WallState)
    requires 0 <= r <= LAST
    ensures w in RowSlots(walls, r, LAST + 1) <==> IsPlacement(walls, w) && w.r == r
  {
    RowSlotsConcat(walls, r, LAST + 1);
    ConcatMember(CellsOf(walls, r), LAST + 1, w);
    if w in RowSlots(walls, r, LAST + 1) {
      var c :| 0 <= c < LAST + 1 && w in CellsOf(walls, r)(c);
      CellSlotsMember(walls, r, c, w);
    }
    if IsPlacement(walls, w) && w.r == r {
      CellSlotsMember(walls, r, w.c, w);
      assert w in CellsOf(walls, r)(w.c);
    }
  }

  lemma RowSlotsOrdered(walls: seq<WallState>, r: int)
    ensures KeysIncreasing(RowSlots(walls, r, LAST + 1))
    ensures KeysWithin(RowSlots(walls, r, LAST + 1), r * 18, r * 18 + 18)
  {
    var lo := (c: nat) => r * 18 + 2 * c;
    forall c | 0 <= c < LAST + 1
      ensures lo(c) <= lo(c + 1) && KeysIncreasing(CellsOf(walls, r)(c)) && KeysWithin(CellsOf(walls, r)(c), lo(c), lo(c + 1))
    {
      CellSlotsOrdered(walls, r, c);
    }
    ConcatKeys(CellsOf(walls, r), LAST + 1, lo);
    RowSlotsConcat(walls, r, LAST + 1);
  }

  lemma AvailableSlotMember(walls: seq<WallState>, w: WallState)
    ensures w in AvailableSlots(walls) <==> IsPlacement(walls, w)
  {
    SlotsConcat(walls, LAST + 1);
    ConcatMember(RowsOf(walls), LAST + 1, w);
    if w in AvailableSlots(walls) {
      var r :| 0 <= r < LAST + 1 && w in RowsOf(walls)(r);
      RowSlotsMember(walls, r, w);
    }
    if IsPlacement(walls, w) {
      RowSlotsMember(walls, w.r, w);
      assert w in RowsOf(walls)(w.r);
    }
  }

  lemma AvailableSlotsOrdered(walls: seq<WallState>)
    ensures KeysIncreasing(AvailableSlots(walls))
  {
    var lo := (r: nat) => r * 18;
    forall r | 0 <= r < LAST + 1
      ensures lo(r) <= lo(r + 1) && KeysIncreasing(RowsOf(walls)(r)) && KeysWithin(RowsOf(walls)(r), lo(r), lo(r + 1))
    {
      RowSlotsOrdered(walls, r);
    }
    ConcatKeys(RowsOf(walls), LAST + 1, lo);
    SlotsConcat(walls, LAST + 1);
  }

  /**
   * The free slots are exactly the walls the AI may add: an 'h' slot at
   * (r, c) iff c < 8 and no 'h' wall has key (r, c), a 'v' slot iff r < 8
   * and no 'v' wall has that key; listed once each, in scan order.
   */
  lemma AvailableSlotsExact(walls: seq<WallState>)
    ensures forall w :: w in AvailableSlots(walls) <==> IsPlacement(walls, w)
    ensures KeysIncreasing(AvailableSlots(walls))
  {
    forall w
      ensures w in AvailableSlots(walls) <==> IsPlacement(walls, w)
    {
      AvailableSlotMember(walls, w);
    }
    AvailableSlotsOrdered(walls);
  }

  /**
   * `GameBoard.availableWalls`: the nested scan over rows and columns, adding
   * an 'h' and then a 'v' "normale" wall wherever the key is free.
   */
  method AvailableWalls(board: GameBoard) returns (candidates: seq<WallState>)
    ensures candidates == AvailableSlots(board.walls)
  {
    var walls := board.walls;
    candidates := [];
    var r := 0;
    while r <= LAST
      invariant 0 <= r <= LAST + 1
      invariant candidates == Slots(walls, r)
    {
      var c := 0;
      while c <= LAST
        invariant 0 <= c <= LAST + 1
        invariant candidates == Slots(walls, r) + RowSlots(walls, r, c)
      {
        ghost var before := candidates;
        if c < LAST && FreeSlot(walls, r, c, 'h') {
          candidates := candidates + [WallState(r, c, 'h', "normale")];
        }
        if r < LAST && FreeSlot(walls, r, c, 'v') {
          candidates := candidates + [WallState(r, c, 'v', "normale")];
        }
        CellAppended(walls, r, c, before, candidates);
        c := c + 1;
      }
      r := r + 1;
    }
  }

  /** The two checks of one cell append exactly that cell's free slots. */
  lemma CellAppended(walls: seq<WallState>, r: nat, c: nat, before: seq<WallState>, after: seq<WallState>)
    requires before == Slots(walls, r) + RowSlots(walls, r, c)
    requires after == before
      + (if c < LAST && FreeSlot(walls, r, c, 'h') then [WallState(r, c, 'h', "normale")] else [])
      + (if r < LAST && FreeSlot(walls, r, c, 'v') then [WallState(r, c, 'v', "normale")] else [])
    ensures after == Slots(walls, r) + RowSlots(walls, r, c + 1)
  {
    var cell := CellSlots(walls, r, c);
    assert after == before + cell;
    assert before + cell == Slots(walls, r) + (RowSlots(walls, r, c) + cell);
  }

  /** `GameBoard.simulateWithWall`: the same players, with `wall` appended to the walls. */
  function SimulateWithWall(board: GameBoard, wall: WallState): (sim: GameBoard)
    ensures sim.playerPositions == board.playerPositions
    ensures |sim.walls| == |board.walls| + 1 && sim.walls[..|board.walls|] == board.walls
    ensures sim.walls[|board.walls|] == wall
  {
    board.(walls := board.walls + [wall])
  }

  lemma WalkSurvivesFewerWalls(walls: seq<WallState>, w: WallState, path: seq<Cell>)
    requires IsWalk(walls + [w], path)
    ensures IsWalk(walls, path)
  {
    forall i | 0 <= i < |path| - 1
      ensures Edge(walls, path[i], path[i + 1])
    {
      assert Edge(walls + [w], path[i], path[i + 1]);
      var p, q := path[i], path[i + 1];
      MoreWallsAllowLess(walls, walls + [w], p.r, p.c, q.r, q.c);
    }
  }

  /**
   * A simulated board never opens a route: a goal row reachable with the
   * extra wall was reachable without it.
   */
  lemma SimulatedWallNeverOpensPath(board: GameBoard, w: WallState, start: Cell, goal: GoalRows)
    requires GoalReachable(start, SimulateWithWall(board, w).walls, goal)
    ensures GoalReachable(start, board.walls, goal)
  {
    var path :| GoalWalk(board.walls + [w], start, goal, path);
    WalkSurvivesFewerWalls(board.walls, w, path);
    assert GoalWalk(board.walls, start, goal, path);
  }

  // ---------------------------------------------------------------------
  // AIHeuristic

  /** Player 0 aims at row 8, every other player at row 0. */
  function GoalFor(index: int): GoalRows {
    if index == 0 then GoalRows(8, 8) else GoalRows(0, 0)
  }

  /** `ds` lists, player by player, a result the shortest-path search may return. */
  ghost predicate IsDistanceList(board: GameBoard, ds: seq<int>) {
    && |ds| == |board.playerPositions|
    && forall i | 0 <= i < |ds| :: IsSearchResult(board.playerPositions[i], board.walls, GoalFor(i), ds[i])
  }

  /**
   * `AIHeuristic.evaluateWallPlacement`: the search distance of every player
   * to its goal row, added up as Kotlin Ints.
   */
  method EvaluateWallPlacement(board: GameBoard) returns (score: int, ghost pathLengths: seq<int>)
    ensures IsDistanceList(board, pathLengths)
    ensures score == KotlinInt.Sum(pathLengths)
  {
    var lengths: seq<int> := [];
    var index := 0;
    while index < |board.playerPositions|
      invariant 0 <= index <= |board.playerPositions|
      invariant |lengths| == index
      invariant forall i | 0 <= i < index ::
        IsSearchResult(board.playerPositions[i], board.walls, GoalFor(i), lengths[i])
    {
      var d := ComputeShortestPath(board.playerPositions[index], board.walls, GoalFor(index));
      lengths := lengths + [d];
      index := index + 1;
    }
    pathLengths := lengths;
    score := KotlinInt.Sum(lengths);
  }

  /**
   * With two players the Int sum is not the distance sum once a player is
   * sealed off: `Int.MAX_VALUE` plus a positive distance wraps negative, so a
   * board that seals one player in scores below every board where both can
   * still reach their goal rows, unless the other player already stands on
   * its goal row.
   */
  lemma SealedPlayerScoresLow(sealed: int, other: int, e0: int, e1: int)
    requires 1 <= other <= MAX_STEPS
    requires 0 <= e0 <= MAX_STEPS && 0 <= e1 <= MAX_STEPS
    requires sealed == KotlinInt.INT_MAX
    ensures KotlinInt.Sum([sealed, other]) == KotlinInt.INT_MIN + other - 1
    ensures KotlinInt.Sum([other, sealed]) == KotlinInt.INT_MIN + other - 1
    ensures KotlinInt.Sum([sealed, other]) < 0 <= KotlinInt.Sum([e0, e1])
    ensures KotlinInt.Sum([sealed, 0]) == KotlinInt.INT_MAX
  {
    KotlinInt.SumOfTwo(sealed, other);
    KotlinInt.SumOfTwo(other, sealed);
    KotlinInt.SumOfTwo(e0, e1);
    KotlinInt.SumOfTwo(sealed, 0);
    KotlinInt.MaxPlusPositiveIsNegative(other);
    assert KotlinInt.Add(other, sealed) == KotlinInt.Add(sealed, other);
  }

  // ---------------------------------------------------------------------
  // GodWardenAI

  /** `i` is the first position holding the maximum of `xs`. */
  predicate IsFirstMax(xs: seq<int>, i: int) {
    && 0 <= i < |xs|
    && (forall j | 0 <= j < |xs| :: xs[j] <= xs[i])
    && (forall j | 0 <= j < i :: xs[j] < xs[i])
  }

  /** `maxByOrNull`: the first element whose value is the largest. */
  function FirstArgMax(xs: seq<int>): (i: int)
    requires |xs| > 0
    ensures IsFirstMax(xs, i)
  {
    if |xs| == 1 then 0
    else
      var k := FirstArgMax(xs[..|xs| - 1]);
      assert forall j | 0 <= j < |xs| - 1 :: xs[..|xs| - 1][j] == xs[j];
      if xs[k] < xs[|xs| - 1] then |xs| - 1 else k
  }

  /** Only one position is the first maximum. */
  lemma FirstMaxUnique(xs: seq<int>, i: int, k: int)
    requires IsFirstMax(xs, i) && IsFirstMax(xs, k)
    ensures i == k
  {
    assert xs[i] <= xs[k] && xs[k] <= xs[i];
  }

  /** `s` is a score the heuristic may give the board with `w` added. */
  ghost predicate IsEvaluation(board: GameBoard, w: WallState, s: int) {
    exists ds :: IsDistanceList(SimulateWithWall(board, w), ds) && s == KotlinInt.Sum(ds)
  }

  /** One more evaluated slot, from the distances its board gave. */
  lemma EvaluationsExtended(board: GameBoard, walls: seq<WallState>, scores: seq<int>, ds: seq<int>, s: int)
    requires |scores| < |walls|
    requires forall j | 0 <= j < |scores| :: IsEvaluation(board, walls[j], scores[j])
    requires IsDistanceList(SimulateWithWall(board, walls[|scores|]), ds) && s == KotlinInt.Sum(ds)
    ensures forall j | 0 <= j < |scores| + 1 :: IsEvaluation(board, walls[j], (scores + [s])[j])
  {
    assert IsEvaluation(board, walls[|scores|], s);
    forall j | 0 <= j < |scores| + 1
      ensures IsEvaluation(board, walls[j], (scores + [s])[j])
    {
      if j < |scores| {
        assert (scores + [s])[j] == scores[j];
      }
    }
  }

  /** The `walls.map { wall -> wall to score }` step: the heuristic score of each slot, in order. */
  method EvaluatePlacements(board: GameBoard, walls: seq<WallState>) returns (scores: seq<int>)
    ensures |scores| == |walls|
    ensures forall j | 0 <= j < |walls| :: IsEvaluation(board, walls[j], scores[j])
  {
    scores := [];
    var i := 0;
    while i < |walls|
      invariant 0 <= i <= |walls|
      invariant |scores| == i
      invariant forall j | 0 <= j < i :: IsEvaluation(board, walls[j], scores[j])
    {
      var sim := SimulateWithWall(board, walls[i]);
      var score, ds := EvaluateWallPlacement(sim);
      EvaluationsExtended(board, walls, scores, ds, score);
      scores := scores + [score];
      i := i + 1;
    }
  }

  /**
   * `GodWardenAI.calculateStrategicPlacement`: score every free slot by the
   * heuristic on the board with that wall added, and return the first
   * best-scoring slot as a move at x = column, z = row; `pass()` when there
   * is no free slot.
   */
  method CalculateStrategicPlacement(board: GameBoard) returns (move: AIMove, ghost evaluations: seq<int>)
    ensures |evaluations| == |AvailableSlots(board.walls)|
    ensures forall i | 0 <= i < |evaluations| :: IsEvaluation(board, AvailableSlots(board.walls)[i], evaluations[i])
    ensures move == PASS <==> AvailableSlots(board.walls) == []
    ensures AvailableSlots(board.walls) != [] ==>
      var w := AvailableSlots(board.walls)[FirstArgMax(evaluations)];
      move == AIMove(w.c, w.r, true, w.wallType)
  {
    var walls := AvailableWalls(board);
    var scores := EvaluatePlacements(board, walls);
    evaluations := scores;
    if |walls| == 0 {
      move := PASS;
    } else {
      var best := walls[FirstArgMax(scores)];
      move := AIMove(best.c, best.r, true, best.wallType);
    }
  }
}
