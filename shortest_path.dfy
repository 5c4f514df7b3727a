/**
 * `computeShortestPath` of GameRenderer.kt: A* over the 9x9 board from a
 * start cell to any cell of a goal-row range, stepping only where the move
 * check allows.  The result is `Int.MAX_VALUE` when the open set runs dry.
 */
module ShortestPath {
  import opened Walls
  import opened Counting
  import opened Wrappers
  import KotlinInt

  /** A board cell `Pair(row, column)`; the start may lie off the board. */
  datatype Cell = Cell(r: int, c: int)

  /** The `IntRange` of goal rows, `first..last` (8..8 for one player, 0..0 for the other). */
  datatype GoalRows = GoalRows(first: int, last: int)

  predicate InGoal(goal: GoalRows, r: int) { goal.first <= r <= goal.last }

  /** Row distance to row 8 when the range starts at 8, otherwise the row itself. */
  function Heuristic(goal: GoalRows, p: Cell): int {
    if goal.first == 8 then 8 - p.r else p.r
  }

  /** A queue entry; the queue orders entries by `f` alone. */
  datatype Node = Node(pos: Cell, g: int, f: int)

  /** The four step directions, in the order the search tries them. */
  const DIRECTIONS: seq<(int, int)> := [(-1, 0), (1, 0), (0, -1), (0, 1)]

  /** Longest finite result: a repeat-free walk visits at most 81 board cells plus the start. */
  const MAX_STEPS: int := 81

  function Neighbour(p: Cell, k: int): Cell
    requires 0 <= k < 4
  {
    Cell(p.r + DIRECTIONS[k].0, p.c + DIRECTIONS[k].1)
  }

  predicate StepOK(walls: seq<WallState>, p: Cell, q: Cell) {
    MoveAllowed(p.r, p.c, q.r, q.c, walls)
  }

  /** One step of the search graph: to one of the four neighbours, through no blocking wall. */
  ghost predicate Edge(walls: seq<WallState>, p: Cell, q: Cell) {
    && (q == Neighbour(p, 0) || q == Neighbour(p, 1) || q == Neighbour(p, 2) || q == Neighbour(p, 3))
    && StepOK(walls, p, q)
  }

  ghost predicate IsWalk(walls: seq<WallState>, w: seq<Cell>) {
    |w| >= 1 && forall i | 0 <= i < |w| - 1 :: Edge(walls, w[i], w[i + 1])
  }

  /** A wall-respecting walk from `start` that ends in a goal row. */
  ghost predicate GoalWalk(walls: seq<WallState>, start: Cell, goal: GoalRows, w: seq<Cell>) {
    IsWalk(walls, w) && w[0] == start && InGoal(goal, w[|w| - 1].r)
  }

  ghost predicate GoalReachable(start: Cell, walls: seq<WallState>, goal: GoalRows) {
    exists w :: GoalWalk(walls, start, goal, w)
  }

  /** Some goal row is reached from `start` by a walk of exactly `d` steps. */
  ghost predicate GoalReachableIn(start: Cell, walls: seq<WallState>, goal: GoalRows, d: int) {
    exists w :: GoalWalk(walls, start, goal, w) && |w| == d + 1
  }

  /**
   * What a result `d` of the search promises: 0 when the start row is a goal
   * row; `Int.MAX_VALUE` exactly when no goal row is reachable; otherwise the
   * length of a real wall-respecting walk to a goal row (so never less than
   * the true shortest distance) and at most 81.
   */
  ghost predicate IsSearchResult(start: Cell, walls: seq<WallState>, goal: GoalRows, d: int) {
    && (d == KotlinInt.INT_MAX <==> !GoalReachable(start, walls, goal))
    && (d != KotlinInt.INT_MAX ==> 0 <= d <= MAX_STEPS && GoalReachableIn(start, walls, goal, d))
    && (InGoal(goal, start.r) ==> d == 0)
  }

  // ---------------------------------------------------------------------
  // Search state invariant

  /** `gScore.getValue(p)`: the map's value, or `Int.MAX_VALUE` when absent. */
  function GetOrMax(g: map<Cell, int>, p: Cell): int {
    if p in g then g[p] else KotlinInt.INT_MAX
  }

  predicate Known(start: Cell, p: Cell) { p == start || OnBoard(p.r, p.c) }

  /** `w` witnesses the g-score of `p`: a repeat-free walk from the start of g[p] steps. */
  ghost predicate WalkFor(walls: seq<WallState>, start: Cell, g: map<Cell, int>, p: Cell, w: seq<Cell>)
    requires p in g
  {
    && |w| == g[p] + 1
    && IsWalk(walls, w) && w[0] == start && w[|w| - 1] == p
    && Distinct(w)
    && (forall i | 0 <= i < |w| :: w[i] in g && g[w[i]] <= i && Known(start, w[i]))
  }

  ghost predicate InOpen(open: seq<Node>, p: Cell) {
    exists j | 0 <= j < |open| :: open[j].pos == p
  }

  /** A cell whose expansion is complete: not a goal, and every allowed neighbour has a g-score. */
  ghost predicate Closed(walls: seq<WallState>, goal: GoalRows, g: map<Cell, int>, p: Cell) {
    && !InGoal(goal, p.r)
    && forall k | 0 <= k < 4 :: StepOK(walls, p, Neighbour(p, k)) ==> Neighbour(p, k) in g
  }

  /**
   * The search invariant.  `busy` is the cell being expanded, the one cell
   * that may be neither queued nor closed.
   */
  ghost predicate SearchInv(walls: seq<WallState>, start: Cell, goal: GoalRows, g: map<Cell, int>,
                            open: seq<Node>, walks: map<Cell, seq<Cell>>, busy: Option<Cell>)
  {
    && start in g && g[start] == 0
    && (forall p | p in g :: p in walks && WalkFor(walls, start, g, p, walks[p]))
    && (forall j | 0 <= j < |open| :: open[j].pos in g)
    && (forall i, j | 0 <= i < j < |open| :: open[i].pos != open[j].pos)
    && (forall p | p in g && !InOpen(open, p) && busy != Some(p) :: Closed(walls, goal, g, p))
  }

  // ---------------------------------------------------------------------
  // Termination measure: g-scores summed over the 81 board cells, 83 for an
  // unseen cell, plus the queue length.

  const UNSEEN: int := 83

  function Term(g: map<Cell, int>, p: Cell): int {
    if p in g then g[p] else UNSEEN
  }

  function RowSum(g: map<Cell, int>, r: int, n: nat): int {
    if n == 0 then 0 else RowSum(g, r, n - 1) + Term(g, Cell(r, n - 1))
  }

  function BoardSum(g: map<Cell, int>, n: nat): int {
    if n == 0 then 0 else BoardSum(g, n - 1) + RowSum(g, n - 1, 9)
  }

  function Potential(g: map<Cell, int>): int { BoardSum(g, 9) }

  lemma {:induction false} RowSumUpdate(g: map<Cell, int>, q: Cell, v: int, r: int, n: nat)
    ensures RowSum(g[q := v], r, n) == RowSum(g, r, n) + (if q.r == r && 0 <= q.c < n then v - Term(g, q) else 0)
  {
    if n > 0 {
      RowSumUpdate(g, q, v, r, n - 1);
    }
  }

  lemma {:induction false} BoardSumUpdate(g: map<Cell, int>, q: Cell, v: int, n: nat)
    ensures BoardSum(g[q := v], n) == BoardSum(g, n) + (if 0 <= q.r < n && 0 <= q.c < 9 then v - Term(g, q) else 0)
  {
    if n > 0 {
      BoardSumUpdate(g, q, v, n - 1);
      RowSumUpdate(g, q, v, n - 1, 9);
    }
  }

  lemma {:induction false} RowSumNonneg(g: map<Cell, int>, r: int, n: nat)
    requires forall p | p in g :: 0 <= g[p]
    ensures 0 <= RowSum(g, r, n)
  {
    if n > 0 {
      RowSumNonneg(g, r, n - 1);
    }
  }

  lemma {:induction false} BoardSumNonneg(g: map<Cell, int>, n: nat)
    requires forall p | p in g :: 0 <= g[p]
    ensures 0 <= BoardSum(g, n)
  {
    if n > 0 {
      BoardSumNonneg(g, n - 1);
      RowSumNonneg(g, n - 1, 9);
    }
  }

  // ---------------------------------------------------------------------
  // Lemmas about walks and the invariant

  function CellIndex(p: Cell): int {
    if OnBoard(p.r, p.c) then p.r * 9 + p.c else 81
  }

  lemma CellIndexInjective(p: Cell, q: Cell)
    requires OnBoard(p.r, p.c) && OnBoard(q.r, q.c) && p != q
    ensures CellIndex(p) != CellIndex(q)
  {
    if p.r < q.r {
      assert p.r * 9 + 9 <= q.r * 9;
    } else if q.r < p.r {
      assert q.r * 9 + 9 <= p.r * 9;
    }
  }

  /** A repeat-free sequence of board cells plus one extra cell is at most 82 long. */
  lemma WalkLengthBound(start: Cell, w: seq<Cell>)
    requires Distinct(w)
    requires forall i | 0 <= i < |w| :: Known(start, w[i])
    ensures |w| <= MAX_STEPS + 1
  {
    var idx := seq(|w|, i requires 0 <= i < |w| => CellIndex(w[i]));
    forall i, j | 0 <= i < j < |idx|
      ensures idx[i] != idx[j]
    {
      if OnBoard(w[i].r, w[i].c) && OnBoard(w[j].r, w[j].c) {
        CellIndexInjective(w[i], w[j]);
      }
    }
    DistinctIntsBound(idx, 82);
  }

  lemma GScoreBound(walls: seq<WallState>, start: Cell, g: map<Cell, int>, p: Cell, w: seq<Cell>)
    requires p in g && WalkFor(walls, start, g, p, w)
    ensures 0 <= g[p] <= MAX_STEPS
  {
    WalkLengthBound(start, w);
  }

  lemma NeighbourDiffers(p: Cell, k: int)
    requires 0 <= k < 4
    ensures Neighbour(p, k) != p
  {
  }

  /** A cell missing from the queue after removing entry `i` was that entry or missing before. */
  lemma NotQueuedAfterRemoval(open: seq<Node>, i: int, p: Cell)
    requires 0 <= i < |open| && p != open[i].pos
    requires !InOpen(open[..i] + open[i + 1..], p)
    ensures !InOpen(open, p)
  {
    var rest := open[..i] + open[i + 1..];
    forall j | 0 <= j < |open|
      ensures open[j].pos != p
    {
      if j < i {
        assert rest[j] == open[j];
      } else if j > i {
        assert rest[j - 1] == open[j];
      }
    }
  }

  /** Removing entry `i` keeps the queue's cells scored and pairwise different. */
  lemma RemovalKeepsQueue(g: map<Cell, int>, open: seq<Node>, i: int, rest: seq<Node>)
    requires 0 <= i < |open| && rest == open[..i] + open[i + 1..]
    requires forall j | 0 <= j < |open| :: open[j].pos in g
    requires forall a, b | 0 <= a < b < |open| :: open[a].pos != open[b].pos
    ensures forall j | 0 <= j < |rest| :: rest[j].pos in g
    ensures forall a, b | 0 <= a < b < |rest| :: rest[a].pos != rest[b].pos
  {
    forall j | 0 <= j < |rest|
      ensures rest[j] == open[if j < i then j else j + 1]
    {
    }
  }

  /** Taking the entry at `i` out of the queue leaves the invariant with that cell busy. */
  lemma PopKeepsInv(walls: seq<WallState>, start: Cell, goal: GoalRows, g: map<Cell, int>,
                    open: seq<Node>, walks: map<Cell, seq<Cell>>, i: int)
    requires SearchInv(walls, start, goal, g, open, walks, None)
    requires 0 <= i < |open|
    ensures SearchInv(walls, start, goal, g, open[..i] + open[i + 1..], walks, Some(open[i].pos))
    ensures open[i].pos in g
  {
    var rest := open[..i] + open[i + 1..];
    forall p | p in g && !InOpen(rest, p) && Some(open[i].pos) != Some(p)
      ensures Closed(walls, goal, g, p)
    {
      NotQueuedAfterRemoval(open, i, p);
    }
    RemovalKeepsQueue(g, open, i, rest);
  }

  /** Lowering or adding the g-score of another cell keeps a witness walk valid. */
  lemma WalkForAfterUpdate(walls: seq<WallState>, start: Cell, g: map<Cell, int>, p: Cell, w: seq<Cell>,
                           q: Cell, v: int)
    requires p in g && p != q && WalkFor(walls, start, g, p, w)
    requires q in g ==> v <= g[q]
    requires Known(start, q)
    ensures WalkFor(walls, start, g[q := v], p, w)
  {
  }

  /** The walk to `cur` extended by one allowed step witnesses the new g-score of the neighbour. */
  lemma ExtendWalk(walls: seq<WallState>, start: Cell, g: map<Cell, int>, cur: Cell, wc: seq<Cell>, k: int)
    requires cur in g && WalkFor(walls, start, g, cur, wc) && 0 <= k < 4
    requires StepOK(walls, cur, Neighbour(cur, k))
    requires g[cur] + 1 < GetOrMax(g, Neighbour(cur, k))
    ensures var q := Neighbour(cur, k);
      WalkFor(walls, start, g[q := g[cur] + 1], q, wc + [q])
  {
    var q := Neighbour(cur, k);
    var w := wc + [q];
    var g' := g[q := g[cur] + 1];
    // q does not occur on the walk to cur: every cell there has g-score at most g[cur].
    forall i | 0 <= i < |wc|
      ensures wc[i] != q
    {
      assert wc[i] in g && g[wc[i]] <= i;
    }
    forall i | 0 <= i < |w| - 1
      ensures Edge(walls, w[i], w[i + 1])
    {
      if i < |wc| - 1 {
        assert w[i] == wc[i] && w[i + 1] == wc[i + 1];
      } else {
        assert w[i] == cur && w[i + 1] == q;
      }
    }
    forall i | 0 <= i < |w|
      ensures w[i] in g' && g'[w[i]] <= i && Known(start, w[i])
    {
      if i < |wc| {
        assert w[i] == wc[i];
      }
    }
  }

  /** A relaxation never raises the termination measure. */
  lemma RelaxMeasure(g: map<Cell, int>, q: Cell, v: int, added: int)
    requires OnBoard(q.r, q.c) && 0 <= v <= MAX_STEPS && v < GetOrMax(g, q)
    requires 0 <= added <= 1
    ensures Potential(g[q := v]) + added <= Potential(g)
  {
    BoardSumUpdate(g, q, v, 9);
  }

  /**
   * Relaxing the edge cur -> q with a strictly smaller g-score keeps the
   * invariant (the queue gains q unless it already holds it).
   */
  lemma RelaxKeepsInv(walls: seq<WallState>, start: Cell, goal: GoalRows, g: map<Cell, int>,
                      open: seq<Node>, walks: map<Cell, seq<Cell>>, cur: Cell, k: int, f: int)
    requires SearchInv(walls, start, goal, g, open, walks, Some(cur))
    requires cur in g && 0 <= k < 4
    requires StepOK(walls, cur, Neighbour(cur, k))
    requires g[cur] + 1 < GetOrMax(g, Neighbour(cur, k))
    ensures var q := Neighbour(cur, k);
      var open' := if InOpen(open, q) then open else open + [Node(q, g[cur] + 1, f)];
      SearchInv(walls, start, goal, g[q := g[cur] + 1], open', walks[q := walks[cur] + [q]], Some(cur))
  {
    var q := Neighbour(cur, k);
    var v := g[cur] + 1;
    var g' := g[q := v];
    var open' := if InOpen(open, q) then open else open + [Node(q, v, f)];
    var walks' := walks[q := walks[cur] + [q]];
    ExtendWalk(walls, start, g, cur, walks[cur], k);
    forall p | p in g'
      ensures p in walks' && WalkFor(walls, start, g', p, walks'[p])
    {
      if p != q {
        WalkForAfterUpdate(walls, start, g, p, walks[p], q, v);
      }
    }
    assert InOpen(open', q) by {
      if !InOpen(open, q) {
        assert open'[|open|].pos == q;
      }
    }
    forall p | p in g' && !InOpen(open', p) && Some(cur) != Some(p)
      ensures Closed(walls, goal, g', p)
    {
      assert forall j | 0 <= j < |open| :: open'[j] == open[j];
      assert Closed(walls, goal, g, p);
    }
  }

  /** One relaxation inside the expansion loop keeps all of that loop's invariants. */
  lemma RelaxStep(walls: seq<WallState>, start: Cell, goal: GoalRows, g: map<Cell, int>,
                  open: seq<Node>, walks: map<Cell, seq<Cell>>, cur: Cell, k: int, f: int, bound: int)
    requires SearchInv(walls, start, goal, g, open, walks, Some(cur))
    requires cur in g && 0 <= k < 4
    requires forall j | 0 <= j < k :: StepOK(walls, cur, Neighbour(cur, j)) ==> Neighbour(cur, j) in g
    requires Potential(g) + |open| <= bound
    requires StepOK(walls, cur, Neighbour(cur, k))
    requires g[cur] + 1 < GetOrMax(g, Neighbour(cur, k))
    ensures var q := Neighbour(cur, k);
      var g' := g[q := g[cur] + 1];
      var open' := if InOpen(open, q) then open else open + [Node(q, g[cur] + 1, f)];
      && SearchInv(walls, start, goal, g', open', walks[q := walks[cur] + [q]], Some(cur))
      && cur in g' && g'[cur] == g[cur]
      && (forall j | 0 <= j < k + 1 :: StepOK(walls, cur, Neighbour(cur, j)) ==> Neighbour(cur, j) in g')
      && Potential(g') + |open'| <= bound
  {
    var q := Neighbour(cur, k);
    var v := g[cur] + 1;
    RelaxKeepsInv(walls, start, goal, g, open, walks, cur, k, f);
    ExtendWalk(walls, start, g, cur, walks[cur], k);
    GScoreBound(walls, start, g[q := v], q, walks[cur] + [q]);
    RelaxMeasure(g, q, v, if InOpen(open, q) then 0 else 1);
    NeighbourDiffers(cur, k);
  }

  /** Once every allowed neighbour of the busy cell has a g-score, the cell counts as closed. */
  lemma ExpansionCloses(walls: seq<WallState>, start: Cell, goal: GoalRows, g: map<Cell, int>,
                        open: seq<Node>, walks: map<Cell, seq<Cell>>, cur: Cell)
    requires SearchInv(walls, start, goal, g, open, walks, Some(cur))
    requires !InGoal(goal, cur.r)
    requires forall j | 0 <= j < 4 :: StepOK(walls, cur, Neighbour(cur, j)) ==> Neighbour(cur, j) in g
    ensures SearchInv(walls, start, goal, g, open, walks, None)
    ensures 0 <= Potential(g)
  {
    assert Closed(walls, goal, g, cur);
    BoardSumNonneg(g, 9);
  }

  /** Every walk from the start stays inside a set of closed cells. */
  lemma {:induction false} ClosedWalkStays(walls: seq<WallState>, start: Cell, goal: GoalRows,
                                           g: map<Cell, int>, w: seq<Cell>, n: int)
    requires start in g
    requires forall p | p in g :: Closed(walls, goal, g, p)
    requires IsWalk(walls, w) && w[0] == start
    requires 0 <= n < |w|
    ensures w[n] in g
  {
    if n > 0 {
      ClosedWalkStays(walls, start, goal, g, w, n - 1);
      var p := w[n - 1];
      assert Edge(walls, p, w[n]);
      assert Closed(walls, goal, g, p);
    }
  }

  /** When the queue is empty, no goal row is reachable. */
  lemma ExhaustedMeansUnreachable(walls: seq<WallState>, start: Cell, goal: GoalRows,
                                  g: map<Cell, int>, walks: map<Cell, seq<Cell>>)
    requires SearchInv(walls, start, goal, g, [], walks, None)
    ensures !GoalReachable(start, walls, goal)
  {
    forall p | p in g
      ensures Closed(walls, goal, g, p)
    {
      assert !InOpen([], p);
    }
    if GoalReachable(start, walls, goal) {
      var w :| GoalWalk(walls, start, goal, w);
      ClosedWalkStays(walls, start, goal, g, w, |w| - 1);
    }
  }

  function MinFIndex(open: seq<Node>): (i: int)
    requires |open| > 0
    ensures 0 <= i < |open| && forall j | 0 <= j < |open| :: open[i].f <= open[j].f
  {
    if |open| == 1 then 0
    else
      var k := MinFIndex(open[..|open| - 1]);
      assert forall j | 0 <= j < |open| - 1 :: open[..|open| - 1][j] == open[j];
      if open[k].f <= open[|open| - 1].f then k else |open| - 1
  }

  // ---------------------------------------------------------------------

  /**
   * The `for ((dr, dc) in directions)` loop of `computeShortestPath`: expand
   * the cell just taken from the queue, relaxing each allowed neighbour whose
   * tentative g-score beats the recorded one (queued only if not queued yet).
   */
  method ExpandNeighbours(start: Cell, walls: seq<WallState>, goal: GoalRows, current: Node,
                          gScore0: map<Cell, int>, fScore0: map<Cell, int>, cameFrom0: map<Cell, Cell>,
                          openSet0: seq<Node>, ghost walks0: map<Cell, seq<Cell>>)
    returns (gScore: map<Cell, int>, fScore: map<Cell, int>, cameFrom: map<Cell, Cell>,
             openSet: seq<Node>, ghost walks: map<Cell, seq<Cell>>)
    requires SearchInv(walls, start, goal, gScore0, openSet0, walks0, Some(current.pos))
    requires current.pos in gScore0 && !InGoal(goal, current.pos.r)
    ensures SearchInv(walls, start, goal, gScore, openSet, walks, None)
    ensures 0 <= Potential(gScore) && Potential(gScore) + |openSet| <= Potential(gScore0) + |openSet0|
  {
    gScore, fScore, cameFrom, openSet, walks := gScore0, fScore0, cameFrom0, openSet0, walks0;
    var cr, cc := current.pos.r, current.pos.c;
    GScoreBound(walls, start, gScore, current.pos, walks[current.pos]);
    var k := 0;
    while k < 4
      invariant 0 <= k <= 4
      invariant SearchInv(walls, start, goal, gScore, openSet, walks, Some(current.pos))
      invariant current.pos in gScore && gScore[current.pos] == gScore0[current.pos]
      invariant forall j | 0 <= j < k :: StepOK(walls, current.pos, Neighbour(current.pos, j)) ==> Neighbour(current.pos, j) in gScore
      invariant Potential(gScore) + |openSet| <= Potential(gScore0) + |openSet0|
    {
      var nr := cr + DIRECTIONS[k].0;
      var nc := cc + DIRECTIONS[k].1;
      var valid := IsMoveValid(cr, cc, nr, nc, walls);
      var neighbor := Cell(nr, nc);
      assert neighbor == Neighbour(current.pos, k);
      if valid {
        var tentativeG := gScore[current.pos] + 1;
        if tentativeG < GetOrMax(gScore, neighbor) {
          var f := tentativeG + Heuristic(goal, neighbor);
          RelaxStep(walls, start, goal, gScore, openSet, walks, current.pos, k, f, Potential(gScore0) + |openSet0|);
          cameFrom := cameFrom[neighbor := current.pos];
          gScore := gScore[neighbor := tentativeG];
          fScore := fScore[neighbor := f];
          if forall j | 0 <= j < |openSet| :: openSet[j].pos != neighbor {
            openSet := openSet + [Node(neighbor, tentativeG, f)];
          }
          walks := walks[neighbor := walks[current.pos] + [neighbor]];
        }
      }
      k := k + 1;
    }
    ExpansionCloses(walls, start, goal, gScore, openSet, walks, current.pos);
  }

  /**
   * `computeShortestPath`.  `PriorityQueue.poll` returns some entry of least
   * `f`; which one among equal `f` is left open.  `cameFrom` and `fScore` are
   * written as in the source although no result depends on them.
   */
  method ComputeShortestPath(start: Cell, walls: seq<WallState>, goal: GoalRows) returns (d: int)
    ensures IsSearchResult(start, walls, goal, d)
  {
    var openSet: seq<Node> := [];
    var cameFrom: map<Cell, Cell> := map[];
    var gScore: map<Cell, int> := map[];
    var fScore: map<Cell, int> := map[];

    gScore := gScore[start := 0];
    fScore := fScore[start := Heuristic(goal, start)];
    openSet := openSet + [Node(start, 0, fScore[start])];
    ghost var walks: map<Cell, seq<Cell>> := map[start := [start]];
    assert WalkFor(walls, start, gScore, start, [start]);
    assert openSet[0].pos == start;
    BoardSumNonneg(gScore, 9);

    while openSet != []
      invariant SearchInv(walls, start, goal, gScore, openSet, walks, None)
      invariant InGoal(goal, start.r) ==> |openSet| == 1 && openSet[0].pos == start
      invariant 0 <= Potential(gScore)
      decreases Potential(gScore) + |openSet|
    {
      ghost var m := MinFIndex(openSet);
      var i :| 0 <= i < |openSet| && forall j | 0 <= j < |openSet| :: openSet[i].f <= openSet[j].f;
      var current := openSet[i];
      PopKeepsInv(walls, start, goal, gScore, openSet, walks, i);
      openSet := openSet[..i] + openSet[i + 1..];
      if InGoal(goal, current.pos.r) {
        d := gScore[current.pos];
        GScoreBound(walls, start, gScore, current.pos, walks[current.pos]);
        assert GoalWalk(walls, start, goal, walks[current.pos]);
        return;
      }
      gScore, fScore, cameFrom, openSet, walks :=
        ExpandNeighbours(start, walls, goal, current, gScore, fScore, cameFrom, openSet, walks);
    }
    ExhaustedMeansUnreachable(walls, start, goal, gScore, walks);
    return KotlinInt.INT_MAX;
  }
}
