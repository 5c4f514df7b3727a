/**
 * The AI turn of `applyAIMove` in GameRenderer.kt: measure both players'
 * distances, list the candidate moves (a new "normale" wall in every free
 * slot, then every existing wall advanced to the next type), ask
 * `GodWardenAI` for a placement, and fall back to the candidate with the
 * best distance gain when it passes.
 */
module AITurn {
  import opened Walls
  import opened ShortestPath
  import opened GodWarden
  import opened Wrappers
  import KotlinInt

  /** A candidate: the simulated wall list, and the action (0 = place, 1 = evolve) with its wall. */
  datatype Candidate = Candidate(wallsSim: seq<WallState>, action: (int, WallState))

  // ---------------------------------------------------------------------
  // Cyclic wall types

  /** `List.indexOf`: the first position holding `t`, or -1. */
  function IndexOf(xs: seq<string>, t: string): (i: int)
    ensures -1 <= i < |xs|
    ensures i == -1 <==> t !in xs
    ensures 0 <= i ==> xs[i] == t && forall j | 0 <= j < i :: xs[j] != t
  {
    if xs == [] then -1
    else if xs[0] == t then 0
    else
      var k := IndexOf(xs[1..], t);
      if k == -1 then -1 else k + 1
  }

  /** `WALL_TYPES[(WALL_TYPES.indexOf(t) + 1) % WALL_TYPES.size]`. */
  function NextType(t: string): string {
    WALL_TYPES[(IndexOf(WALL_TYPES, t) + 1) % |WALL_TYPES|]
  }

  /** A wall advanced to the next type, keeping its key. */
  function Mutated(w: WallState): WallState {
    WallState(w.r, w.c, w.orientation, NextType(w.wallType))
  }

  /** In a list without repeats, `indexOf` finds each entry at its own position. */
  lemma IndexOfDistinct(xs: seq<string>, i: int)
    requires forall a, b | 0 <= a < b < |xs| :: xs[a] != xs[b]
    requires 0 <= i < |xs|
    ensures IndexOf(xs, xs[i]) == i
  {
    var k := IndexOf(xs, xs[i]);
    assert xs[i] in xs;
    assert xs[k] == xs[i];
  }

  /** The five type names differ (they even differ in length). */
  lemma WallTypesDistinct()
    ensures forall a, b | 0 <= a < b < |WALL_TYPES| :: WALL_TYPES[a] != WALL_TYPES[b]
  {
    assert |WALL_TYPES[0]| == 7 && |WALL_TYPES[1]| == 10 && |WALL_TYPES[2]| == 11;
    assert |WALL_TYPES[3]| == 12 && |WALL_TYPES[4]| == 13;
  }

  /** Each listed type advances to the one after it, and the last wraps to "normale". */
  lemma NextTypeFollowsList(i: int)
    requires 0 <= i < |WALL_TYPES|
    ensures NextType(WALL_TYPES[i]) == WALL_TYPES[if i == |WALL_TYPES| - 1 then 0 else i + 1]
  {
    WallTypesDistinct();
    IndexOfDistinct(WALL_TYPES, i);
    assert |WALL_TYPES| == 5;
    if i < 4 {
      assert (i + 1) % 5 == i + 1;
    } else {
      assert (i + 1) % 5 == 0;
    }
  }

  /** A type outside the list (indexOf gives -1) becomes "normale". */
  lemma UnknownTypeBecomesNormale(t: string)
    requires t !in WALL_TYPES
    ensures NextType(t) == "normale"
  {
  }

  /** Five evolutions bring a listed type back to itself; the result is always listed. */
  lemma NextTypeCycle(t: string)
    requires t in WALL_TYPES
    ensures NextType(NextType(NextType(NextType(NextType(t))))) == t
  {
    var i0 := IndexOf(WALL_TYPES, t);
    NextTypeFollowsList(i0);
    var i1 := if i0 == 4 then 0 else i0 + 1;
    var t1 := NextType(t);
    NextTypeFollowsList(i1);
    var i2 := if i1 == 4 then 0 else i1 + 1;
    var t2 := NextType(t1);
    NextTypeFollowsList(i2);
    var i3 := if i2 == 4 then 0 else i2 + 1;
    var t3 := NextType(t2);
    NextTypeFollowsList(i3);
    var i4 := if i3 == 4 then 0 else i3 + 1;
    var t4 := NextType(t3);
    NextTypeFollowsList(i4);
    assert NextType(t4) == t;
  }

  /**
   * Evolving a wall of a listed type leaves every step as allowed or refused
   * as before: all listed types block alike.  Evolving any wall never opens
   * a step.
   */
  lemma MutationKeepsBlocking(walls: seq<WallState>, index: int, r: int, c: int, nr: int, nc: int)
    requires 0 <= index < |walls|
    ensures MoveAllowed(r, c, nr, nc, walls[index := Mutated(walls[index])]) ==> MoveAllowed(r, c, nr, nc, walls)
    ensures walls[index].wallType in WALL_TYPES ==>
      (MoveAllowed(r, c, nr, nc, walls[index := Mutated(walls[index])]) <==> MoveAllowed(r, c, nr, nc, walls))
  {
    var m := walls[index := Mutated(walls[index])];
    AllWallTypesBlock(walls[index].wallType);
    AllWallTypesBlock(m[index].wallType);
    assert forall i | 0 <= i < |walls| && i != index :: m[i] == walls[i];
  }

  // ---------------------------------------------------------------------
  // Candidates

  /** A placement candidate: the walls plus the new one, action 0. */
  function PlacementCandidate(walls: seq<WallState>, w: WallState): Candidate {
    Candidate(walls + [w], (0, w))
  }

  /** An evolution candidate: the wall at `index` replaced by its mutation, action 1. */
  function MutationCandidate(walls: seq<WallState>, index: int): Candidate
    requires 0 <= index < |walls|
  {
    var m := Mutated(walls[index]);
    Candidate(walls[index := m], (1, m))
  }

  /**
   * Scanning cell (r, c): the free slots the two `if`s append to the scan
   * are the cell's free slots, and each gets its placement candidate.
   */
  lemma CellScanned(walls: seq<WallState>, r: int, c: nat, placed: seq<WallState>, cands: seq<Candidate>,
                    placed': seq<WallState>, cands': seq<Candidate>)
    requires 0 <= r <= LAST && c <= LAST
    requires placed == Slots(walls, r) + RowSlots(walls, r, c)
    requires |cands| == |placed| && forall i | 0 <= i < |placed| :: cands[i] == PlacementCandidate(walls, placed[i])
    requires var h, v := WallState(r, c, 'h', "normale"), WallState(r, c, 'v', "normale");
      var hFree, vFree := r < 9 && c < LAST && FreeSlot(walls, r, c, 'h'), r < LAST && c < 9 && FreeSlot(walls, r, c, 'v');
      && (hFree && vFree ==> placed' == placed + [h] + [v] && cands' == cands + [Candidate(walls + [h], (0, h))] + [Candidate(walls + [v], (0, v))])
      && (hFree && !vFree ==> placed' == placed + [h] && cands' == cands + [Candidate(walls + [h], (0, h))])
      && (!hFree && vFree ==> placed' == placed + [v] && cands' == cands + [Candidate(walls + [v], (0, v))])
      && (!hFree && !vFree ==> placed' == placed && cands' == cands)
    ensures placed' == Slots(walls, r) + RowSlots(walls, r, c + 1)
    ensures |cands'| == |placed'| && forall i | 0 <= i < |placed'| :: cands'[i] == PlacementCandidate(walls, placed'[i])
  {
    var cell := CellSlots(walls, r, c);
    assert placed' == placed + cell;
    assert placed + cell == Slots(walls, r) + (RowSlots(walls, r, c) + cell);
  }

  /** Step 3a of `applyAIMove`: one placement candidate per free slot, in scan order. */
  method PlacementCandidates(currentWalls: seq<WallState>) returns (candidates: seq<Candidate>)
    ensures |candidates| == |AvailableSlots(currentWalls)|
    ensures forall i | 0 <= i < |candidates| ::
      candidates[i] == PlacementCandidate(currentWalls, AvailableSlots(currentWalls)[i])
  {
    candidates := [];
    ghost var placed: seq<WallState> := [];
    var r := 0;
    while r <= LAST
      invariant 0 <= r <= LAST + 1
      invariant placed == Slots(currentWalls, r)
      invariant |candidates| == |placed|
      invariant forall i | 0 <= i < |placed| :: candidates[i] == PlacementCandidate(currentWalls, placed[i])
    {
      var c := 0;
      while c <= LAST
        invariant 0 <= c <= LAST + 1
        invariant placed == Slots(currentWalls, r) + RowSlots(currentWalls, r, c)
        invariant |candidates| == |placed|
        invariant forall i | 0 <= i < |placed| :: candidates[i] == PlacementCandidate(currentWalls, placed[i])
      {
        ghost var placed0, candidates0 := placed, candidates;
        if r < 9 && c < LAST && FreeSlot(currentWalls, r, c, 'h') {
          var newWalls := currentWalls + [WallState(r, c, 'h', "normale")];
          candidates := candidates + [Candidate(newWalls, (0, WallState(r, c, 'h', "normale")))];
          placed := placed + [WallState(r, c, 'h', "normale")];
        }
        if r < LAST && c < 9 && FreeSlot(currentWalls, r, c, 'v') {
          var newWalls := currentWalls + [WallState(r, c, 'v', "normale")];
          candidates := candidates + [Candidate(newWalls, (0, WallState(r, c, 'v', "normale")))];
          placed := placed + [WallState(r, c, 'v', "normale")];
        }
        CellScanned(currentWalls, r, c, placed0, candidates0, placed, candidates);
        c := c + 1;
      }
      r := r + 1;
    }
  }

  /** Step 3b of `applyAIMove`: one evolution candidate per existing wall, in list order. */
  method EvolutionCandidates(currentWalls: seq<WallState>) returns (candidates: seq<Candidate>)
    ensures |candidates| == |currentWalls|
    ensures forall i | 0 <= i < |currentWalls| :: candidates[i] == MutationCandidate(currentWalls, i)
  {
    candidates := [];
    var index := 0;
    while index < |currentWalls|
      invariant 0 <= index <= |currentWalls|
      invariant |candidates| == index
      invariant forall i | 0 <= i < index :: candidates[i] == MutationCandidate(currentWalls, i)
    {
      var w := currentWalls[index];
      var idxType := IndexOf(WALL_TYPES, w.wallType);
      var nextType := WALL_TYPES[(idxType + 1) % |WALL_TYPES|];
      var newWalls := currentWalls[index := WallState(w.r, w.c, w.orientation, nextType)];
      candidates := candidates + [Candidate(newWalls, (1, WallState(w.r, w.c, w.orientation, nextType)))];
      index := index + 1;
    }
  }

  /** Steps 3a and 3b together: the placement candidates, then the evolution candidates. */
  method GenerateCandidates(currentWalls: seq<WallState>) returns (candidates: seq<Candidate>)
    ensures |candidates| == |AvailableSlots(currentWalls)| + |currentWalls|
    ensures forall i | 0 <= i < |AvailableSlots(currentWalls)| ::
      candidates[i] == PlacementCandidate(currentWalls, AvailableSlots(currentWalls)[i])
    ensures forall i | 0 <= i < |currentWalls| ::
      candidates[|AvailableSlots(currentWalls)| + i] == MutationCandidate(currentWalls, i)
  {
    var placements := PlacementCandidates(currentWalls);
    var evolutions := EvolutionCandidates(currentWalls);
    candidates := placements + evolutions;
    assert forall i | 0 <= i < |placements| :: candidates[i] == placements[i];
    assert forall i | 0 <= i < |evolutions| :: candidates[|placements| + i] == evolutions[i];
  }

  /**
   * Every placement candidate adds exactly one "normale" wall in a free slot
   * (an 'h' slot at (r, c) iff c < 8 and the key is free, a 'v' slot iff
   * r < 8 and the key is free), each free slot exactly once; every evolution
   * candidate keeps the wall's key, advances its type and leaves every other
   * wall as it was.
   */
  lemma CandidatesDescribed(currentWalls: seq<WallState>, candidates: seq<Candidate>, w: WallState, index: int)
    requires |candidates| == |AvailableSlots(currentWalls)| + |currentWalls|
    requires forall i | 0 <= i < |AvailableSlots(currentWalls)| ::
      candidates[i] == PlacementCandidate(currentWalls, AvailableSlots(currentWalls)[i])
    requires forall i | 0 <= i < |currentWalls| ::
      candidates[|AvailableSlots(currentWalls)| + i] == MutationCandidate(currentWalls, i)
    requires 0 <= index < |currentWalls|
    ensures IsPlacement(currentWalls, w) <==>
      exists i | 0 <= i < |AvailableSlots(currentWalls)| :: candidates[i] == Candidate(currentWalls + [w], (0, w))
    ensures var m := candidates[|AvailableSlots(currentWalls)| + index];
      && m.action.0 == 1
      && |m.wallsSim| == |currentWalls|
      && m.wallsSim[index].r == currentWalls[index].r && m.wallsSim[index].c == currentWalls[index].c
      && m.wallsSim[index].orientation == currentWalls[index].orientation
      && m.wallsSim[index].wallType == NextType(currentWalls[index].wallType)
      && (forall j | 0 <= j < |currentWalls| && j != index :: m.wallsSim[j] == currentWalls[j])
  {
    var slots := AvailableSlots(currentWalls);
    assert candidates[|slots| + index] == MutationCandidate(currentWalls, index);
    AvailableSlotsExact(currentWalls);
    if IsPlacement(currentWalls, w) {
      var i :| 0 <= i < |slots| && slots[i] == w;
      assert candidates[i] == Candidate(currentWalls + [w], (0, w));
    }
  }

  // ---------------------------------------------------------------------
  // Fallback selection

  /** `(simDA + simDB) - (dA + dB)` in Kotlin Int arithmetic. */
  function Score(simDA: int, simDB: int, dA: int, dB: int): int {
    KotlinInt.Sub(KotlinInt.Add(simDA, simDB), KotlinInt.Add(dA, dB))
  }

  /** With all four distances finite the Int score is the exact change in the distance sum. */
  lemma FiniteScoreIsExact(simDA: int, simDB: int, dA: int, dB: int)
    requires 0 <= simDA <= MAX_STEPS && 0 <= simDB <= MAX_STEPS
    requires 0 <= dA <= MAX_STEPS && 0 <= dB <= MAX_STEPS
    ensures Score(simDA, simDB, dA, dB) == (simDA + simDB) - (dA + dB)
    ensures -2 * MAX_STEPS <= Score(simDA, simDB, dA, dB) <= 2 * MAX_STEPS
  {
  }

  /** `s` is a score the fallback may compute for `cand`. */
  ghost predicate IsCandidateScore(posA: Cell, posB: Cell, dA: int, dB: int, cand: Candidate, s: int) {
    exists simDA, simDB ::
      && IsSearchResult(posA, cand.wallsSim, GoalRows(8, 8), simDA)
      && IsSearchResult(posB, cand.wallsSim, GoalRows(0, 0), simDB)
      && s == Score(simDA, simDB, dA, dB)
  }

  /** `i` is the first maximal score, and that score beats the initial `Int.MIN_VALUE`. */
  predicate IsFirstBest(scores: seq<int>, i: int) {
    IsFirstMax(scores, i) && KotlinInt.INT_MIN < scores[i]
  }

  /** One more scored candidate, from the two searches on its walls. */
  lemma ScoresExtended(posA: Cell, posB: Cell, dA: int, dB: int, candidates: seq<Candidate>, scores: seq<int>,
                       simDA: int, simDB: int)
    requires |scores| < |candidates|
    requires forall j | 0 <= j < |scores| :: IsCandidateScore(posA, posB, dA, dB, candidates[j], scores[j])
    requires IsSearchResult(posA, candidates[|scores|].wallsSim, GoalRows(8, 8), simDA)
    requires IsSearchResult(posB, candidates[|scores|].wallsSim, GoalRows(0, 0), simDB)
    ensures var s := scores + [Score(simDA, simDB, dA, dB)];
      forall j | 0 <= j < |s| :: IsCandidateScore(posA, posB, dA, dB, candidates[j], s[j])
  {
    var s := scores + [Score(simDA, simDB, dA, dB)];
    assert IsCandidateScore(posA, posB, dA, dB, candidates[|scores|], s[|scores|]);
    forall j | 0 <= j < |s|
      ensures IsCandidateScore(posA, posB, dA, dB, candidates[j], s[j])
    {
      if j < |scores| {
        assert s[j] == scores[j];
      }
    }
  }

  /** While no score has beaten `Int.MIN_VALUE`, the next one either is the first best or keeps it so. */
  lemma BestStarted(scores: seq<int>, x: int)
    requires forall j | 0 <= j < |scores| :: scores[j] == KotlinInt.INT_MIN
    requires KotlinInt.InRange(x)
    ensures x > KotlinInt.INT_MIN ==> IsFirstBest(scores + [x], |scores|)
    ensures x <= KotlinInt.INT_MIN ==> forall j | 0 <= j < |scores| + 1 :: (scores + [x])[j] == KotlinInt.INT_MIN
  {
  }

  /** A later score replaces the first best only when strictly greater. */
  lemma BestExtended(scores: seq<int>, b: int, x: int)
    requires IsFirstBest(scores, b)
    ensures x > scores[b] ==> IsFirstBest(scores + [x], |scores|)
    ensures x <= scores[b] ==> IsFirstBest(scores + [x], b)
  {
  }

  /**
   * The fallback loop of `applyAIMove`: starting from `Int.MIN_VALUE`, a
   * candidate replaces the best so far only with a strictly greater score,
   * so the first candidate of maximal score wins; none wins when every score
   * is `Int.MIN_VALUE`.
   */
  method SelectBest(posA: Cell, posB: Cell, dA: int, dB: int, candidates: seq<Candidate>)
    returns (bestCandidate: Option<Candidate>, ghost scores: seq<int>, ghost bestIndex: int)
    ensures |scores| == |candidates|
    ensures forall i | 0 <= i < |candidates| :: IsCandidateScore(posA, posB, dA, dB, candidates[i], scores[i])
    ensures bestCandidate == None <==> forall i | 0 <= i < |scores| :: scores[i] == KotlinInt.INT_MIN
    ensures bestCandidate != None ==> IsFirstBest(scores, bestIndex) && bestCandidate == Some(candidates[bestIndex])
  {
    var bestScore := KotlinInt.INT_MIN;
    bestCandidate := None;
    scores, bestIndex := [], -1;
    var i := 0;
    while i < |candidates|
      invariant 0 <= i <= |candidates| && |scores| == i
      invariant forall j | 0 <= j < i :: IsCandidateScore(posA, posB, dA, dB, candidates[j], scores[j])
      invariant bestCandidate == None ==> bestScore == KotlinInt.INT_MIN && forall j | 0 <= j < i :: scores[j] == KotlinInt.INT_MIN
      invariant bestCandidate != None ==>
        IsFirstBest(scores, bestIndex) && bestCandidate == Some(candidates[bestIndex]) && bestScore == scores[bestIndex]
    {
      var cand := candidates[i];
      var simWalls := cand.wallsSim;
      var simDA := ComputeShortestPath(posA, simWalls, GoalRows(8, 8));
      var simDB := ComputeShortestPath(posB, simWalls, GoalRows(0, 0));
      var score := Score(simDA, simDB, dA, dB);
      ScoresExtended(posA, posB, dA, dB, candidates, scores, simDA, simDB);
      if bestCandidate == None {
        BestStarted(scores, score);
      } else {
        BestExtended(scores, bestIndex, score);
      }
      if score > bestScore {
        bestScore := score;
        bestCandidate := Some(cand);
        bestIndex := i;
      }
      scores := scores + [score];
      i := i + 1;
    }
  }

  /** The fallback and `maxByOrNull` pick the same position whenever the fallback picks one. */
  lemma FallbackAgreesWithMaxBy(scores: seq<int>, i: int)
    requires IsFirstBest(scores, i)
    ensures i == FirstArgMax(scores)
  {
    FirstMaxUnique(scores, i, FirstArgMax(scores));
  }

  // ---------------------------------------------------------------------
  // The turn

  /**
   * The candidate built from a `GodWardenAI` move: an 'h' wall at
   * (z, x) = the slot's (r, c), whatever orientation the slot had.
   */
  function GodCandidate(walls: seq<WallState>, slot: WallState): Candidate {
    var w := WallState(slot.r, slot.c, 'h', slot.wallType);
    Candidate(walls + [w], (0, w))
  }

  /**
   * A 'v' slot in the last column comes back as an 'h' wall in the last
   * column, which stops no step between board cells.
   */
  lemma LastColumnGodWallIsInert(walls: seq<WallState>, slot: WallState, r: int, c: int, nr: int, nc: int)
    requires slot.c == LAST && OnBoard(r, c)
    ensures GodCandidate(walls, slot).action.1.orientation == 'h'
    ensures MoveAllowed(r, c, nr, nc, GodCandidate(walls, slot).wallsSim) <==> MoveAllowed(r, c, nr, nc, walls)
  {
    var sim := GodCandidate(walls, slot).wallsSim;
    assert forall i | 0 <= i < |walls| :: sim[i] == walls[i];
  }

  /**
   * `applyAIMove`, lines 467-529.  The two player cells come from the
   * renderer's transforms and are parameters here.  While a free slot
   * exists, `GodWardenAI` always answers with a wall and the turn takes it
   * (as an 'h' wall); with no free slot it passes and the fallback chooses
   * among the evolution candidates, or chooses nothing.
   */
  method ApplyAIMove(posA: Cell, posB: Cell, currentWalls: seq<WallState>)
    returns (bestCandidate: Option<Candidate>, ghost evaluations: seq<int>)
    ensures var slots := AvailableSlots(currentWalls);
      slots != [] ==>
        && |evaluations| == |slots|
        && (forall i | 0 <= i < |slots| :: IsEvaluation(GameBoard(currentWalls, [posA, posB]), slots[i], evaluations[i]))
        && bestCandidate == Some(GodCandidate(currentWalls, slots[FirstArgMax(evaluations)]))
    ensures AvailableSlots(currentWalls) == [] ==>
      bestCandidate == None || exists i | 0 <= i < |currentWalls| :: bestCandidate == Some(MutationCandidate(currentWalls, i))
  {
    var dA := ComputeShortestPath(posA, currentWalls, GoalRows(8, 8));
    var dB := ComputeShortestPath(posB, currentWalls, GoalRows(0, 0));
    var candidates := GenerateCandidates(currentWalls);

    var currentBoard := GameBoard(currentWalls, [posA, posB]);
    var godMove;
    godMove, evaluations := CalculateStrategicPlacement(currentBoard);

    AvailableSlotsExact(currentWalls);
    var slots := AvailableSlots(currentWalls);
    if slots != [] {
      var k := FirstArgMax(evaluations);
      assert slots[k] in slots;
    }
    if godMove.isWall && godMove.x >= 0 && godMove.z >= 0 {
      var wallState := WallState(godMove.z, godMove.x, 'h', godMove.wallType);
      var newWalls := currentWalls + [wallState];
      bestCandidate := Some(Candidate(newWalls, (0, wallState)));
    } else {
      ghost var scores, bestIndex;
      bestCandidate, scores, bestIndex := SelectBest(posA, posB, dA, dB, candidates);
      if bestCandidate != None {
        assert candidates[bestIndex] == MutationCandidate(currentWalls, bestIndex);
      }
    }
  }
}
