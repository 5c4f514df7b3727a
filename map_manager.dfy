/**
 * `MapManager` (MapManager.kt): the singleton that holds the current tile
 * map and answers tile queries for the characters' skills, mutates tile
 * types in place, and finds a 4-directional path with a simplified A*.
 */
module MapManager {
  import opened Wrappers
  import opened MapGenerator
  import opened Characters
  import opened Lists
  import KotlinInt

  /** The types `isWalkable` and `getWalkableTiles` accept. */
  predicate IsWalkableKind(k: TileType) {
    k == FLOOR || k == START_A || k == START_B
  }


  /** `abs(a - b)` on Kotlin Ints: the difference wraps, and `abs(Int.MIN_VALUE)` stays negative. */
  function AxisDistance(a: int, b: int): int {
    KotlinInt.Abs(KotlinInt.Sub(a, b))
  }

  /** `heuristic`, and the distance `getTilesInRadius` computes: `abs(x1 - x2) + abs(z1 - z2)` in Int arithmetic. */
  function Heuristic(x1: int, z1: int, x2: int, z2: int): int {
    KotlinInt.Add(AxisDistance(x1, x2), AxisDistance(z1, z2))
  }

  /** While the difference fits in an Int, the Int test measures the true distance. */
  lemma AxisDistanceIsDistance(a: int, b: int)
    requires KotlinInt.AbsValue(a - b) <= KotlinInt.INT_MAX
    ensures AxisDistance(a, b) == KotlinInt.AbsValue(a - b)
  {
    assert KotlinInt.Sub(a, b) == a - b;
  }

  /** While the distances and their sum fit in an Int, `heuristic` is the Manhattan distance. */
  lemma HeuristicIsManhattan(x1: int, z1: int, x2: int, z2: int)
    requires KotlinInt.AbsValue(x1 - x2) + KotlinInt.AbsValue(z1 - z2) <= KotlinInt.INT_MAX
    ensures Heuristic(x1, z1, x2, z2) == KotlinInt.AbsValue(x1 - x2) + KotlinInt.AbsValue(z1 - z2)
  {
    AxisDistanceIsDistance(x1, x2);
    AxisDistanceIsDistance(z1, z2);
  }

  /** A centre at `Int.MIN_VALUE` is at distance `Int.MIN_VALUE` from column 0, which is within every radius >= it. */
  lemma DistanceWrapsAtIntMin()
    ensures Heuristic(0, 0, KotlinInt.INT_MIN, 0) == KotlinInt.INT_MIN
  {
    assert KotlinInt.Sub(0, KotlinInt.INT_MIN) == KotlinInt.INT_MIN;
    assert AxisDistance(0, 0) == 0;
  }

  /** Column `Int.MIN_VALUE + 1` is two columns from `Int.MAX_VALUE` once the difference wraps. */
  lemma TwoColumnsAcrossTheWrap()
    ensures AxisDistance(KotlinInt.INT_MIN + 1, KotlinInt.INT_MAX) == 2
  {
    assert KotlinInt.Sub(KotlinInt.INT_MIN + 1, KotlinInt.INT_MAX) == 2;
  }

  /** (x2, z2) is one of the four `neighbors` of (x1, z1), each stepped with Int `+ 1` or `- 1`. */
  predicate Adjacent(x1: int, z1: int, x2: int, z2: int) {
    || (z2 == z1 && (x2 == KotlinInt.Add(x1, 1) || x2 == KotlinInt.Sub(x1, 1)))
    || (x2 == x1 && (z2 == KotlinInt.Add(z1, 1) || z2 == KotlinInt.Sub(z1, 1)))
  }

  /** Away from the Int limits, a neighbour is exactly a cell at Manhattan distance 1. */
  lemma AdjacentIsUnitStep(x1: int, z1: int, x2: int, z2: int)
    requires KotlinInt.INT_MIN < x1 < KotlinInt.INT_MAX && KotlinInt.INT_MIN < z1 < KotlinInt.INT_MAX
    ensures Adjacent(x1, z1, x2, z2) <==> KotlinInt.AbsValue(x1 - x2) + KotlinInt.AbsValue(z1 - z2) == 1
  {
    assert KotlinInt.Add(x1, 1) == x1 + 1 && KotlinInt.Sub(x1, 1) == x1 - 1;
    assert KotlinInt.Add(z1, 1) == z1 + 1 && KotlinInt.Sub(z1, 1) == z1 - 1;
  }

  /** `a` keeps some of the elements of `b`, in `b`'s order (what Kotlin `filter` returns). */
  ghost predicate IsSubsequence(a: seq<Tile>, b: seq<Tile>)
    decreases |b|
  {
    a == [] || (b != [] && ((a[0] == b[0] && IsSubsequence(a[1..], b[1..])) || IsSubsequence(a, b[1..])))
  }

  /** `filter { it.type in kinds }`. */
  function FilterKinds(tiles: seq<Tile>, kinds: set<TileType>): (r: seq<Tile>)
    reads tiles
    ensures forall i | 0 <= i < |r| :: r[i] in tiles && r[i].kind in kinds
    ensures forall i | 0 <= i < |tiles| && tiles[i].kind in kinds :: tiles[i] in r
    ensures IsSubsequence(r, tiles)
  {
    if tiles == [] then []
    else if tiles[0].kind in kinds then [tiles[0]] + FilterKinds(tiles[1..], kinds)
    else FilterKinds(tiles[1..], kinds)
  }

  /** `count { it.type == kind }`: as many as the filter keeps. */
  function CountKind(tiles: seq<Tile>, kind: TileType): (n: nat)
    reads tiles
    ensures n == |FilterKinds(tiles, {kind})|
    ensures n <= |tiles|
  {
    if tiles == [] then 0
    else (if tiles[0].kind == kind then 1 else 0) + CountKind(tiles[1..], kind)
  }

  /** `filter { abs(it.x - cx) + abs(it.z - cz) <= radius }`, in Int arithmetic. */
  function TilesInRadius(tiles: seq<Tile>, cx: int, cz: int, radius: int): (r: seq<Tile>)
    ensures forall i | 0 <= i < |r| :: r[i] in tiles && Heuristic(r[i].x, r[i].z, cx, cz) <= radius
    ensures forall i | 0 <= i < |tiles| && Heuristic(tiles[i].x, tiles[i].z, cx, cz) <= radius :: tiles[i] in r
    ensures IsSubsequence(r, tiles)
  {
    if tiles == [] then []
    else if Heuristic(tiles[0].x, tiles[0].z, cx, cz) <= radius then [tiles[0]] + TilesInRadius(tiles[1..], cx, cz, radius)
    else TilesInRadius(tiles[1..], cx, cz, radius)
  }

  /** The three `find`/`first` searches around a character. */
  datatype TileQuery = NearbyWall | NearbyEmpty | SafeTeleport

  predicate Matches(t: Tile, q: TileQuery, cx: int, cz: int)
    reads t
  {
    match q
    case NearbyWall => t.kind == WALL && AxisDistance(t.x, cx) <= 1 && AxisDistance(t.z, cz) <= 1
    case NearbyEmpty => t.kind == FLOOR && AxisDistance(t.x, cx) <= 2 && AxisDistance(t.z, cz) <= 2
    case SafeTeleport => t.kind == FLOOR && AxisDistance(t.x, cx) == 2
  }

  /** The first tile that matches, or None. */
  function FirstMatch(tiles: seq<Tile>, q: TileQuery, cx: int, cz: int): (r: Option<Tile>)
    reads tiles
    ensures r.None? <==> forall i | 0 <= i < |tiles| :: !Matches(tiles[i], q, cx, cz)
    ensures r.Some? ==> exists i | 0 <= i < |tiles| ::
      tiles[i] == r.value && Matches(tiles[i], q, cx, cz) && forall j | 0 <= j < i :: !Matches(tiles[j], q, cx, cz)
  {
    if tiles == [] then None
    else if Matches(tiles[0], q, cx, cz) then Some(tiles[0])
    else
      var r := FirstMatch(tiles[1..], q, cx, cz);
      assert r.Some? ==> exists i | 0 <= i < |tiles[1..]| ::
        tiles[1..][i] == r.value && Matches(tiles[1..][i], q, cx, cz) && forall j | 0 <= j < i :: !Matches(tiles[1..][j], q, cx, cz);
      r
  }

  /** `getTileInFront`'s look-ahead along x. */
  function FrontOffset(kind: CharacterClass): int {
    match kind
    case GUERRIERO => 1
    case MAGA => 2
    case ROBOT => 1
  }

  /** The `neighbors` list: right, left, down, up along x and z. */
  function Neighbour(x: int, z: int, d: int): (c: (int, int))
    requires 0 <= d < 4
    ensures Adjacent(x, z, c.0, c.1)
  {
    [(KotlinInt.Add(x, 1), z), (KotlinInt.Sub(x, 1), z), (x, KotlinInt.Add(z, 1)), (x, KotlinInt.Sub(z, 1))][d]
  }

  /** A search node: cell, cost so far, estimated total, predecessor. */
  datatype PathNode = PathNode(x: int, z: int, g: int, f: int, parent: Option<PathNode>)

  function Depth(n: Option<PathNode>): nat {
    match n
    case None => 0
    case Some(node) => 1 + Depth(node.parent)
  }

  /** `minByOrNull { it.f }`: the first node of least f. */
  function FirstMinF(nodes: seq<PathNode>): (i: nat)
    requires |nodes| > 0
    ensures i < |nodes|
    ensures forall j | 0 <= j < |nodes| :: nodes[i].f <= nodes[j].f
    ensures forall j | 0 <= j < i :: nodes[i].f < nodes[j].f
  {
    if |nodes| == 1 then 0
    else
      var k := FirstMinF(nodes[..|nodes| - 1]);
      if nodes[|nodes| - 1].f < nodes[k].f then |nodes| - 1 else k
  }

  /** `MutableList.remove(v)`: drops the first element equal to `v`, if any. */
  function Remove(nodes: seq<PathNode>, v: PathNode): seq<PathNode> {
    var k := FirstIndex(nodes, n => n == v);
    if k < 0 then nodes else nodes[..k] + nodes[k + 1..]
  }

  /** No two open nodes share a cell. */
  predicate DistinctCells(nodes: seq<PathNode>) {
    forall a, b | 0 <= a < b < |nodes| :: (nodes[a].x, nodes[a].z) != (nodes[b].x, nodes[b].z)
  }

  /** Removing one entry keeps the other entries, their distinct cells, and drops that entry's cell. */
  lemma RemoveAtKeepsDistinct(nodes: seq<PathNode>, k: int)
    requires 0 <= k < |nodes| && DistinctCells(nodes)
    ensures DistinctCells(nodes[..k] + nodes[k + 1..])
    ensures forall n | n in nodes[..k] + nodes[k + 1..] :: n in nodes && (n.x, n.z) != (nodes[k].x, nodes[k].z)
  {
    var r := nodes[..k] + nodes[k + 1..];
    assert forall a | 0 <= a < |r| :: r[a] == if a < k then nodes[a] else nodes[a + 1];
  }

  class MapManager {
    /**
     * `currentMap`, a `lateinit` list: every query that reads it throws
     * until `setMap` has run, so those queries require `initialized`.
     */
    var currentMap: seq<Tile>
    ghost var initialized: bool

    constructor()
      ensures currentMap == [] && !initialized
    {
      currentMap := [];
      initialized := false;
    }

    method SetMap(tiles: seq<Tile>)
      modifies this
      ensures currentMap == tiles && initialized
    {
      currentMap := tiles;
      initialized := true;
    }

    /** `getTile(x, z)`: the first tile at (x, z), or None. */
    function GetTile(x: int, z: int): (r: Option<Tile>)
      reads this
      requires initialized
      ensures r.None? <==> forall i | 0 <= i < |currentMap| :: !(currentMap[i].x == x && currentMap[i].z == z)
      ensures r.Some? ==> r.value.x == x && r.value.z == z && r.value in currentMap
      ensures r.Some? ==> exists i | 0 <= i < |currentMap| ::
        currentMap[i] == r.value && forall j | 0 <= j < i :: !(currentMap[j].x == x && currentMap[j].z == z)
    {
      var i := FirstAt(currentMap, x, z);
      if i < 0 then None else Some(currentMap[i])
    }

    /** `getTileInFront`: the tile 2 cells ahead along x for MAGA, 1 cell for the others (Int `+`, so it wraps). */
    function GetTileInFront(character: Character): (r: Option<Tile>)
      reads this, character
      requires initialized
      ensures r.Some? ==>
        r.value in currentMap && r.value.z == character.positionZ &&
        r.value.x == KotlinInt.Add(character.positionX, if character.kind == MAGA then 2 else 1)
      ensures r.None? <==> forall i | 0 <= i < |currentMap| ::
        !(currentMap[i].x == KotlinInt.Add(character.positionX, FrontOffset(character.kind)) && currentMap[i].z == character.positionZ)
    {
      GetTile(KotlinInt.Add(character.positionX, FrontOffset(character.kind)), character.positionZ)
    }

    /** `getNearbyWall`: the first WALL tile within one cell on both axes. */
    function GetNearbyWall(character: Character): (r: Option<Tile>)
      reads this, character, currentMap
      requires initialized
      ensures r.Some? ==>
        r.value in currentMap && r.value.kind == WALL &&
        AxisDistance(r.value.x, character.positionX) <= 1 && AxisDistance(r.value.z, character.positionZ) <= 1
      ensures r.None? <==> forall i | 0 <= i < |currentMap| ::
        !Matches(currentMap[i], NearbyWall, character.positionX, character.positionZ)
    {
      FirstMatch(currentMap, NearbyWall, character.positionX, character.positionZ)
    }

    /** `getNearbyEmptyTile`: the first FLOOR tile within two cells on both axes. */
    function GetNearbyEmptyTile(character: Character): (r: Option<Tile>)
      reads this, character, currentMap
      requires initialized
      ensures r.Some? ==>
        r.value in currentMap && r.value.kind == FLOOR &&
        AxisDistance(r.value.x, character.positionX) <= 2 && AxisDistance(r.value.z, character.positionZ) <= 2
      ensures r.None? <==> forall i | 0 <= i < |currentMap| ::
        !Matches(currentMap[i], NearbyEmpty, character.positionX, character.positionZ)
    {
      FirstMatch(currentMap, NearbyEmpty, character.positionX, character.positionZ)
    }

    /**
     * `getSafeTeleport`: the first FLOOR tile exactly two columns away (any
     * row).  None stands for the exception `first` throws when there is none.
     */
    function GetSafeTeleport(character: Character): (r: Option<Tile>)
      reads this, character, currentMap
      requires initialized
      ensures r.Some? ==> r.value in currentMap && r.value.kind == FLOOR && AxisDistance(r.value.x, character.positionX) == 2
      ensures r.None? <==> forall i | 0 <= i < |currentMap| ::
        !Matches(currentMap[i], SafeTeleport, character.positionX, character.positionZ)
    {
      FirstMatch(currentMap, SafeTeleport, character.positionX, character.positionZ)
    }

    /** `removeTile`: the tile becomes floor. */
    method RemoveTile(tile: Tile)
      modifies tile
      ensures tile.kind == FLOOR
    {
      tile.kind := FLOOR;
    }

    /** `moveWall`: `from` becomes floor, then `to` becomes wall (so `to` wins when they are the same tile). */
    method MoveWall(from: Tile, to: Tile)
      modifies from, to
      ensures to.kind == WALL
      ensures from != to ==> from.kind == FLOOR
    {
      from.kind := FLOOR;
      to.kind := WALL;
    }

    /** `isWalkable(x, z)`: decided by the first tile at (x, z); no tile means not walkable. */
    function IsWalkable(x: int, z: int): (r: bool)
      reads this, currentMap
      requires initialized
      ensures r <==> exists i | 0 <= i < |currentMap| ::
        currentMap[i].x == x && currentMap[i].z == z && IsWalkableKind(currentMap[i].kind) &&
        forall j | 0 <= j < i :: !(currentMap[j].x == x && currentMap[j].z == z)
    {
      var t := GetTile(x, z);
      t.Some? && IsWalkableKind(t.value.kind)
    }

    /** `getWalkableTiles`: exactly the FLOOR, START_A and START_B tiles, in map order. */
    function GetWalkableTiles(): (r: seq<Tile>)
      reads this, currentMap
      requires initialized
      ensures forall i | 0 <= i < |r| :: r[i] in currentMap && IsWalkableKind(r[i].kind)
      ensures forall i | 0 <= i < |currentMap| && IsWalkableKind(currentMap[i].kind) :: currentMap[i] in r
      ensures IsSubsequence(r, currentMap)
    {
      FilterKinds(currentMap, {FLOOR, START_A, START_B})
    }

    /** `getTilesInRadius`: exactly the tiles whose Int Manhattan distance is at most `radius`, in map order. */
    function GetTilesInRadius(centerX: int, centerZ: int, radius: int): (r: seq<Tile>)
      reads this
      requires initialized
      ensures forall i | 0 <= i < |r| :: r[i] in currentMap && Heuristic(r[i].x, r[i].z, centerX, centerZ) <= radius
      ensures forall i | 0 <= i < |currentMap| && Heuristic(currentMap[i].x, currentMap[i].z, centerX, centerZ) <= radius ::
        currentMap[i] in r
      ensures IsSubsequence(r, currentMap)
    {
      TilesInRadius(currentMap, centerX, centerZ, radius)
    }

    /** `countTilesByType`: the number of tiles of that type. */
    function CountTilesByType(kind: TileType): (n: nat)
      reads this, currentMap
      requires initialized
      ensures n == |FilterKinds(currentMap, {kind})|
    {
      CountKind(currentMap, kind)
    }

    /** `isValidPosition`: the fixed 9 x 9 board, whatever the current map. */
    function IsValidPosition(x: int, z: int): bool {
      0 <= x <= 8 && 0 <= z <= 8
    }

    /**
     * `isValidPosition` is hard-wired to 9 x 9: it accepts exactly the cells
     * (i / 9, i % 9) that `generateMap` gives the tiles of a default-size map.
     */
    lemma ValidPositionsAreDefaultMapCells(x: int, z: int)
      ensures IsValidPosition(x, z) <==> exists i | 0 <= i < 9 * 9 :: i / 9 == x && i % 9 == z
    {
      if IsValidPosition(x, z) {
        IndexCoordinates(x, z, 9);
        assert (x * 9 + z) / 9 == x && (x * 9 + z) % 9 == z;
      }
    }

    /** The cells a search can ever close: the walkable cells and the start. */
    ghost function Candidates(sx: int, sz: int): set<(int, int)>
      reads this, currentMap
      requires initialized
    {
      (set i | 0 <= i < |currentMap| && IsWalkable(currentMap[i].x, currentMap[i].z) :: (currentMap[i].x, currentMap[i].z))
        + {(sx, sz)}
    }

    lemma WalkableIsCandidate(x: int, z: int, sx: int, sz: int)
      requires initialized
      requires IsWalkable(x, z)
      ensures (x, z) in Candidates(sx, sz)
    {
      var i := FirstAt(currentMap, x, z);
      assert currentMap[i].x == x && currentMap[i].z == z;
    }

    /** Every walkable cell is in `cand`. */
    ghost predicate CoversWalkable(cand: set<(int, int)>)
      reads this, currentMap
      requires initialized
    {
      forall x, z | IsWalkable(x, z) :: (x, z) in cand
    }

    /**
     * A node's parent chain is a path back to the start: each step is one
     * neighbour onto a walkable cell and adds 1 to g; the root is the start at cost 0.
     */
    ghost predicate Chain(n: PathNode, sx: int, sz: int)
      reads this, currentMap
      requires initialized
      decreases n
    {
      match n.parent
      case None => n.x == sx && n.z == sz && n.g == 0
      case Some(p) => Adjacent(p.x, p.z, n.x, n.z) && IsWalkable(n.x, n.z) && n.g == KotlinInt.Add(p.g, 1) && Chain(p, sx, sz)
    }

    /** The search invariant: open nodes carry chains, sit on distinct unclosed candidate cells. */
    ghost predicate OpenInv(open: seq<PathNode>, closed: set<(int, int)>, cand: set<(int, int)>, sx: int, sz: int)
      reads this, currentMap
      requires initialized
    {
      && (forall k | 0 <= k < |open| :: Chain(open[k], sx, sz) && (open[k].x, open[k].z) !in closed && (open[k].x, open[k].z) in cand)
      && DistinctCells(open)
      && closed <= cand
    }

    /** Dropping the entry at `k` keeps the invariant and leaves no open node on that entry's cell. */
    lemma RemoveKeepsInv(open: seq<PathNode>, closed: set<(int, int)>, cand: set<(int, int)>, sx: int, sz: int, k: int, r: seq<PathNode>)
      requires initialized
      requires OpenInv(open, closed, cand, sx, sz) && 0 <= k < |open| && r == open[..k] + open[k + 1..]
      ensures OpenInv(r, closed, cand, sx, sz)
      ensures forall j | 0 <= j < |r| :: (r[j].x, r[j].z) != (open[k].x, open[k].z)
    {
      RemoveAtKeepsDistinct(open, k);
      forall j | 0 <= j < |r|
        ensures Chain(r[j], sx, sz) && (r[j].x, r[j].z) !in closed && (r[j].x, r[j].z) in cand
        ensures (r[j].x, r[j].z) != (open[k].x, open[k].z)
      {
        assert r[j] == if j < k then open[j] else open[j + 1];
      }
    }

    /** Closing a candidate cell that no open node occupies keeps the invariant. */
    lemma CloseKeepsInv(open: seq<PathNode>, closed: set<(int, int)>, cand: set<(int, int)>, sx: int, sz: int, c: (int, int))
      requires initialized
      requires OpenInv(open, closed, cand, sx, sz) && c in cand
      requires forall j | 0 <= j < |open| :: (open[j].x, open[j].z) != c
      ensures OpenInv(open, closed + {c}, cand, sx, sz)
    {
    }

    /** Appending a chained node on a fresh, unclosed candidate cell keeps the invariant. */
    lemma AppendKeepsInv(open: seq<PathNode>, closed: set<(int, int)>, cand: set<(int, int)>, sx: int, sz: int, n: PathNode)
      requires initialized
      requires OpenInv(open, closed, cand, sx, sz)
      requires Chain(n, sx, sz) && (n.x, n.z) !in closed && (n.x, n.z) in cand
      requires forall j | 0 <= j < |open| :: (open[j].x, open[j].z) != (n.x, n.z)
      ensures OpenInv(open + [n], closed, cand, sx, sz)
    {
      var r := open + [n];
      assert forall j | 0 <= j < |r| :: r[j] == if j < |open| then open[j] else n;
    }

    /** `reconstructPath` as a value: the tiles of the chain's cells, root first, skipping cells with no tile. */
    function ChainTiles(n: PathNode): seq<Tile>
      reads this
      requires initialized
      decreases n
    {
      (match n.parent
       case None => []
       case Some(p) => ChainTiles(p))
      + (if GetTile(n.x, n.z).Some? then [GetTile(n.x, n.z).value] else [])
    }

    /**
     * What `findPath` promises of a non-empty result: it ends on the end
     * cell, each tile after the first is walkable and one step from the one
     * before, and it starts on the start cell, or next to it when the start
     * has no tile.
     */
    ghost predicate PathShape(path: seq<Tile>, sx: int, sz: int, ex: int, ez: int)
      reads this, currentMap
      requires initialized
    {
      && |path| > 0
      && path[|path| - 1].x == ex && path[|path| - 1].z == ez
      && (forall k | 0 <= k < |path| :: path[k] in currentMap)
      && (forall k | 1 <= k < |path| :: IsWalkableKind(path[k].kind) && Adjacent(path[k - 1].x, path[k - 1].z, path[k].x, path[k].z))
      && ((path[0].x == sx && path[0].z == sz) || (GetTile(sx, sz).None? && Adjacent(sx, sz, path[0].x, path[0].z)))
    }

    lemma {:induction false} ChainTilesShape(n: PathNode, sx: int, sz: int)
      requires initialized
      requires Chain(n, sx, sz)
      ensures ChainTiles(n) != [] ==> PathShape(ChainTiles(n), sx, sz, n.x, n.z)
      ensures n.parent.Some? ==> ChainTiles(n) != []
      ensures ChainTiles(n) == [] ==> n.parent.None? && GetTile(sx, sz).None?
      decreases n
    {
      match n.parent
      case None =>
      case Some(p) =>
        ChainTilesShape(p, sx, sz);
        var t := GetTile(n.x, n.z).value;
        assert ChainTiles(n) == ChainTiles(p) + [t];
    }

    /** `reconstructPath`: walks the parent links, prepending each cell's tile. */
    method ReconstructPath(node: PathNode) returns (path: seq<Tile>)
      requires initialized
      ensures path == ChainTiles(node)
    {
      path := [];
      var current := Some(node);
      while current.Some?
        invariant (if current.Some? then ChainTiles(current.value) else []) + path == ChainTiles(node)
        decreases Depth(current)
      {
        var t := GetTile(current.value.x, current.value.z);
        ReconstructStep(current.value, path, node);
        if t.Some? {
          path := [t.value] + path;
        }
        current := current.value.parent;
      }
    }

    /** Prepending a node's own tile moves the reconstruction one link up the chain. */
    lemma ReconstructStep(n: PathNode, path: seq<Tile>, node: PathNode)
      requires initialized
      requires ChainTiles(n) + path == ChainTiles(node)
      ensures (if n.parent.Some? then ChainTiles(n.parent.value) else [])
        + ((if GetTile(n.x, n.z).Some? then [GetTile(n.x, n.z).value] else []) + path) == ChainTiles(node)
    {
      var up := if n.parent.Some? then ChainTiles(n.parent.value) else [];
      var own := if GetTile(n.x, n.z).Some? then [GetTile(n.x, n.z).value] else [];
      assert ChainTiles(n) == up + own;
      assert up + (own + path) == (up + own) + path;
    }

    /** The reconstructed path of a chained node has the shape `findPath` promises. */
    method PathTo(node: PathNode, ghost sx: int, ghost sz: int) returns (path: seq<Tile>)
      requires initialized
      requires Chain(node, sx, sz)
      ensures path != [] ==> PathShape(path, sx, sz, node.x, node.z)
    {
      path := ReconstructPath(node);
      ChainTilesShape(node, sx, sz);
    }

    /** One neighbour of the inner `for`: skip closed or unwalkable cells, else queue or improve. */
    method RelaxNeighbour(current: PathNode, nx: int, nz: int, endX: int, endZ: int,
                          openSet: seq<PathNode>, closed: set<(int, int)>, ghost cand: set<(int, int)>, ghost sx: int, ghost sz: int)
      returns (openSet': seq<PathNode>)
      requires initialized
      requires OpenInv(openSet, closed, cand, sx, sz) && CoversWalkable(cand)
      requires Chain(current, sx, sz) && Adjacent(current.x, current.z, nx, nz)
      ensures OpenInv(openSet', closed, cand, sx, sz)
    {
      openSet' := openSet;
      if (nx, nz) in closed || !IsWalkable(nx, nz) {
        return;
      }
      var g := KotlinInt.Add(current.g, 1);
      var h := Heuristic(nx, nz, endX, endZ);
      var neighbor := PathNode(nx, nz, g, KotlinInt.Add(g, h), Some(current));
      var e := FirstIndex(openSet, (n: PathNode) => n.x == nx && n.z == nz);
      if e < 0 || g < openSet[e].g {
        if e >= 0 {
          var existing := openSet[e];
          assert FirstIndex(openSet, n => n == existing) == e;
          openSet' := Remove(openSet, existing);
          RemoveKeepsInv(openSet, closed, cand, sx, sz, e, openSet');
        }
        assert forall j | 0 <= j < |openSet'| :: openSet'[j] in openSet';
        AppendKeepsInv(openSet', closed, cand, sx, sz, neighbor);
        openSet' := openSet' + [neighbor];
      }
    }

    /** A finite set of cells holding the start and every walkable cell. */
    lemma CandidateCells(sx: int, sz: int) returns (cand: set<(int, int)>)
      requires initialized
      ensures CoversWalkable(cand) && (sx, sz) in cand
    {
      cand := Candidates(sx, sz);
      forall x, z | IsWalkable(x, z)
        ensures (x, z) in cand
      {
        WalkableIsCandidate(x, z, sx, sz);
      }
    }

    /** `minByOrNull { it.f }` then `remove(current)`. */
    method PopFirstMin(openSet: seq<PathNode>, closed: set<(int, int)>, ghost cand: set<(int, int)>, ghost sx: int, ghost sz: int)
      returns (current: PathNode, openSet': seq<PathNode>)
      requires initialized
      requires OpenInv(openSet, closed, cand, sx, sz) && |openSet| > 0
      ensures current in openSet && forall n | n in openSet :: current.f <= n.f
      ensures Chain(current, sx, sz) && (current.x, current.z) in cand - closed
      ensures OpenInv(openSet', closed, cand, sx, sz) && |openSet'| == |openSet| - 1
      ensures forall j | 0 <= j < |openSet'| :: (openSet'[j].x, openSet'[j].z) != (current.x, current.z)
    {
      var i := FirstMinF(openSet);
      current := openSet[i];
      openSet' := Remove(openSet, current);
      var k := FirstIndex(openSet, n => n == current);
      RemoveKeepsInv(openSet, closed, cand, sx, sz, k, openSet');
    }

    /** `closedSet.add(current)` then the neighbour loop; the unclosed candidates shrink by one. */
    method CloseAndExpand(current: PathNode, endX: int, endZ: int,
                          openSet: seq<PathNode>, closed: set<(int, int)>, ghost cand: set<(int, int)>, ghost sx: int, ghost sz: int)
      returns (closed': set<(int, int)>, openSet': seq<PathNode>)
      requires initialized
      requires OpenInv(openSet, closed, cand, sx, sz) && CoversWalkable(cand)
      requires Chain(current, sx, sz) && (current.x, current.z) in cand - closed
      requires forall j | 0 <= j < |openSet| :: (openSet[j].x, openSet[j].z) != (current.x, current.z)
      ensures closed' == closed + {(current.x, current.z)}
      ensures OpenInv(openSet', closed', cand, sx, sz)
      ensures |cand - closed'| < |cand - closed|
    {
      CloseKeepsInv(openSet, closed, cand, sx, sz, (current.x, current.z));
      closed' := closed + {(current.x, current.z)};
      assert cand - closed == (cand - closed') + {(current.x, current.z)};
      openSet' := ExpandNeighbours(current, endX, endZ, openSet, closed', cand, sx, sz);
    }

    /** The inner `for` over the four neighbours of `current`. */
    method ExpandNeighbours(current: PathNode, endX: int, endZ: int,
                            openSet: seq<PathNode>, closed: set<(int, int)>, ghost cand: set<(int, int)>, ghost sx: int, ghost sz: int)
      returns (openSet': seq<PathNode>)
      requires initialized
      requires OpenInv(openSet, closed, cand, sx, sz) && CoversWalkable(cand)
      requires Chain(current, sx, sz)
      ensures OpenInv(openSet', closed, cand, sx, sz)
    {
      openSet' := openSet;
      for d := 0 to 4
        invariant OpenInv(openSet', closed, cand, sx, sz)
      {
        var (nx, nz) := Neighbour(current.x, current.z, d);
        openSet' := RelaxNeighbour(current, nx, nz, endX, endZ, openSet', closed, cand, sx, sz);
      }
    }

    /**
     * `findPath(startX, startZ, endX, endZ)`: pops the first least-f node,
     * returns its reconstructed path when it is the end, else closes its
     * cell and relaxes its four neighbours; an exhausted open list gives [].
     * Every popped cell is closed and never queued again, so the loop ends.
     */
    method FindPath(startX: int, startZ: int, endX: int, endZ: int) returns (path: seq<Tile>)
      requires initialized
      ensures path != [] ==> PathShape(path, startX, startZ, endX, endZ)
    {
      ghost var cand := CandidateCells(startX, startZ);
      var start := PathNode(startX, startZ, 0, Heuristic(startX, startZ, endX, endZ), None);
      var openSet := [start];
      var closed: set<(int, int)> := {};
      while |openSet| > 0
        invariant CoversWalkable(cand) && (startX, startZ) in cand
        invariant OpenInv(openSet, closed, cand, startX, startZ)
        decreases |cand - closed|
      {
        var current;
        current, openSet := PopFirstMin(openSet, closed, cand, startX, startZ);
        if current.x == endX && current.z == endZ {
          path := PathTo(current, startX, startZ);
          return;
        }
        closed, openSet := CloseAndExpand(current, endX, endZ, openSet, closed, cand, startX, startZ);
      }
      path := [];
    }
  }
}
