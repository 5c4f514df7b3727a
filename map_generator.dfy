/**
 * `MapGenerator` (MapGenerator.kt): the tile map of the 3D game.  A `Tile`
 * keeps its coordinates and has a mutable type; `generateMap` refills the
 * generator's `map` list with size x size fresh tiles in x-major order: a
 * wall border, random walls and traps inside (two rolls in 0..100 per tile,
 * compared with the biome's densities), then the two start tiles.
 */
module MapGenerator {
  import opened Wrappers
  import opened Lists
  import KotlinInt

  datatype TileType = FLOOR | WALL | START_A | START_B | TRAP | SPECIAL

  class Tile {
    const x: int
    const z: int
    var kind: TileType

    constructor(x: int, z: int, kind: TileType)
      ensures this.x == x && this.z == z && this.kind == kind
    {
      this.x := x;
      this.z := z;
      this.kind := kind;
    }
  }

  datatype Biome = Biome(name: string, wallDensity: int, trapDensity: int, backgroundColor: int)

  /** The three biomes; the colours are ARGB literals converted with `toInt()`, hence wrapped. */
  const FORESTA_MAGICA: Biome := Biome("Foresta Magica", 25, 10, KotlinInt.Wrap(0xFF00_6600))
  const DESERTO_ANTICO: Biome := Biome("Deserto Antico", 35, 5, KotlinInt.Wrap(0xFFFF_CC66))
  const CITTA_FUTURISTICA: Biome := Biome("Città Futuristica", 20, 15, KotlinInt.Wrap(0xFF10_1030))

  /** Index of the first tile at (x, z), or -1 when there is none (Kotlin `find`/`first`). */
  function FirstAt(tiles: seq<Tile>, x: int, z: int): (i: int)
    ensures -1 <= i < |tiles|
    ensures 0 <= i ==> tiles[i].x == x && tiles[i].z == z
    ensures forall j | 0 <= j < |tiles| && (i < 0 || j < i) :: !(tiles[j].x == x && tiles[j].z == z)
  {
    FirstIndex(tiles, (t: Tile) => t.x == x && t.z == z)
  }

  predicate OnBorder(size: int, x: int, z: int) {
    x == 0 || z == 0 || x == size - 1 || z == size - 1
  }

  /** A value of `(0..100).random()`. */
  predicate IsRoll(r: int) {
    0 <= r <= 100
  }

  /** The type of tile (x, z) after the border rule and the two density rolls. */
  function InitialKind(size: int, theme: Biome, x: int, z: int, wallRoll: int, trapRoll: int): TileType {
    var bordered := if OnBorder(size, x, z) then WALL else FLOOR;
    var walled := if wallRoll < theme.wallDensity && bordered == FLOOR then WALL else bordered;
    if trapRoll < theme.trapDensity && walled == FLOOR then TRAP else walled
  }

  /** The type of tile (x, z) once the start tiles are set; START_B is written last, so it wins. */
  function FinalKind(size: int, theme: Biome, x: int, z: int, rolls: (int, int)): TileType {
    if x == size - 2 && z == size / 2 then START_B
    else if x == 1 && z == size / 2 then START_A
    else InitialKind(size, theme, x, z, rolls.0, rolls.1)
  }

  /**
   * What a tile can be before the start tiles: the border is always wall;
   * an interior tile is FLOOR, WALL or TRAP; a trap only lands on a tile
   * the wall roll left as floor.
   */
  lemma InitialKindCases(size: int, theme: Biome, x: int, z: int, wallRoll: int, trapRoll: int)
    ensures OnBorder(size, x, z) ==> InitialKind(size, theme, x, z, wallRoll, trapRoll) == WALL
    ensures InitialKind(size, theme, x, z, wallRoll, trapRoll) in {FLOOR, WALL, TRAP}
    ensures InitialKind(size, theme, x, z, wallRoll, trapRoll) == TRAP <==>
      !OnBorder(size, x, z) && theme.wallDensity <= wallRoll && trapRoll < theme.trapDensity
    ensures InitialKind(size, theme, x, z, wallRoll, trapRoll) == FLOOR <==>
      !OnBorder(size, x, z) && theme.wallDensity <= wallRoll && theme.trapDensity <= trapRoll
  {
  }

  /** Row-major indexing: index x * size + z holds the tile (x, z). */
  lemma IndexCoordinates(x: int, z: int, size: int)
    requires 0 <= x && 0 <= z < size
    ensures (x * size + z) / size == x && (x * size + z) % size == z
  {
    var q, r := (x * size + z) / size, (x * size + z) % size;
    assert x * size + z == q * size + r;
    assert (x - q) * size == r - z;
    ProductBounds(x - q, size);
  }

  /** Index x * size + z lies inside a size x size map. */
  lemma IndexInRange(x: int, z: int, size: int)
    requires 0 <= x < size && 0 <= z < size
    ensures 0 <= x * size + z < size * size
  {
    assert (x + 1) * size <= size * size;
  }

  lemma ProductBounds(k: int, size: int)
    requires 0 < size
    ensures 1 <= k ==> size <= k * size
    ensures k <= -1 ==> k * size <= -size
  {
  }

  /** Two indices with the same quotient and remainder are the same index. */
  lemma SameCoordinatesSameIndex(i: int, j: int, size: int)
    requires 0 < size && 0 <= i && 0 <= j
    requires i / size == j / size && i % size == j % size
    ensures i == j
  {
  }

  /** The first n tiles of an x-major size x size map: distinct, at their coordinates, of their rolled type. */
  ghost predicate TilesFilled(size: int, theme: Biome, tiles: seq<Tile>, rolls: seq<(int, int)>, n: int)
    reads tiles
  {
    && 1 <= size
    && |tiles| == n && |rolls| == n
    && (forall i, j | 0 <= i < j < n :: tiles[i] != tiles[j])
    && (forall i | 0 <= i < n :: tiles[i].x == i / size && tiles[i].z == i % size)
    && (forall i | 0 <= i < n ::
          IsRoll(rolls[i].0) && IsRoll(rolls[i].1) &&
          tiles[i].kind == InitialKind(size, theme, i / size, i % size, rolls[i].0, rolls[i].1))
  }

  /** Appending the rolled tile (x, z) at index x * size + z keeps the map filled. */
  lemma TileAppended(size: int, theme: Biome, tiles: seq<Tile>, rolls: seq<(int, int)>,
                     x: int, z: int, tile: Tile, roll: (int, int))
    requires 0 <= x && 0 <= z < size
    requires TilesFilled(size, theme, tiles, rolls, x * size + z)
    requires tile !in tiles && tile.x == x && tile.z == z
    requires IsRoll(roll.0) && IsRoll(roll.1) && tile.kind == InitialKind(size, theme, x, z, roll.0, roll.1)
    ensures TilesFilled(size, theme, tiles + [tile], rolls + [roll], x * size + z + 1)
  {
    IndexCoordinates(x, z, size);
    var n := x * size + z;
    var tiles', rolls' := tiles + [tile], rolls + [roll];
    assert tiles'[n] == tile && rolls'[n] == roll;
    assert forall i | 0 <= i < n :: tiles'[i] == tiles[i] && rolls'[i] == rolls[i];
  }

  /** On an x-major size x size map, `first` finds (x, z) iff it is a cell, at index x * size + z. */
  lemma FirstAtOnGrid(tiles: seq<Tile>, size: int, x: int, z: int)
    requires (1 <= size && |tiles| == size * size) || tiles == []
    requires forall i | 0 <= i < |tiles| :: tiles[i].x == i / size && tiles[i].z == i % size
    ensures FirstAt(tiles, x, z) >= 0 <==> tiles != [] && 0 <= x < size && 0 <= z < size
    ensures FirstAt(tiles, x, z) >= 0 ==> FirstAt(tiles, x, z) == x * size + z
  {
    var k := FirstAt(tiles, x, z);
    if tiles != [] && 0 <= x < size && 0 <= z < size {
      IndexCoordinates(x, z, size);
      IndexInRange(x, z, size);
      var w := x * size + z;
      assert tiles[w].x == x && tiles[w].z == z;
    }
    if 0 <= k {
      assert tiles[k].x == k / size && tiles[k].z == k % size;
      QuotientBelow(k, size);
      assert k == (k / size) * size + k % size;
    }
  }

  /** An index of a size x size map lies in a row of it. */
  lemma QuotientBelow(k: int, size: int)
    requires 1 <= size && 0 <= k < size * size
    ensures 0 <= k / size < size
  {
    var q := k / size;
    assert q * size <= k;
    MulMonotone(size, q, size);
  }

  lemma MulMonotone(a: int, b: int, c: int)
    requires 0 <= c
    ensures a <= b ==> a * c <= b * c
  {
  }

  /** The next row starts where this one ends. */
  lemma NextRow(x: int, size: int)
    ensures x * size + size == (x + 1) * size
  {
  }

  class MapGenerator {
    const size: int
    /** The generator's `map` list (`map` is a reserved word here). */
    var tiles: seq<Tile>

    constructor(size: int)
      ensures this.size == size && tiles == []
    {
      this.size := size;
      tiles := [];
    }

    /** One tile of the nested loops: a fresh FLOOR tile, then the border rule and the two rolls. */
    method RollTile(x: int, z: int, theme: Biome) returns (tile: Tile, ghost rolls: (int, int))
      ensures fresh(tile) && tile.x == x && tile.z == z
      ensures IsRoll(rolls.0) && IsRoll(rolls.1) && tile.kind == InitialKind(size, theme, x, z, rolls.0, rolls.1)
    {
      tile := new Tile(x, z, FLOOR);
      if x == 0 || z == 0 || x == size - 1 || z == size - 1 {
        tile.kind := WALL;
      }
      var wallRoll :| IsRoll(wallRoll);
      if wallRoll < theme.wallDensity && tile.kind == FLOOR {
        tile.kind := WALL;
      }
      var trapRoll :| IsRoll(trapRoll);
      if trapRoll < theme.trapDensity && tile.kind == FLOOR {
        tile.kind := TRAP;
      }
      rolls := (wallRoll, trapRoll);
    }

    /** The tiles of the generated map before the start tiles, x-major. */
    ghost predicate Filled(theme: Biome, rolls: seq<(int, int)>, n: int)
      reads this, tiles
    {
      TilesFilled(size, theme, tiles, rolls, n)
    }

    /** `map.clear()` and the nested loops over x and z, which run no iteration when size < 1. */
    method FillTiles(theme: Biome) returns (ghost rolls: seq<(int, int)>)
      modifies this
      ensures 1 <= size ==> Filled(theme, rolls, size * size)
      ensures size < 1 ==> tiles == [] && rolls == []
      ensures forall i | 0 <= i < |tiles| :: fresh(tiles[i])
    {
      tiles := [];
      rolls := [];
      var x := 0;
      while x < size
        invariant 0 <= x && (1 <= size ==> x <= size)
        invariant 1 <= size ==> Filled(theme, rolls, x * size)
        invariant size < 1 ==> tiles == [] && rolls == []
        invariant forall i | 0 <= i < |tiles| :: fresh(tiles[i])
      {
        var z := 0;
        while z < size
          invariant 0 <= z <= size
          invariant Filled(theme, rolls, x * size + z)
          invariant forall i | 0 <= i < |tiles| :: fresh(tiles[i])
        {
          var tile, roll := RollTile(x, z, theme);
          assert tile !in tiles;
          TileAppended(size, theme, tiles, rolls, x, z, tile, roll);
          tiles := tiles + [tile];
          rolls := rolls + [roll];
          z := z + 1;
        }
        NextRow(x, size);
        x := x + 1;
      }
    }

    /**
     * `generateMap(theme)`.  `map.first { ... }` throws when a start tile is
     * missing, which happens exactly when size < 2: the result is then None,
     * and the `map` field keeps the tiles the loops filled in (none when
     * size < 1, the single border tile when size is 1).  `rolls[i]` records
     * the two random values drawn for tile i.
     */
    method GenerateMap(theme: Biome) returns (result: Option<seq<Tile>>, ghost rolls: seq<(int, int)>)
      modifies this
      ensures result.None? <==> size < 2
      ensures result.Some? ==> result.value == tiles
      ensures |tiles| == (if size < 1 then 0 else size * size) && |rolls| == |tiles|
      ensures forall i | 0 <= i < |tiles| :: fresh(tiles[i])
      ensures forall i, j | 0 <= i < j < |tiles| :: tiles[i] != tiles[j]
      ensures forall i | 0 <= i < |tiles| :: tiles[i].x == i / size && tiles[i].z == i % size
      ensures forall i | 0 <= i < |tiles| :: IsRoll(rolls[i].0) && IsRoll(rolls[i].1)
      ensures forall i | 0 <= i < |tiles| ::
        tiles[i].kind == (if result.Some? then FinalKind(size, theme, i / size, i % size, rolls[i])
                          else InitialKind(size, theme, i / size, i % size, rolls[i].0, rolls[i].1))
    {
      rolls := FillTiles(theme);
      var foundA := SetFirst(1, size / 2, START_A);
      if !foundA {
        return None, rolls;
      }
      var foundB := SetFirst(size - 2, size / 2, START_B);
      if !foundB {
        return None, rolls;
      }
      result := Some(tiles);
    }

    /**
     * `map.first { it.x == x && it.z == z }.type = kind` on the x-major map:
     * `found` is false when `first` throws, which is exactly when (x, z) is
     * not a cell of the map, and then no tile changes.
     */
    method SetFirst(x: int, z: int, kind: TileType) returns (found: bool)
      requires (1 <= size && |tiles| == size * size) || tiles == []
      requires forall i, j | 0 <= i < j < |tiles| :: tiles[i] != tiles[j]
      requires forall i | 0 <= i < |tiles| :: tiles[i].x == i / size && tiles[i].z == i % size
      modifies tiles
      ensures found <==> tiles != [] && 0 <= x < size && 0 <= z < size
      ensures forall i | 0 <= i < |tiles| ::
        tiles[i].kind == if found && i / size == x && i % size == z then kind else old(tiles[i].kind)
    {
      var k := FirstAt(tiles, x, z);
      FirstAtOnGrid(tiles, size, x, z);
      if k < 0 {
        return false;
      }
      tiles[k].kind := kind;
      forall i | 0 <= i < |tiles| && i / size == x && i % size == z
        ensures i == k
      {
        SameCoordinatesSameIndex(i, k, size);
      }
      return true;
    }
  }

  /**
   * The generated map's types: the start tiles are (1, size/2) and
   * (size-2, size/2) (one START_B tile when they coincide at size 3);
   * every other border tile is WALL and every other interior tile is FLOOR,
   * WALL or TRAP.
   */
  lemma GeneratedKinds(size: int, theme: Biome, x: int, z: int, rolls: (int, int))
    requires 2 <= size && 0 <= x < size && 0 <= z < size
    ensures x == size - 2 && z == size / 2 ==> FinalKind(size, theme, x, z, rolls) == START_B
    ensures x == 1 && z == size / 2 && size != 3 ==> FinalKind(size, theme, x, z, rolls) == START_A
    ensures FinalKind(size, theme, x, z, rolls) in {START_A, START_B} <==>
      z == size / 2 && (x == 1 || x == size - 2)
    ensures !(z == size / 2 && (x == 1 || x == size - 2)) && OnBorder(size, x, z) ==>
      FinalKind(size, theme, x, z, rolls) == WALL
    ensures !(z == size / 2 && (x == 1 || x == size - 2)) ==>
      FinalKind(size, theme, x, z, rolls) in {FLOOR, WALL, TRAP}
  {
    InitialKindCases(size, theme, x, z, rolls.0, rolls.1);
  }
}
