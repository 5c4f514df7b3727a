/**
 * The `Character` record of CharacterController.kt: a playable hero with a
 * class, a cell position that `move` overwrites and a one-shot skill flag.
 */
module Characters {
  datatype CharacterClass = GUERRIERO | MAGA | ROBOT

  class Character {
    const name: string
    const kind: CharacterClass
    const modelFile: string
    var positionX: int
    var positionZ: int
    var skillUsed: bool

    constructor(name: string, kind: CharacterClass, modelFile: string, positionX: int, positionZ: int)
      ensures this.name == name && this.kind == kind && this.modelFile == modelFile
      ensures this.positionX == positionX && this.positionZ == positionZ && !skillUsed
    {
      this.name := name;
      this.kind := kind;
      this.modelFile := modelFile;
      this.positionX := positionX;
      this.positionZ := positionZ;
      skillUsed := false;
    }
  }
}

/**
 * `CharacterController` (CharacterController.kt): loads the three heroes,
 * moves them at most one cell per axis, and fires each hero's one-shot
 * skill against the tile map held by `MapManager`.
 */
module CharacterController {
  import opened Wrappers
  import opened MapGenerator
  import opened Characters
  import opened MapManager
  import KotlinInt

  /** `move`'s refusal test, with Kotlin's wrapping `-` and `abs`. */
  predicate MoveRefused(fromX: int, fromZ: int, newX: int, newZ: int)
    requires KotlinInt.InRange(fromX) && KotlinInt.InRange(fromZ) && KotlinInt.InRange(newX) && KotlinInt.InRange(newZ)
  {
    KotlinInt.Abs(KotlinInt.Sub(newX, fromX)) > 1 || KotlinInt.Abs(KotlinInt.Sub(newZ, fromZ)) > 1
  }

  /**
   * While the differences fit in an Int (and are not `Int.MIN_VALUE`), `move` refuses exactly the targets
   * more than one cell away on some axis: diagonal steps are allowed.
   */
  lemma MoveRefusedIsDistance(fromX: int, fromZ: int, newX: int, newZ: int)
    requires KotlinInt.InRange(fromX) && KotlinInt.InRange(fromZ) && KotlinInt.InRange(newX) && KotlinInt.InRange(newZ)
    requires KotlinInt.INT_MIN < newX - fromX <= KotlinInt.INT_MAX
    requires KotlinInt.INT_MIN < newZ - fromZ <= KotlinInt.INT_MAX
    ensures MoveRefused(fromX, fromZ, newX, newZ) <==> KotlinInt.AbsValue(newX - fromX) > 1 || KotlinInt.AbsValue(newZ - fromZ) > 1
  {
    assert KotlinInt.Sub(newX, fromX) == newX - fromX;
    assert KotlinInt.Sub(newZ, fromZ) == newZ - fromZ;
  }

  /** A jump of 2^31 columns wraps to `Int.MIN_VALUE`, whose `abs` is negative, so `move` lets it through. */
  lemma WrappedJumpIsAccepted()
    ensures !MoveRefused(0, 0, KotlinInt.INT_MIN, 0)
  {
    assert KotlinInt.Sub(KotlinInt.INT_MIN, 0) == KotlinInt.INT_MIN;
  }

  /** Kotlin Ints only: every coordinate stored in the map and the heroes fits in 32 bits. */
  ghost predicate IntCoordinates(tiles: seq<Tile>)
  {
    forall i | 0 <= i < |tiles| :: KotlinInt.InRange(tiles[i].x) && KotlinInt.InRange(tiles[i].z)
  }

  class CharacterController {
    var characters: seq<Character>
    /** The `MapManager` singleton the skills act on. */
    const mapManager: MapManager

    constructor(mapManager: MapManager)
      ensures characters == [] && this.mapManager == mapManager
    {
      characters := [];
      this.mapManager := mapManager;
    }

    /** `loadCharacters`: exactly the three heroes at (1,4), (4,4) and (7,4), skills unused. */
    method LoadCharacters()
      modifies this
      ensures |characters| == 3
      ensures forall i | 0 <= i < 3 :: fresh(characters[i]) && !characters[i].skillUsed && characters[i].positionZ == 4
      ensures characters[0].name == "Guerriero" && characters[0].kind == GUERRIERO && characters[0].modelFile == "warrior.glb"
      ensures characters[1].name == "Maga" && characters[1].kind == MAGA && characters[1].modelFile == "sorceress.glb"
      ensures characters[2].name == "Robot" && characters[2].kind == ROBOT && characters[2].modelFile == "robot.glb"
      ensures characters[0].positionX == 1 && characters[1].positionX == 4 && characters[2].positionX == 7
      ensures characters[0] != characters[1] && characters[1] != characters[2] && characters[0] != characters[2]
    {
      characters := [];
      var guerriero := new Character("Guerriero", GUERRIERO, "warrior.glb", 1, 4);
      characters := characters + [guerriero];
      var maga := new Character("Maga", MAGA, "sorceress.glb", 4, 4);
      characters := characters + [maga];
      var robot := new Character("Robot", ROBOT, "robot.glb", 7, 4);
      characters := characters + [robot];
    }

    /** `move`: a refused target leaves the hero where it is; otherwise both coordinates are set. */
    method Move(character: Character, newX: int, newZ: int)
      requires KotlinInt.InRange(character.positionX) && KotlinInt.InRange(character.positionZ)
      requires KotlinInt.InRange(newX) && KotlinInt.InRange(newZ)
      modifies character
      ensures old(MoveRefused(character.positionX, character.positionZ, newX, newZ)) ==>
        character.positionX == old(character.positionX) && character.positionZ == old(character.positionZ)
      ensures !old(MoveRefused(character.positionX, character.positionZ, newX, newZ)) ==>
        character.positionX == newX && character.positionZ == newZ
      ensures character.skillUsed == old(character.skillUsed)
    {
      if KotlinInt.Abs(KotlinInt.Sub(newX, character.positionX)) > 1 || KotlinInt.Abs(KotlinInt.Sub(newZ, character.positionZ)) > 1 {
        return;
      }
      character.positionX := newX;
      character.positionZ := newZ;
    }

    /**
     * `activateSkill`: nothing once the skill is used.  GUERRIERO turns a
     * WALL tile in front into FLOOR; ROBOT moves the nearest wall onto the
     * nearest empty tile; each spends the skill only when it acts.  MAGA
     * always spends it; its teleport target is two columns away, which
     * `move` refuses, so the hero stays put.  A missing teleport target is
     * the exception `first` throws, which escapes `activateSkill`: `thrown`
     * reports it, and nothing has changed by then.
     */
    method ActivateSkill(character: Character) returns (thrown: bool)
      requires mapManager.initialized && IntCoordinates(mapManager.currentMap)
      requires KotlinInt.InRange(character.positionX) && KotlinInt.InRange(character.positionZ)
      modifies character, mapManager.currentMap
      ensures character.positionX == old(character.positionX) && character.positionZ == old(character.positionZ)
      ensures thrown <==> !old(character.skillUsed) && character.kind == MAGA && old(mapManager.GetSafeTeleport(character)).None?
      ensures old(character.skillUsed) ==>
        character.skillUsed && forall t | t in mapManager.currentMap :: t.kind == old(t.kind)
      ensures !old(character.skillUsed) && character.kind == GUERRIERO ==>
        var target := old(mapManager.GetTileInFront(character));
        if target.Some? && old(target.value.kind) == WALL then
          character.skillUsed && target.value.kind == FLOOR &&
          forall t | t in mapManager.currentMap && t != target.value :: t.kind == old(t.kind)
        else
          !character.skillUsed && forall t | t in mapManager.currentMap :: t.kind == old(t.kind)
      ensures !old(character.skillUsed) && character.kind == MAGA ==>
        character.skillUsed == old(mapManager.GetSafeTeleport(character)).Some? &&
        forall t | t in mapManager.currentMap :: t.kind == old(t.kind)
      ensures !old(character.skillUsed) && character.kind == ROBOT ==>
        var wall, spot := old(mapManager.GetNearbyWall(character)), old(mapManager.GetNearbyEmptyTile(character));
        if wall.Some? && spot.Some? then
          character.skillUsed && wall.value != spot.value && wall.value.kind == FLOOR && spot.value.kind == WALL &&
          forall t | t in mapManager.currentMap && t != wall.value && t != spot.value :: t.kind == old(t.kind)
        else
          !character.skillUsed && forall t | t in mapManager.currentMap :: t.kind == old(t.kind)
    {
      thrown := false;
      if character.skillUsed {
        return;
      }
      match character.kind
      case GUERRIERO =>
        var targetTile := mapManager.GetTileInFront(character);
        if targetTile.Some? && targetTile.value.kind == WALL {
          mapManager.RemoveTile(targetTile.value);
          character.skillUsed := true;
        }
      case MAGA =>
        var destination := mapManager.GetSafeTeleport(character);
        if destination.None? {
          return true;
        }
        Move(character, destination.value.x, destination.value.z);
        character.skillUsed := true;
      case ROBOT =>
        var oldWall := mapManager.GetNearbyWall(character);
        var newPosition := mapManager.GetNearbyEmptyTile(character);
        if oldWall.Some? && newPosition.Some? {
          mapManager.MoveWall(oldWall.value, newPosition.value);
          character.skillUsed := true;
        }
    }
  }
}
