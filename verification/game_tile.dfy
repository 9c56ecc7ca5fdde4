/** The tile record of 3DScenes/ScenesScripts/TileMapScripts/Helpers/Tile.cs
    (namespace Game.ScenesHelper). `Type` has a private setter that only the
    constructor uses, so it is a constant here; the other properties are fields. */
module GameTile {
  import opened Common
  import opened Scene
  import opened TileProperties

  class Tile {
    const Type: TileType
    var ContainsObject: SceneNode?
    var PositionGrid: Vec3I
    var IsEntity: bool
    var HasInteractableObject: bool
    var IsPassable: bool

    constructor (tileType: TileType)
      ensures Type == tileType
      ensures IsPassable == TileProperties.IsPassable(tileType)
      ensures ContainsObject == null && !IsEntity && !HasInteractableObject
      ensures PositionGrid == Vec3I(0, 0, 0)
    {
      Type := tileType;
      ContainsObject := null;
      PositionGrid := Vec3I(0, 0, 0);
      IsEntity := false;
      HasInteractableObject := false;
      IsPassable := TileProperties.IsPassable(tileType);
    }

    /** Clears the occupant; passability, position and the interactable flag stay. */
    method Reset()
      modifies this
      ensures ContainsObject == null && !IsEntity
      ensures IsPassable == old(IsPassable) && PositionGrid == old(PositionGrid)
      ensures HasInteractableObject == old(HasInteractableObject)
    {
      ContainsObject := null;
      IsEntity := false;
    }

    method SetPassable(isPassable: bool)
      modifies this`IsPassable
      ensures IsPassable == isPassable
    {
      IsPassable := isPassable;
    }

    /** Reads the terrain table for `Type` only: the function has no reads clause, so
        no assignment to `IsPassable` (by `SetPassable` or anything else) can change
        its value. */
    function GetPassable(): (r: bool)
      ensures r <==> (Type == Grass || Type == Forest || Type == Town || Type == Road)
    {
      TileProperties.IsPassable(Type)
    }

    function GetMovementCost(): (r: real)
      ensures Type in MovementCostLookup ==> r == MovementCostLookup[Type]
      ensures Type !in MovementCostLookup ==> r == 1.0
      ensures 0.75 <= r <= 1.25
    {
      TileProperties.GetMovementCost(Type)
    }
  }

  /** A fresh Grass tile made impassable by `SetPassable(false)` still reports
      `GetPassable() == true`: the two disagree from then on. */
  method GetPassableIgnoresFlag() returns (t: Tile)
    ensures t.Type == Grass && !t.IsPassable && t.GetPassable()
  {
    t := new Tile(Grass);
    t.SetPassable(false);
  }

  /** Every cell of the map holds a tile. */
  ghost predicate Filled(tiles: array2<Tile?>)
    reads tiles
  {
    forall x, z :: 0 <= x < tiles.Length0 && 0 <= z < tiles.Length1 ==> tiles[x, z] != null
  }

  ghost function Cells(tiles: array2<Tile?>): set<Tile?>
    reads tiles
  {
    set x, z | 0 <= x < tiles.Length0 && 0 <= z < tiles.Length1 :: tiles[x, z]
  }

  /** The tiles of a map that may be null (`Scenes.TileMap.Map` before it is built). */
  ghost function CellsOf(tiles: array2?<Tile?>): set<Tile?>
    reads tiles
  {
    if tiles == null then {} else Cells(tiles)
  }
}
