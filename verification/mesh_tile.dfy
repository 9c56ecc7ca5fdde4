/** The tile record of 3DScenes/ScenesScripts/ScenesHelper/TileMapScripts/Helpers/Tile.cs
    (namespace ScenesHelper): like GameTile, with a settable `TileMesh` and no
    interactable flag. */
module MeshTile {
  import opened Common
  import opened Scene
  import opened TileProperties

  class Tile {
    const Type: TileType
    var ContainsObject: SceneNode?
    var TileMesh: MeshInstance?
    var IsEntity: bool
    var IsPassable: bool
    var PositionGrid: Vec3I

    constructor (tileType: TileType)
      ensures Type == tileType
      ensures IsPassable == TileProperties.IsPassable(tileType)
      ensures ContainsObject == null && TileMesh == null && !IsEntity
      ensures PositionGrid == Vec3I(0, 0, 0)
    {
      Type := tileType;
      ContainsObject := null;
      TileMesh := null;
      IsEntity := false;
      IsPassable := TileProperties.IsPassable(tileType);
      PositionGrid := Vec3I(0, 0, 0);
    }

    /** Clears the occupant and hides the mesh. The source dereferences `TileMesh`
        without a null check, so a tile whose mesh is null cannot be reset. */
    method Reset()
      requires TileMesh != null
      modifies this, TileMesh
      ensures ContainsObject == null && !IsEntity
      ensures TileMesh == old(TileMesh) && !TileMesh.Visible
      ensures IsPassable == old(IsPassable) && PositionGrid == old(PositionGrid)
    {
      ContainsObject := null;
      IsEntity := false;
      TileMesh.Visible := false;
    }

    method SetPassable(isPassable: bool)
      modifies this`IsPassable
      ensures IsPassable == isPassable
    {
      IsPassable := isPassable;
    }

    /** Depends on `Type` alone (no reads clause), never on `IsPassable`. */
    function GetPassable(): (r: bool)
      ensures r <==> (Type == Grass || Type == Forest || Type == Town || Type == Road)
    {
      TileProperties.IsPassable(Type)
    }

    function GetMovementCost(): (r: real)
      ensures Type in MovementCostLookup ==> r == MovementCostLookup[Type]
      ensures Type !in MovementCostLookup ==> r == 1.0
      ensures 0.75 <= r <= 1.25
    {
      TileProperties.GetMovementCost(Type)
    }
  }

  ghost predicate Filled(tiles: array2<Tile?>)
    reads tiles
  {
    forall x, z :: 0 <= x < tiles.Length0 && 0 <= z < tiles.Length1 ==> tiles[x, z] != null
  }

  ghost function Cells(tiles: array2<Tile?>): set<Tile?>
    reads tiles
  {
    set x, z | 0 <= x < tiles.Length0 && 0 <= z < tiles.Length1 :: tiles[x, z]
  }

  /** The tiles of a map that may be null (`Scenes.TileMap.Map` before it is built). */
  ghost function CellsOf(tiles: array2?<Tile?>): set<Tile?>
    reads tiles
  {
    if tiles == null then {} else Cells(tiles)
  }
}
