/** The tile record of 3DScenes/ScenesScripts/ScenesHelper/Tile.cs: passability and
    movement cost are computed once by `InitializeTileProperties` from the type,
    without consulting the TileProperties tables. */
module CostTile {
  import opened Common
  import opened Scene
  import opened TileProperties

  /** `InitializeTileProperties`' passability rule. */
  function InitialPassable(t: TileType): bool {
    t != Water && t != Mountain && t != NotDefined
  }

  /** `InitializeTileProperties`' cost switch. */
  function InitialCost(t: TileType): real {
    match t
    case Road => 0.75
    case Grass => 1.0
    case Forest => 1.25
    case _ => 1.0
  }

  /** The hard-coded rules agree with the TileProperties tables for every type. */
  lemma AgreesWithTileProperties(t: TileType)
    ensures InitialPassable(t) == TileProperties.IsPassable(t)
    ensures InitialCost(t) == TileProperties.GetMovementCost(t)
  {
  }

  class Tile {
    const Type: TileType
    var Object: SceneNode?
    /** Created by the constructor; the setter is private and unused elsewhere. */
    const TileMesh: MeshInstance
    var IsEntity: bool
    var IsPassable: bool
    /** Set once by `InitializeTileProperties`; the setter is private. */
    const MovementCost: real
    var PositionGrid: Vec3I

    constructor (tileType: TileType)
      ensures Type == tileType
      ensures IsPassable <==> (tileType != Water && tileType != Mountain && tileType != NotDefined)
      ensures tileType == Road ==> MovementCost == 0.75
      ensures tileType == Forest ==> MovementCost == 1.25
      ensures tileType != Road && tileType != Forest ==> MovementCost == 1.0
      ensures Object == null && !IsEntity
      ensures PositionGrid == Vec3I(0, 0, 0)
      ensures fresh(TileMesh)
    {
      Type := tileType;
      Object := null;
      TileMesh := new MeshInstance();
      IsEntity := false;
      IsPassable := InitialPassable(tileType);
      MovementCost := InitialCost(tileType);
      PositionGrid := Vec3I(0, 0, 0);
    }

    method SetPassable(isPassable: bool)
      modifies this`IsPassable
      ensures IsPassable == isPassable
    {
      IsPassable := isPassable;
    }
  }

  ghost predicate Filled(tiles: array2<Tile?>)
    reads tiles
  {
    forall x, z :: 0 <= x < tiles.Length0 && 0 <= z < tiles.Length1 ==> tiles[x, z] != null
  }

  ghost function Cells(tiles: array2<Tile?>): set<Tile?>
    reads tiles
  {
    set x, z | 0 <= x < tiles.Length0 && 0 <= z < tiles.Length1 :: tiles[x, z]
  }

  /** The tiles of a map that may be null (`Scenes.TileMap.Map` before it is built). */
  ghost function CellsOf(tiles: array2?<Tile?>): set<Tile?>
    reads tiles
  {
    if tiles == null then {} else Cells(tiles)
  }
}
