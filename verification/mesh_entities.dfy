/** `Entities` of 3DScenes/ScenesScripts/ScenesHelper/TileMapScripts/Entities.cs (on
    the ScenesHelper tiles): puts every `Node3D` child on the tile under it, flags the
    tile as holding an entity and lifts the entity to height 1. Entities overwrite:
    a tile keeps the last entity to land on it. Entities outside the map stay where
    they are and are not freed. */
module MeshEntities {
  import opened Common
  import opened Scene
  import opened MeshTile
  import opened Placement

  const EntityYPosition: real := 1.0

  class Entities {
    var MapWidth: int
    var MapHeight: int
    var GridPositionConverter: real

    constructor ()
      ensures MapWidth == 0 && MapHeight == 0 && GridPositionConverter == 0.0
    {
      MapWidth, MapHeight, GridPositionConverter := 0, 0, 0.0;
    }

    /** `Initialize`: with no map it changes nothing at all; otherwise it records its
        arguments and places the children. `initialized` lists the nodes whose own
        `Initialize()` is called, in order. */
    method Initialize(tiles: array2?<Tile?>, children: seq<Child>,
                      mapWidth: int, mapHeight: int, gridPositionConverter: real)
      returns (initialized: seq<SceneNode>)
      requires tiles != null ==> Filled(tiles) && Distinct(tiles)
      requires tiles != null ==> LandingCellsExist(tiles.Length0, tiles.Length1, children, false, mapWidth, mapHeight)
      requires DistinctNodes(children)
      modifies this, CellsOf(tiles)`ContainsObject, CellsOf(tiles)`IsEntity, Nodes(children)`Position
      ensures tiles == null ==>
        MapWidth == old(MapWidth) && MapHeight == old(MapHeight) &&
        GridPositionConverter == old(GridPositionConverter) && initialized == []
      ensures tiles == null ==> forall i :: 0 <= i < |children| ==>
        children[i].node.Position == old(children[i].node.Position)
      ensures tiles != null ==>
        MapWidth == mapWidth && MapHeight == mapHeight && GridPositionConverter == gridPositionConverter
      ensures tiles != null ==> forall x, z :: 0 <= x < tiles.Length0 && 0 <= z < tiles.Length1 ==>
        tiles[x, z].ContainsObject ==
          (if LastAt(children, false, x, z, mapWidth, mapHeight).Some?
           then LastAt(children, false, x, z, mapWidth, mapHeight).value else old(tiles[x, z].ContainsObject)) &&
        tiles[x, z].IsEntity == (LastAt(children, false, x, z, mapWidth, mapHeight).Some? || old(tiles[x, z].IsEntity))
      ensures tiles != null ==> forall i :: 0 <= i < |children| ==>
        MovedIfLanded(children[i], mapWidth, mapHeight, old(children[i].node.Position),
                      CellToWorld(children[i].gridX, children[i].gridZ, gridPositionConverter, EntityYPosition))
      ensures tiles != null ==> initialized == InteractableNodes(children)
    {
      if tiles == null {
        return [];
      }
      MapWidth := mapWidth;
      MapHeight := mapHeight;
      GridPositionConverter := gridPositionConverter;
      initialized := InitializeEntities(tiles, children, mapWidth, mapHeight, gridPositionConverter);
    }

    /** `HandleEntityInteraction` for the cell under the character: its body (the
        call to `Interact`) is commented out, so the only effect is the test; `reached`
        says whether that empty branch is entered. */
    method HandleEntityInteraction(tiles: array2<Tile?>, gridX: int, gridZ: int) returns (reached: bool)
      requires InMap(gridX, gridZ, MapWidth, MapHeight) ==>
        gridX < tiles.Length0 && gridZ < tiles.Length1 && tiles[gridX, gridZ] != null
      ensures reached <==>
        InMap(gridX, gridZ, MapWidth, MapHeight) &&
        tiles[gridX, gridZ].ContainsObject != null && tiles[gridX, gridZ].IsEntity
    {
      reached := false;
      if gridX >= 0 && gridX < MapWidth && gridZ >= 0 && gridZ < MapHeight {
        var tile := tiles[gridX, gridZ];
        if tile.ContainsObject != null && tile.IsEntity {
          reached := true;
        }
      }
    }
  }

  /** `InitializeEntities`: the loop over the children. */
  method InitializeEntities(tiles: array2<Tile?>, children: seq<Child>, w: int, h: int, converter: real)
    returns (initialized: seq<SceneNode>)
    requires Filled(tiles) && Distinct(tiles)
    requires LandingCellsExist(tiles.Length0, tiles.Length1, children, false, w, h)
    requires DistinctNodes(children)
    modifies Cells(tiles)`ContainsObject, Cells(tiles)`IsEntity, Nodes(children)`Position
    ensures forall x, z :: 0 <= x < tiles.Length0 && 0 <= z < tiles.Length1 ==>
      tiles[x, z].ContainsObject ==
        (if LastAt(children, false, x, z, w, h).Some? then LastAt(children, false, x, z, w, h).value
         else old(tiles[x, z].ContainsObject)) &&
      tiles[x, z].IsEntity == (LastAt(children, false, x, z, w, h).Some? || old(tiles[x, z].IsEntity))
    ensures forall i :: 0 <= i < |children| ==>
      MovedIfLanded(children[i], w, h, old(children[i].node.Position),
                    CellToWorld(children[i].gridX, children[i].gridZ, converter, EntityYPosition))
    ensures initialized == InteractableNodes(children)
  {
    initialized := [];
    var i := 0;
    while i < |children|
      invariant 0 <= i <= |children|
      invariant forall x, z :: 0 <= x < tiles.Length0 && 0 <= z < tiles.Length1 ==>
        tiles[x, z].ContainsObject ==
          (if LastAt(children[..i], false, x, z, w, h).Some? then LastAt(children[..i], false, x, z, w, h).value
           else old(tiles[x, z].ContainsObject))
      invariant forall x, z :: 0 <= x < tiles.Length0 && 0 <= z < tiles.Length1 ==>
        tiles[x, z].IsEntity == (LastAt(children[..i], false, x, z, w, h).Some? || old(tiles[x, z].IsEntity))
      invariant forall j :: 0 <= j < i ==>
        MovedIfLanded(children[j], w, h, old(children[j].node.Position),
                      CellToWorld(children[j].gridX, children[j].gridZ, converter, EntityYPosition))
      invariant forall j :: i <= j < |children| ==> children[j].node.Position == old(children[j].node.Position)
      invariant initialized == InteractableNodes(children[..i])
    {
      var child := children[i];
      assert children[..i + 1][..i] == children[..i];
      if child.node.IsNode3D() {
        AssignEntityToTile(tiles, child, w, h, converter);
        if child.node.IsInteractable {
          initialized := initialized + [child.node];
        }
      }
      i := i + 1;
    }
    assert children[..|children|] == children;
  }

  /** `AssignEntityToTile` for one `Node3D`. */
  method AssignEntityToTile(tiles: array2<Tile?>, entity: Child, w: int, h: int, converter: real)
    requires Filled(tiles) && Distinct(tiles)
    requires entity.node.IsNode3D()
    requires Lands(entity, false, w, h) ==> entity.gridX < tiles.Length0 && entity.gridZ < tiles.Length1
    modifies Cells(tiles)`ContainsObject, Cells(tiles)`IsEntity, entity.node`Position
    ensures MovedIfLanded(entity, w, h, old(entity.node.Position),
                          CellToWorld(entity.gridX, entity.gridZ, converter, EntityYPosition))
    ensures forall x, z :: 0 <= x < tiles.Length0 && 0 <= z < tiles.Length1 ==>
      tiles[x, z].ContainsObject == (if LandsAt(entity, false, x, z, w, h) then entity.node else old(tiles[x, z].ContainsObject)) &&
      tiles[x, z].IsEntity == (LandsAt(entity, false, x, z, w, h) || old(tiles[x, z].IsEntity))
  {
    var gridX := entity.gridX;
    var gridZ := entity.gridZ;
    if gridX < 0 || gridX >= w || gridZ < 0 || gridZ >= h {
      return;
    }
    var tile := tiles[gridX, gridZ];
    tile.ContainsObject := entity.node;
    tile.IsEntity := true;
    entity.node.Position := CellToWorld(gridX, gridZ, converter, EntityYPosition);
  }
}
