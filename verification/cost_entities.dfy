/** `Entities` of 3DScenes/ScenesScripts/TileMapScripts/Entities.cs (on the tiles
    with an `Object` slot): the other revision of MeshEntities. Same placement
    rule (the last entity to land on a tile keeps it), but the new position is
    (2 * gridX, 1, 2 * gridZ) whatever `GridPositionConverter` is. */
module CostEntities {
  import opened Common
  import opened Scene
  import opened CostTile
  import opened Placement

  /** The world position of the cell an entity is moved to. */
  function EntityTarget(gridX: int, gridZ: int): (p: Vec3)
    ensures p == CellToWorld(gridX, gridZ, 2.0, 1.0)
  {
    Vec3(gridX as real * 2.0, 1.0, gridZ as real * 2.0)
  }

  class Entities {
    var MapWidth: int
    var MapHeight: int
    var GridPositionConverter: real

    constructor ()
      ensures MapWidth == 0 && MapHeight == 0 && GridPositionConverter == 0.0
    {
      MapWidth, MapHeight, GridPositionConverter := 0, 0, 0.0;
    }

    /** `Initialize`: with no map it changes nothing at all; otherwise it records its
        arguments and places the children. `initialized` lists the nodes whose own
        `Initialize()` is called, in order. */
    method Initialize(tiles: array2?<Tile?>, children: seq<Child>,
                      mapWidth: int, mapHeight: int, gridPositionConverter: real)
      returns (initialized: seq<SceneNode>)
      requires tiles != null ==> Filled(tiles) && Distinct(tiles)
      requires tiles != null ==> LandingCellsExist(tiles.Length0, tiles.Length1, children, false, mapWidth, mapHeight)
      requires DistinctNodes(children)
      modifies this, CellsOf(tiles)`Object, CellsOf(tiles)`IsEntity, Nodes(children)`Position
      ensures tiles == null ==>
        MapWidth == old(MapWidth) && MapHeight == old(MapHeight) &&
        GridPositionConverter == old(GridPositionConverter) && initialized == []
      ensures tiles == null ==> forall i :: 0 <= i < |children| ==>
        children[i].node.Position == old(children[i].node.Position)
      ensures tiles != null ==>
        MapWidth == mapWidth && MapHeight == mapHeight && GridPositionConverter == gridPositionConverter
      ensures tiles != null ==> forall x, z :: 0 <= x < tiles.Length0 && 0 <= z < tiles.Length1 ==>
        tiles[x, z].Object ==
          (if LastAt(children, false, x, z, mapWidth, mapHeight).Some?
           then LastAt(children, false, x, z, mapWidth, mapHeight).value else old(tiles[x, z].Object)) &&
        tiles[x, z].IsEntity == (LastAt(children, false, x, z, mapWidth, mapHeight).Some? || old(tiles[x, z].IsEntity))
      ensures tiles != null ==> forall i :: 0 <= i < |children| ==>
        MovedIfLanded(children[i], mapWidth, mapHeight, old(children[i].node.Position),
                      EntityTarget(children[i].gridX, children[i].gridZ))
      ensures tiles != null ==> initialized == InteractableNodes(children)
    {
      if tiles == null {
        return [];
      }
      MapWidth := mapWidth;
      MapHeight := mapHeight;
      GridPositionConverter := gridPositionConverter;
      initialized := InitializeEntities(tiles, children, mapWidth, mapHeight);
    }

    /** `HandleEntityInteraction` for the cell under the character: its body (the
        call to `Interact`) is commented out, so the only effect is the test; `reached`
        says whether that empty branch is entered. */
    method HandleEntityInteraction(tiles: array2<Tile?>, gridX: int, gridZ: int) returns (reached: bool)
      requires InMap(gridX, gridZ, MapWidth, MapHeight) ==>
        gridX < tiles.Length0 && gridZ < tiles.Length1 && tiles[gridX, gridZ] != null
      ensures reached <==>
        InMap(gridX, gridZ, MapWidth, MapHeight) &&
        tiles[gridX, gridZ].Object != null && tiles[gridX, gridZ].IsEntity
    {
      reached := false;
      if gridX >= 0 && gridX < MapWidth && gridZ >= 0 && gridZ < MapHeight {
        var tile := tiles[gridX, gridZ];
        if tile.Object != null && tile.IsEntity {
          reached := true;
        }
      }
    }
  }

  /** `InitializeEntities`: the loop over the children. */
  method InitializeEntities(tiles: array2<Tile?>, children: seq<Child>, w: int, h: int)
    returns (initialized: seq<SceneNode>)
    requires Filled(tiles) && Distinct(tiles)
    requires LandingCellsExist(tiles.Length0, tiles.Length1, children, false, w, h)
    requires DistinctNodes(children)
    modifies Cells(tiles)`Object, Cells(tiles)`IsEntity, Nodes(children)`Position
    ensures forall x, z :: 0 <= x < tiles.Length0 && 0 <= z < tiles.Length1 ==>
      tiles[x, z].Object ==
        (if LastAt(children, false, x, z, w, h).Some? then LastAt(children, false, x, z, w, h).value
         else old(tiles[x, z].Object)) &&
      tiles[x, z].IsEntity == (LastAt(children, false, x, z, w, h).Some? || old(tiles[x, z].IsEntity))
    ensures forall i :: 0 <= i < |children| ==>
      MovedIfLanded(children[i], w, h, old(children[i].node.Position),
                    EntityTarget(children[i].gridX, children[i].gridZ))
    ensures initialized == InteractableNodes(children)
  {
    initialized := [];
    var i := 0;
    while i < |children|
      invariant 0 <= i <= |children|
      invariant forall x, z :: 0 <= x < tiles.Length0 && 0 <= z < tiles.Length1 ==>
        tiles[x, z].Object ==
          (if LastAt(children[..i], false, x, z, w, h).Some? then LastAt(children[..i], false, x, z, w, h).value
           else old(tiles[x, z].Object))
      invariant forall x, z :: 0 <= x < tiles.Length0 && 0 <= z < tiles.Length1 ==>
        tiles[x, z].IsEntity == (LastAt(children[..i], false, x, z, w, h).Some? || old(tiles[x, z].IsEntity))
      invariant forall j :: 0 <= j < i ==>
        MovedIfLanded(children[j], w, h, old(children[j].node.Position),
                      EntityTarget(children[j].gridX, children[j].gridZ))
      invariant forall j :: i <= j < |children| ==> children[j].node.Position == old(children[j].node.Position)
      invariant initialized == InteractableNodes(children[..i])
    {
      var child := children[i];
      assert children[..i + 1][..i] == children[..i];
      if child.node.IsNode3D() {
        AssignEntityToTile(tiles, child, w, h);
        if child.node.IsInteractable {
          initialized := initialized + [child.node];
        }
      }
      i := i + 1;
    }
    assert children[..|children|] == children;
  }

  /** `AssignEntityToTile` for one `Node3D`. */
  method AssignEntityToTile(tiles: array2<Tile?>, entity: Child, w: int, h: int)
    requires Filled(tiles) && Distinct(tiles)
    requires entity.node.IsNode3D()
    requires Lands(entity, false, w, h) ==> entity.gridX < tiles.Length0 && entity.gridZ < tiles.Length1
    modifies Cells(tiles)`Object, Cells(tiles)`IsEntity, entity.node`Position
    ensures MovedIfLanded(entity, w, h, old(entity.node.Position),
                          EntityTarget(entity.gridX, entity.gridZ))
    ensures forall x, z :: 0 <= x < tiles.Length0 && 0 <= z < tiles.Length1 ==>
      tiles[x, z].Object == (if LandsAt(entity, false, x, z, w, h) then entity.node else old(tiles[x, z].Object)) &&
      tiles[x, z].IsEntity == (LandsAt(entity, false, x, z, w, h) || old(tiles[x, z].IsEntity))
  {
    var gridX := entity.gridX;
    var gridZ := entity.gridZ;
    if gridX < 0 || gridX >= w || gridZ < 0 || gridZ >= h {
      return;
    }
    var tile := tiles[gridX, gridZ];
    tile.Object := entity.node;
    tile.IsEntity := true;
    entity.node.Position := EntityTarget(gridX, gridZ);
  }
}
