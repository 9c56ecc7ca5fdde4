/** `BuildingIni` of 3DScenes/ScenesScripts/TileMapScripts/BuildingIni.cs: puts every
    `Node3D` child on the tile under it. A building outside the map, or on a tile that
    already holds something, is freed; so on every free cell the first building to
    land there stays and snaps to the cell's centre at height 0. */
module BuildingIni {
  import opened Common
  import opened Scene
  import opened GameTile
  import opened Placement

  class BuildingIni {
    var MapWidth: int
    var MapHeight: int
    var GridPositionConverter: real

    constructor ()
      ensures MapWidth == 0 && MapHeight == 0 && GridPositionConverter == 0.0
    {
      MapWidth, MapHeight, GridPositionConverter := 0, 0, 0.0;
    }

    /** `Initialize`: with no map it changes nothing at all; otherwise it records its
        arguments and places the children. */
    method Initialize(tiles: array2?<Tile?>, children: seq<Child>,
                      mapWidth: int, mapHeight: int, gridPositionConverter: real)
      requires tiles != null ==> Filled(tiles) && Distinct(tiles)
      requires tiles != null ==> LandingCellsExist(tiles.Length0, tiles.Length1, children, false, mapWidth, mapHeight)
      requires DistinctNodes(children)
      modifies this, CellsOf(tiles)`ContainsObject, CellsOf(tiles)`IsEntity
      modifies Nodes(children)`Position, Nodes(children)`Freed
      ensures tiles == null ==>
        MapWidth == old(MapWidth) && MapHeight == old(MapHeight) &&
        GridPositionConverter == old(GridPositionConverter)
      ensures tiles == null ==> forall i :: 0 <= i < |children| ==>
        children[i].node.Position == old(children[i].node.Position) &&
        children[i].node.Freed == old(children[i].node.Freed)
      ensures tiles != null ==>
        MapWidth == mapWidth && MapHeight == mapHeight && GridPositionConverter == gridPositionConverter
      ensures tiles != null ==> forall x, z :: 0 <= x < tiles.Length0 && 0 <= z < tiles.Length1 ==>
        tiles[x, z].ContainsObject ==
          Settled(old(tiles[x, z].ContainsObject), FirstAt(children, false, x, z, mapWidth, mapHeight))
      ensures tiles != null ==> forall i :: 0 <= i < |children| ==>
        KeptOrFreed(children[i], false,
                    Lands(children[i], false, mapWidth, mapHeight) &&
                     old(tiles[children[i].gridX, children[i].gridZ].ContainsObject) == null &&
                     FirstAt(children[..i], false, children[i].gridX, children[i].gridZ, mapWidth, mapHeight).None?,
                     old(children[i].node.Position), old(children[i].node.Freed), gridPositionConverter)
    {
      if tiles == null {
        return;
      }
      MapWidth := mapWidth;
      MapHeight := mapHeight;
      GridPositionConverter := gridPositionConverter;
      AssignBuildingsToTiles(tiles, children, mapWidth, mapHeight, gridPositionConverter);
    }
  }

  /** The loop over the children. A tile's `IsEntity` is cleared exactly when a
      building is put on it. */
  method AssignBuildingsToTiles(tiles: array2<Tile?>, children: seq<Child>, w: int, h: int, converter: real)
    requires Filled(tiles) && Distinct(tiles)
    requires LandingCellsExist(tiles.Length0, tiles.Length1, children, false, w, h)
    requires DistinctNodes(children)
    modifies Cells(tiles)`ContainsObject, Cells(tiles)`IsEntity, Nodes(children)`Position, Nodes(children)`Freed
    ensures forall x, z :: 0 <= x < tiles.Length0 && 0 <= z < tiles.Length1 ==>
      tiles[x, z].ContainsObject == Settled(old(tiles[x, z].ContainsObject), FirstAt(children, false, x, z, w, h)) &&
      tiles[x, z].IsEntity ==
        (old(tiles[x, z].IsEntity) && !(old(tiles[x, z].ContainsObject) == null && FirstAt(children, false, x, z, w, h).Some?))
    ensures forall i :: 0 <= i < |children| ==>
      KeptOrFreed(children[i], false,
                  Lands(children[i], false, w, h) &&
                  old(tiles[children[i].gridX, children[i].gridZ].ContainsObject) == null &&
                  FirstAt(children[..i], false, children[i].gridX, children[i].gridZ, w, h).None?,
                  old(children[i].node.Position), old(children[i].node.Freed), converter)
  {
    var i := 0;
    while i < |children|
      invariant 0 <= i <= |children|
      invariant forall x, z :: 0 <= x < tiles.Length0 && 0 <= z < tiles.Length1 ==>
        tiles[x, z].ContainsObject == Settled(old(tiles[x, z].ContainsObject), FirstAt(children[..i], false, x, z, w, h))
      invariant forall x, z :: 0 <= x < tiles.Length0 && 0 <= z < tiles.Length1 ==>
        tiles[x, z].IsEntity ==
          (old(tiles[x, z].IsEntity) && !(old(tiles[x, z].ContainsObject) == null && FirstAt(children[..i], false, x, z, w, h).Some?))
      invariant forall j :: 0 <= j < i ==>
        KeptOrFreed(children[j], false,
                    Lands(children[j], false, w, h) &&
                    old(tiles[children[j].gridX, children[j].gridZ].ContainsObject) == null &&
                    FirstAt(children[..j], false, children[j].gridX, children[j].gridZ, w, h).None?,
                    old(children[j].node.Position), old(children[j].node.Freed), converter)
      invariant forall j :: i <= j < |children| ==>
        children[j].node.Position == old(children[j].node.Position) && children[j].node.Freed == old(children[j].node.Freed)
    {
      assert children[..i + 1][..i] == children[..i];
      VisitChild(tiles, children[i], w, h, converter);
      i := i + 1;
    }
    assert children[..|children|] == children;
  }

  /** One pass of the loop: the class test, then `AssignBuildingsToTile`. */
  method VisitChild(tiles: array2<Tile?>, child: Child, w: int, h: int, converter: real)
    requires Filled(tiles) && Distinct(tiles)
    requires Lands(child, false, w, h) ==> child.gridX < tiles.Length0 && child.gridZ < tiles.Length1
    modifies Cells(tiles)`ContainsObject, Cells(tiles)`IsEntity, child.node`Position, child.node`Freed
    ensures KeptOrFreed(child, false,
                        Lands(child, false, w, h) && old(tiles[child.gridX, child.gridZ].ContainsObject) == null,
                        old(child.node.Position), old(child.node.Freed), converter)
    ensures forall x, z :: 0 <= x < tiles.Length0 && 0 <= z < tiles.Length1 ==>
      tiles[x, z].ContainsObject ==
        (if LandsAt(child, false, x, z, w, h) && old(tiles[x, z].ContainsObject) == null then child.node
         else old(tiles[x, z].ContainsObject))
    ensures forall x, z :: 0 <= x < tiles.Length0 && 0 <= z < tiles.Length1 ==>
      tiles[x, z].IsEntity ==
        (old(tiles[x, z].IsEntity) && !(LandsAt(child, false, x, z, w, h) && old(tiles[x, z].ContainsObject) == null))
  {
    if child.node.IsNode3D() {
      AssignBuildingsToTile(tiles, child, w, h, converter);
    }
  }

  /** `AssignBuildingsToTile` for one `Node3D`. */
  method AssignBuildingsToTile(tiles: array2<Tile?>, building: Child, w: int, h: int, converter: real)
    requires Filled(tiles) && Distinct(tiles)
    requires building.node.IsNode3D()
    requires Lands(building, false, w, h) ==> building.gridX < tiles.Length0 && building.gridZ < tiles.Length1
    modifies Cells(tiles)`ContainsObject, Cells(tiles)`IsEntity, building.node`Position, building.node`Freed
    ensures !InMap(building.gridX, building.gridZ, w, h) ==>
      building.node.Freed && building.node.Position == old(building.node.Position)
    ensures InMap(building.gridX, building.gridZ, w, h) && old(tiles[building.gridX, building.gridZ].ContainsObject) != null ==>
      building.node.Freed && building.node.Position == old(building.node.Position)
    ensures InMap(building.gridX, building.gridZ, w, h) && old(tiles[building.gridX, building.gridZ].ContainsObject) == null ==>
      tiles[building.gridX, building.gridZ].ContainsObject == building.node &&
      !tiles[building.gridX, building.gridZ].IsEntity &&
      building.node.Position == CellToWorld(building.gridX, building.gridZ, converter, 0.0) &&
      building.node.Freed == old(building.node.Freed)
    ensures forall x, z ::
      (0 <= x < tiles.Length0 && 0 <= z < tiles.Length1 &&
       !(InMap(building.gridX, building.gridZ, w, h) && x == building.gridX && z == building.gridZ &&
         old(tiles[x, z].ContainsObject) == null)) ==>
      tiles[x, z].ContainsObject == old(tiles[x, z].ContainsObject) && tiles[x, z].IsEntity == old(tiles[x, z].IsEntity)
  {
    var gridX := building.gridX;
    var gridZ := building.gridZ;
    if gridX < 0 || gridX >= w || gridZ < 0 || gridZ >= h {
      building.node.Freed := true;
      return;
    }
    var tile := tiles[gridX, gridZ];
    if tile.ContainsObject != null {
      building.node.Freed := true;
      return;
    }
    tile.ContainsObject := building.node;
    tile.IsEntity := false;
    building.node.Position := CellToWorld(gridX, gridZ, converter, 0.0);
  }
}
