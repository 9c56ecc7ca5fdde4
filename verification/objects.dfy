/** `Objects` of 3DScenes/ScenesScripts/TileMapScripts/Objects.cs: puts every
    `MeshInstance3D` child on the tile under it. Unlike BuildingIni it looks at the
    tile before checking the map bounds, so the cell must exist in the array; the
    outcome is the same: an object on a taken tile or outside `MapWidth` x `MapHeight`
    is freed, and on every free cell the first object to land there stays. */
module Objects {
  import opened Common
  import opened Scene
  import opened CostTile
  import opened Placement

  /** The array is indexed with the cell of every `MeshInstance3D` child before any
      bounds check, so each such cell must be inside the array. */
  predicate ObjectCellsExist(length0: int, length1: int, children: seq<Child>) {
    forall i :: 0 <= i < |children| && children[i].node.Kind == MeshInstance3D ==>
      0 <= children[i].gridX < length0 && 0 <= children[i].gridZ < length1
  }

  class Objects {
    var MapWidth: int
    var MapHeight: int
    var GridPositionConverter: real

    constructor ()
      ensures MapWidth == 0 && MapHeight == 0 && GridPositionConverter == 0.0
    {
      MapWidth, MapHeight, GridPositionConverter := 0, 0, 0.0;
    }

    /** `Initialize`: with no map it changes nothing at all; otherwise it records its
        arguments and places the children. */
    method Initialize(tiles: array2?<Tile?>, children: seq<Child>,
                      mapWidth: int, mapHeight: int, gridPositionConverter: real)
      requires tiles != null ==> Filled(tiles) && Distinct(tiles)
      requires tiles != null ==> ObjectCellsExist(tiles.Length0, tiles.Length1, children)
      requires DistinctNodes(children)
      modifies this, CellsOf(tiles)`Object, CellsOf(tiles)`IsEntity
      modifies Nodes(children)`Position, Nodes(children)`Freed
      ensures tiles == null ==>
        MapWidth == old(MapWidth) && MapHeight == old(MapHeight) &&
        GridPositionConverter == old(GridPositionConverter)
      ensures tiles == null ==> forall i :: 0 <= i < |children| ==>
        children[i].node.Position == old(children[i].node.Position) &&
        children[i].node.Freed == old(children[i].node.Freed)
      ensures tiles != null ==>
        MapWidth == mapWidth && MapHeight == mapHeight && GridPositionConverter == gridPositionConverter
      ensures tiles != null ==> forall x, z :: 0 <= x < tiles.Length0 && 0 <= z < tiles.Length1 ==>
        tiles[x, z].Object == Settled(old(tiles[x, z].Object), FirstAt(children, true, x, z, mapWidth, mapHeight))
      ensures tiles != null ==> forall i :: 0 <= i < |children| ==>
        KeptOrFreed(children[i], true,
                    children[i].node.Kind == MeshInstance3D && InMap(children[i].gridX, children[i].gridZ, mapWidth, mapHeight) &&
                    old(tiles[children[i].gridX, children[i].gridZ].Object) == null &&
                    FirstAt(children[..i], true, children[i].gridX, children[i].gridZ, mapWidth, mapHeight).None?,
                    old(children[i].node.Position), old(children[i].node.Freed), gridPositionConverter)
    {
      if tiles == null {
        return;
      }
      MapWidth := mapWidth;
      MapHeight := mapHeight;
      GridPositionConverter := gridPositionConverter;
      AssignObjectsToTiles(tiles, children, mapWidth, mapHeight, gridPositionConverter);
    }
  }

  /** The loop over the children. A tile's `IsEntity` is cleared exactly when an
      object is put on it. */
  method AssignObjectsToTiles(tiles: array2<Tile?>, children: seq<Child>, w: int, h: int, converter: real)
    requires Filled(tiles) && Distinct(tiles)
    requires ObjectCellsExist(tiles.Length0, tiles.Length1, children)
    requires DistinctNodes(children)
    modifies Cells(tiles)`Object, Cells(tiles)`IsEntity, Nodes(children)`Position, Nodes(children)`Freed
    ensures forall x, z :: 0 <= x < tiles.Length0 && 0 <= z < tiles.Length1 ==>
      tiles[x, z].Object == Settled(old(tiles[x, z].Object), FirstAt(children, true, x, z, w, h)) &&
      tiles[x, z].IsEntity ==
        (old(tiles[x, z].IsEntity) && !(old(tiles[x, z].Object) == null && FirstAt(children, true, x, z, w, h).Some?))
    ensures forall i :: 0 <= i < |children| ==>
      KeptOrFreed(children[i], true,
                  children[i].node.Kind == MeshInstance3D && InMap(children[i].gridX, children[i].gridZ, w, h) &&
                  old(tiles[children[i].gridX, children[i].gridZ].Object) == null &&
                  FirstAt(children[..i], true, children[i].gridX, children[i].gridZ, w, h).None?,
                  old(children[i].node.Position), old(children[i].node.Freed), converter)
  {
    var i := 0;
    while i < |children|
      invariant 0 <= i <= |children|
      invariant forall x, z :: 0 <= x < tiles.Length0 && 0 <= z < tiles.Length1 ==>
        tiles[x, z].Object == Settled(old(tiles[x, z].Object), FirstAt(children[..i], true, x, z, w, h))
      invariant forall x, z :: 0 <= x < tiles.Length0 && 0 <= z < tiles.Length1 ==>
        tiles[x, z].IsEntity ==
          (old(tiles[x, z].IsEntity) && !(old(tiles[x, z].Object) == null && FirstAt(children[..i], true, x, z, w, h).Some?))
      invariant forall j :: 0 <= j < i ==>
        KeptOrFreed(children[j], true,
                    children[j].node.Kind == MeshInstance3D && InMap(children[j].gridX, children[j].gridZ, w, h) &&
                    old(tiles[children[j].gridX, children[j].gridZ].Object) == null &&
                    FirstAt(children[..j], true, children[j].gridX, children[j].gridZ, w, h).None?,
                    old(children[j].node.Position), old(children[j].node.Freed), converter)
      invariant forall j :: i <= j < |children| ==>
        children[j].node.Position == old(children[j].node.Position) && children[j].node.Freed == old(children[j].node.Freed)
    {
      assert children[..i + 1][..i] == children[..i];
      VisitChild(tiles, children[i], w, h, converter);
      i := i + 1;
    }
    assert children[..|children|] == children;
  }

  /** One pass of the loop: the class test, then `AssignObjectToTile`. */
  method VisitChild(tiles: array2<Tile?>, child: Child, w: int, h: int, converter: real)
    requires Filled(tiles) && Distinct(tiles)
    requires child.node.Kind == MeshInstance3D ==> 0 <= child.gridX < tiles.Length0 && 0 <= child.gridZ < tiles.Length1
    modifies Cells(tiles)`Object, Cells(tiles)`IsEntity, child.node`Position, child.node`Freed
    ensures KeptOrFreed(child, true,
                        child.node.Kind == MeshInstance3D && InMap(child.gridX, child.gridZ, w, h) &&
                        old(tiles[child.gridX, child.gridZ].Object) == null,
                        old(child.node.Position), old(child.node.Freed), converter)
    ensures forall x, z :: 0 <= x < tiles.Length0 && 0 <= z < tiles.Length1 ==>
      tiles[x, z].Object ==
        (if LandsAt(child, true, x, z, w, h) && old(tiles[x, z].Object) == null then child.node else old(tiles[x, z].Object))
    ensures forall x, z :: 0 <= x < tiles.Length0 && 0 <= z < tiles.Length1 ==>
      tiles[x, z].IsEntity ==
        (old(tiles[x, z].IsEntity) && !(LandsAt(child, true, x, z, w, h) && old(tiles[x, z].Object) == null))
  {
    if child.node.Kind == MeshInstance3D {
      AssignObjectToTile(tiles, child, w, h, converter);
    }
  }

  /** `AssignObjectToTile` for one `MeshInstance3D`: the taken test comes first, the
      bounds test second. */
  method AssignObjectToTile(tiles: array2<Tile?>, obj: Child, w: int, h: int, converter: real)
    requires Filled(tiles) && Distinct(tiles)
    requires obj.node.Kind == MeshInstance3D
    requires 0 <= obj.gridX < tiles.Length0 && 0 <= obj.gridZ < tiles.Length1
    modifies Cells(tiles)`Object, Cells(tiles)`IsEntity, obj.node`Position, obj.node`Freed
    ensures old(tiles[obj.gridX, obj.gridZ].Object) != null || !InMap(obj.gridX, obj.gridZ, w, h) ==>
      obj.node.Freed && obj.node.Position == old(obj.node.Position)
    ensures old(tiles[obj.gridX, obj.gridZ].Object) == null && InMap(obj.gridX, obj.gridZ, w, h) ==>
      obj.node.Position == CellToWorld(obj.gridX, obj.gridZ, converter, 0.0) &&
      obj.node.Freed == old(obj.node.Freed)
    ensures forall x, z :: 0 <= x < tiles.Length0 && 0 <= z < tiles.Length1 ==>
      tiles[x, z].Object ==
        (if LandsAt(obj, true, x, z, w, h) && old(tiles[x, z].Object) == null then obj.node else old(tiles[x, z].Object))
    ensures forall x, z :: 0 <= x < tiles.Length0 && 0 <= z < tiles.Length1 ==>
      tiles[x, z].IsEntity ==
        (old(tiles[x, z].IsEntity) && !(LandsAt(obj, true, x, z, w, h) && old(tiles[x, z].Object) == null))
  {
    var gridX := obj.gridX;
    var gridZ := obj.gridZ;
    if tiles[gridX, gridZ].Object == null {
      if gridX >= 0 && gridX < w && gridZ >= 0 && gridZ < h {
        var tile := tiles[gridX, gridZ];
        tile.Object := obj.node;
        tile.IsEntity := false;
        obj.node.Position := CellToWorld(gridX, gridZ, converter, 0.0);
      } else {
        obj.node.Freed := true;
      }
    } else {
      obj.node.Freed := true;
    }
  }
}
