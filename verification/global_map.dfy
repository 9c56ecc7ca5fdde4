/** `GlobalMap` of 3DScenes/ScenesScripts/GlobalMap.cs: a fixed 50 x 1 x 50 map of
    Grass tiles, filled by a loop over offsets centred on zero, then handed to the
    path finder. */
module GlobalMap {
  import opened Common
  import opened TileProperties
  import CostTile
  import Pathfinder

  const MapWidth := 50
  const MapHeight := 50
  const MapDepth := 1

  /** A tile as `InitializeGrid` creates it. */
  ghost predicate GrassTile(t: CostTile.Tile?)
    reads t
  {
    t != null && t.Type == Grass && t.IsPassable && t.Object == null && !t.IsEntity
  }

  /** No two cells of layer 0 share a tile: each cell gets its own `new Tile`. */
  ghost predicate LayerDistinct(map3: array3<CostTile.Tile?>)
    requires map3.Length1 == MapDepth
    reads map3
  {
    forall x1, z1, x2, z2 ::
      (0 <= x1 < map3.Length0 && 0 <= z1 < map3.Length2 &&
       0 <= x2 < map3.Length0 && 0 <= z2 < map3.Length2 &&
       (x1 != x2 || z1 != z2)) ==> map3[x1, 0, z1] != map3[x2, 0, z2]
  }

  /** The node; `map` is the static `Tile[,,]` property. */
  class GlobalMap {
    var Map: array3<CostTile.Tile?>
    /** The exported hero's `GlobalPosition`. */
    var HeroPosition: Vec3

    constructor ()
    {
      Map := new CostTile.Tile?[0, 0, 0];
      HeroPosition := Vec3(0.0, 0.0, 0.0);
    }

    /** `_Ready`: allocates the map, fills it, builds the path graph over it, and puts
        the hero at (0, 1, 0). Neither step can fail on this map, so the exception
        handler is never entered. */
    method Ready(pathfinder: Pathfinder.Pathfinder3D)
      modifies this, pathfinder
      ensures fresh(Map) && Map.Length0 == MapWidth && Map.Length1 == MapDepth && Map.Length2 == MapHeight
      ensures forall x, z :: 0 <= x < MapWidth && 0 <= z < MapHeight ==> GrassTile(Map[x, 0, z])
      ensures LayerDistinct(Map)
      ensures pathfinder.Astar == Pathfinder.Build(old(pathfinder.Astar), (x, z) => true, MapWidth, MapHeight)
      ensures HeroPosition == Vec3(0.0, 1.0, 0.0)
    {
      var map3 := new CostTile.Tile?[MapWidth, 1, MapHeight];
      ghost var written := InitializeGrid(map3);
      Map := map3;
      pathfinder.Initialize(map3, (x, z) => true);
      HeroPosition := Vec3(0.0, 1.0, 0.0);
    }

    /** The offset loop: x and z run from -half to half - 1 and write cell
        (x + half, z + half). `written` lists the cells written, in order. */
    static method InitializeGrid(map3: array3<CostTile.Tile?>) returns (ghost written: seq<(int, int)>)
      requires map3.Length0 == MapWidth && map3.Length1 == MapDepth && map3.Length2 == MapHeight
      modifies map3
      ensures written == RowMajor(MapWidth, MapHeight)
      ensures forall x, z :: 0 <= x < MapWidth && 0 <= z < MapHeight ==> GrassTile(map3[x, 0, z])
      ensures LayerDistinct(map3)
    {
      var halfWidth := MapWidth / 2;
      var halfHeight := MapHeight / 2;
      written := [];
      var x := -halfWidth;
      while x < halfWidth
        invariant -halfWidth <= x <= halfWidth
        invariant written == RowMajor(x + halfWidth, MapHeight)
        invariant forall i, k :: 0 <= i < x + halfWidth && 0 <= k < MapHeight ==> GrassTile(map3[i, 0, k])
        invariant forall i1, k1, i2, k2 ::
          (0 <= i1 < x + halfWidth && 0 <= k1 < MapHeight && 0 <= i2 < x + halfWidth && 0 <= k2 < MapHeight &&
           (i1 != i2 || k1 != k2)) ==> map3[i1, 0, k1] != map3[i2, 0, k2]
      {
        written := InitializeColumn(map3, x + halfWidth, written);
        x := x + 1;
      }
    }

    /** The inner loop for one x: z runs from -half to half - 1. */
    static method InitializeColumn(map3: array3<CostTile.Tile?>, column: int, ghost before: seq<(int, int)>)
      returns (ghost written: seq<(int, int)>)
      requires map3.Length0 == MapWidth && map3.Length1 == MapDepth && map3.Length2 == MapHeight
      requires 0 <= column < MapWidth
      modifies map3
      ensures written == before + Column(column, MapHeight)
      ensures forall k :: 0 <= k < MapHeight ==> GrassTile(map3[column, 0, k]) && fresh(map3[column, 0, k])
      ensures forall k1, k2 :: 0 <= k1 < k2 < MapHeight ==> map3[column, 0, k1] != map3[column, 0, k2]
      ensures forall i, k :: 0 <= i < MapWidth && i != column && 0 <= k < MapHeight ==>
        map3[i, 0, k] == old(map3[i, 0, k])
    {
      var halfHeight := MapHeight / 2;
      written := before;
      var z := -halfHeight;
      while z < halfHeight
        invariant -halfHeight <= z <= halfHeight
        invariant written == before + Column(column, z + halfHeight)
        invariant forall k :: 0 <= k < z + halfHeight ==> GrassTile(map3[column, 0, k]) && fresh(map3[column, 0, k])
        invariant forall k1, k2 :: 0 <= k1 < k2 < z + halfHeight ==> map3[column, 0, k1] != map3[column, 0, k2]
        invariant forall i, k :: 0 <= i < MapWidth && 0 <= k < MapHeight && (i != column || k >= z + halfHeight) ==>
          map3[i, 0, k] == old(map3[i, 0, k])
      {
        var tile := new CostTile.Tile(Grass);
        map3[column, 0, z + halfHeight] := tile;
        written := written + [(column, z + halfHeight)];
        z := z + 1;
      }
    }
  }

  /** The offset loop writes every cell of the 50 x 50 grid, nothing else, and no
      cell twice. */
  lemma OffsetLoopWritesEachCellOnce()
    ensures forall c :: c in RowMajor(MapWidth, MapHeight) <==> 0 <= c.0 < MapWidth && 0 <= c.1 < MapHeight
    ensures forall i, j :: 0 <= i < j < |RowMajor(MapWidth, MapHeight)| ==>
      RowMajor(MapWidth, MapHeight)[i] != RowMajor(MapWidth, MapHeight)[j]
  {
    RowMajorContents(MapWidth, MapHeight);
  }

  /** On the all-Grass map every tile is a point of the path graph and every tile
      is connected to its x-1 and z-1 neighbours. */
  lemma GlobalGraphIsFullGrid(x: int, z: int)
    requires 0 <= x < MapWidth && 0 <= z < MapHeight
    ensures Pathfinder.GetId(x, z) in Pathfinder.Build(Pathfinder.EmptyGraph, (x, z) => true, MapWidth, MapHeight).points
    ensures x > 0 ==>
      (Pathfinder.GetId(x, z), Pathfinder.GetId(x - 1, z)) in
        Pathfinder.Build(Pathfinder.EmptyGraph, (x, z) => true, MapWidth, MapHeight).edges
    ensures z > 0 ==>
      (Pathfinder.GetId(x, z), Pathfinder.GetId(x, z - 1)) in
        Pathfinder.Build(Pathfinder.EmptyGraph, (x, z) => true, MapWidth, MapHeight).edges
  {
    Pathfinder.PointsArePassableTiles((x, z) => true, MapWidth, MapHeight, x, z);
    Pathfinder.AdjacentPassableConnected((x, z) => true, MapWidth, MapHeight, x, z);
  }
}
