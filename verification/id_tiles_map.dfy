/** `TilesMap` of 3DScenes/ScenesScripts/TileMapScripts/TilesMap.cs (namespace
    ScenesHelper.TileMapScripts): builds `Scenes.TileMap.Map` from the GridMap's
    cell ids through a fixed id switch; `VisualizeTile` never finds a model to load,
    so every tile ends with no mesh. */
module IdTilesMap {
  import opened Common
  import opened TileProperties
  import opened MeshTile

  /** The id switch: 0 Grass, 1 Road, 2 Water, 3 Mountain, anything else Grass. */
  function TypeOfId(tileId: int): (t: TileType)
    ensures tileId == 0 ==> t == Grass
    ensures tileId == 1 ==> t == Road
    ensures tileId == 2 ==> t == Water
    ensures tileId == 3 ==> t == Mountain
    ensures !(0 <= tileId <= 3) ==> t == Grass
  {
    match tileId
    case 0 => Grass
    case 1 => Road
    case 2 => Water
    case 3 => Mountain
    case _ => Grass
  }

  /** The switch only produces four types, so Forest, Town and NotDefined never
      appear on such a map, and a tile is impassable exactly for ids 2 and 3. */
  lemma TypeOfIdRange(tileId: int)
    ensures TypeOfId(tileId) in {Grass, Road, Water, Mountain}
    ensures !TileProperties.IsPassable(TypeOfId(tileId)) <==> tileId == 2 || tileId == 3
  {
  }

  /** The exception `Initialize` can throw. */
  datatype InitError = NullReference

  /** The tile `Initialize` leaves at cell (x, z). */
  ghost predicate BuiltTile(t: Tile?, cellItem: (int, int) -> int, x: int, z: int)
    reads t
  {
    t != null && t.Type == TypeOfId(cellItem(x, z)) && t.TileMesh == null &&
    t.IsPassable == TileProperties.IsPassable(t.Type) &&
    t.ContainsObject == null && !t.IsEntity
  }

  class TilesMap {
    /** The exported GridMap's `GetCellItem`; None when it is not assigned. */
    var GridMap: Option<(int, int) -> int>
    var MapWidth: int
    var MapHeight: int
    var GridPositionConverter: real

    /** Records the dimensions, allocates `Scenes.TileMap.Map` (returned as `tiles`)
        and fills every cell. The GridMap is read without a null check: when it is
        not assigned, the first cell read throws `NullReferenceException` (reported
        in `error`) and the map stays allocated but empty. A grid with no cell never
        reads it. `written` lists the cells in the order they are written. */
    method Initialize(mapWidth: int, mapHeight: int, gridPositionConverter: real)
      returns (tiles: array2<Tile?>, error: Option<InitError>, ghost written: seq<(int, int)>)
      requires mapWidth >= 0 && mapHeight >= 0
      modifies this
      ensures MapWidth == mapWidth && MapHeight == mapHeight
      ensures GridPositionConverter == gridPositionConverter && GridMap == old(GridMap)
      ensures fresh(tiles) && tiles.Length0 == mapWidth && tiles.Length1 == mapHeight
      ensures error.Some? <==> GridMap.None? && mapWidth > 0 && mapHeight > 0
      ensures error.Some? ==> error.value == NullReference
      ensures GridMap.Some? ==> forall x, z :: 0 <= x < mapWidth && 0 <= z < mapHeight ==>
        BuiltTile(tiles[x, z], GridMap.value, x, z)
      ensures GridMap.Some? ==> Filled(tiles) && Distinct(tiles)
      ensures GridMap.None? ==> forall x, z :: 0 <= x < mapWidth && 0 <= z < mapHeight ==> tiles[x, z] == null
      ensures written == if GridMap.Some? then RowMajor(mapWidth, mapHeight) else []
    {
      MapWidth := mapWidth;
      MapHeight := mapHeight;
      GridPositionConverter := gridPositionConverter;
      tiles := new Tile?[mapWidth, mapHeight]((x, z) => null);
      if GridMap.None? {
        error := if mapWidth > 0 && mapHeight > 0 then Some(NullReference) else None;
        written := [];
        return;
      }
      error := None;
      written := FillGrid(tiles, GridMap.value);
    }

    /** The nested loops, x outer and z inner. */
    static method FillGrid(tiles: array2<Tile?>, cellItem: (int, int) -> int)
      returns (ghost written: seq<(int, int)>)
      modifies tiles
      ensures forall x, z :: 0 <= x < tiles.Length0 && 0 <= z < tiles.Length1 ==>
        BuiltTile(tiles[x, z], cellItem, x, z)
      ensures Distinct(tiles)
      ensures written == RowMajor(tiles.Length0, tiles.Length1)
    {
      written := [];
      var x := 0;
      while x < tiles.Length0
        invariant 0 <= x <= tiles.Length0
        invariant written == RowMajor(x, tiles.Length1)
        invariant forall i, k :: 0 <= i < x && 0 <= k < tiles.Length1 ==> BuiltTile(tiles[i, k], cellItem, i, k)
        invariant forall i1, k1, i2, k2 ::
          (0 <= i1 < x && 0 <= k1 < tiles.Length1 && 0 <= i2 < x && 0 <= k2 < tiles.Length1 &&
           (i1 != i2 || k1 != k2)) ==> tiles[i1, k1] != tiles[i2, k2]
      {
        written := FillColumn(tiles, x, cellItem, written);
        x := x + 1;
      }
    }

    /** The inner loop for column x. Every tile it stores is new, so it is shared
        with no other cell. */
    static method FillColumn(tiles: array2<Tile?>, x: int, cellItem: (int, int) -> int,
                             ghost before: seq<(int, int)>) returns (ghost written: seq<(int, int)>)
      requires 0 <= x < tiles.Length0
      modifies tiles
      ensures written == before + Column(x, tiles.Length1)
      ensures forall k :: 0 <= k < tiles.Length1 ==> BuiltTile(tiles[x, k], cellItem, x, k) && fresh(tiles[x, k])
      ensures forall k1, k2 :: 0 <= k1 < k2 < tiles.Length1 ==> tiles[x, k1] != tiles[x, k2]
      ensures forall i, k :: 0 <= i < tiles.Length0 && i != x && 0 <= k < tiles.Length1 ==>
        tiles[i, k] == old(tiles[i, k])
    {
      written := before;
      var z := 0;
      while z < tiles.Length1
        invariant 0 <= z <= tiles.Length1
        invariant written == before + Column(x, z)
        invariant forall k :: 0 <= k < z ==> BuiltTile(tiles[x, k], cellItem, x, k) && fresh(tiles[x, k])
        invariant forall k1, k2 :: 0 <= k1 < k2 < z ==> tiles[x, k1] != tiles[x, k2]
        invariant forall i, k :: 0 <= i < tiles.Length0 && 0 <= k < tiles.Length1 && (i != x || k >= z) ==>
          tiles[i, k] == old(tiles[i, k])
      {
        var tile := new Tile(TypeOfId(cellItem(x, z)));
        tiles[x, z] := tile;
        VisualizeTile(tile);
        written := written + [(x, z)];
        z := z + 1;
      }
    }

    /** `VisualizeTile`: no case of the type switch assigns a model, so the mesh is
        cleared. */
    static method VisualizeTile(tile: Tile)
      modifies tile`TileMesh
      ensures tile.TileMesh == null
    {
      tile.TileMesh := null;
    }
  }
}
