/** `TilesMap` of 3DScenes/ScenesScripts/ScenesHelper/TileMapScripts/TilesMap.cs
    (namespace Game.ScenesHelper.TileMapScripts): builds `Scenes.TileMap.Map` from
    the editor's GridMap, naming each cell's type through the MeshLibrary item
    name, and collects the world positions of the undefined cells for display. */
module GridTilesMap {
  import opened Common
  import opened TileProperties
  import opened GameTile

  /** The editor's GridMap: the item id of each cell (`GetCellItem`, -1 for an empty
      cell) and, when a MeshLibrary is assigned, the name of each item id. */
  datatype GridMapCells = GridMapCells(cellItem: (int, int) -> int, itemName: Option<int -> string>)

  const TileTypeMapping: map<string, TileType> :=
    map["Grass" := Grass, "Road" := Road, "Water" := Water,
        "Mountain" := Mountain, "Forest" := Forest, "Town" := Town]

  /** The MeshLibrary item's name looked up in TileTypeMapping; unknown names are
      NotDefined. */
  function GetTileTypeFromId(itemName: int -> string, tileId: int): (t: TileType)
    ensures itemName(tileId) in TileTypeMapping ==> t == TileTypeMapping[itemName(tileId)]
    ensures itemName(tileId) !in TileTypeMapping ==> t == NotDefined
  {
    var name := itemName(tileId);
    if name in TileTypeMapping then TileTypeMapping[name] else NotDefined
  }

  /** Each of the six mapped names gives the type of the same name, and any other
      name gives NotDefined. */
  lemma MappingByName(name: string)
    ensures name == "Grass" ==> name in TileTypeMapping && TileTypeMapping[name] == Grass
    ensures name == "Road" ==> name in TileTypeMapping && TileTypeMapping[name] == Road
    ensures name == "Water" ==> name in TileTypeMapping && TileTypeMapping[name] == Water
    ensures name == "Mountain" ==> name in TileTypeMapping && TileTypeMapping[name] == Mountain
    ensures name == "Forest" ==> name in TileTypeMapping && TileTypeMapping[name] == Forest
    ensures name == "Town" ==> name in TileTypeMapping && TileTypeMapping[name] == Town
    ensures name in TileTypeMapping <==>
      name in {"Grass", "Road", "Water", "Mountain", "Forest", "Town"}
    ensures NotDefined !in TileTypeMapping.Values
  {
    assert TileTypeMapping.Keys == {"Grass", "Road", "Water", "Mountain", "Forest", "Town"};
  }

  /** The type `InitializeGrid` gives cell (x, z): NotDefined for an empty cell,
      otherwise the type named by the item. */
  function CellType(cellItem: (int, int) -> int, itemName: int -> string, x: int, z: int): (t: TileType)
    ensures cellItem(x, z) == -1 ==> t == NotDefined
    ensures cellItem(x, z) != -1 ==> t == GetTileTypeFromId(itemName, cellItem(x, z))
  {
    var tileId := cellItem(x, z);
    if tileId == -1 then NotDefined else GetTileTypeFromId(itemName, tileId)
  }

  /** The NotDefined cells among `cells`, in the same order. */
  function NotDefinedCells(cellItem: (int, int) -> int, itemName: int -> string,
                           cells: seq<(int, int)>): seq<(int, int)>
  {
    if cells == [] then []
    else
      var last := cells[|cells| - 1];
      NotDefinedCells(cellItem, itemName, cells[..|cells| - 1]) +
        (if CellType(cellItem, itemName, last.0, last.1) == NotDefined then [last] else [])
  }

  /** The world positions `(x * c, 0, z * c)` of a list of cells. */
  function Positions(cells: seq<(int, int)>, c: real): (ps: seq<Vec3>)
    ensures |ps| == |cells|
    ensures forall i :: 0 <= i < |cells| ==> ps[i] == CellToWorld(cells[i].0, cells[i].1, c, 0.0)
  {
    seq(|cells|, i requires 0 <= i < |cells| => CellToWorld(cells[i].0, cells[i].1, c, 0.0))
  }

  /** Extending the visited cells by one extends the listed positions by that cell's
      position exactly when it is NotDefined. */
  lemma NotDefinedStep(cellItem: (int, int) -> int, itemName: int -> string,
                       done: seq<(int, int)>, x: int, z: int, c: real)
    ensures Positions(NotDefinedCells(cellItem, itemName, done + [(x, z)]), c) ==
      Positions(NotDefinedCells(cellItem, itemName, done), c) +
      (if CellType(cellItem, itemName, x, z) == NotDefined then [CellToWorld(x, z, c, 0.0)] else [])
  {
    assert (done + [(x, z)])[..|done|] == done;
  }

  /** One more step of the inner loop visits (x, z). */
  lemma ColumnStep(prefix: seq<(int, int)>, x: int, z: nat)
    ensures prefix + Column(x, z + 1) == (prefix + Column(x, z)) + [(x, z)]
    ensures prefix + Column(x, 0) == prefix
  {
  }

  /** The filter keeps exactly the NotDefined cells and keeps them in loop order, so
      over the row-major order of the grid each NotDefined cell appears once. */
  lemma {:induction false} NotDefinedCellsExact(cellItem: (int, int) -> int, itemName: int -> string,
                                                cells: seq<(int, int)>)
    requires forall i, j :: 0 <= i < j < |cells| ==> Before(cells[i], cells[j])
    ensures forall c :: c in NotDefinedCells(cellItem, itemName, cells) <==>
      c in cells && CellType(cellItem, itemName, c.0, c.1) == NotDefined
    ensures forall i, j :: 0 <= i < j < |NotDefinedCells(cellItem, itemName, cells)| ==>
      Before(NotDefinedCells(cellItem, itemName, cells)[i], NotDefinedCells(cellItem, itemName, cells)[j])
  {
    if cells != [] {
      var front, last := cells[..|cells| - 1], cells[|cells| - 1];
      assert cells == front + [last];
      NotDefinedCellsExact(cellItem, itemName, front);
      var prev := NotDefinedCells(cellItem, itemName, front);
      var r := NotDefinedCells(cellItem, itemName, cells);
      forall i, j | 0 <= i < j < |r|
        ensures Before(r[i], r[j])
      {
        if j >= |prev| {
          assert r[j] == last;
          assert r[i] == prev[i] && prev[i] in front;
          var k :| 0 <= k < |front| && front[k] == prev[i];
          assert cells[k] == front[k];
        } else {
          assert r[i] == prev[i] && r[j] == prev[j];
        }
      }
    }
  }

  /** Over the whole grid: a cell is listed iff it is inside the grid and NotDefined. */
  lemma NotDefinedOnGrid(cellItem: (int, int) -> int, itemName: int -> string, w: nat, h: nat)
    ensures forall c :: c in NotDefinedCells(cellItem, itemName, RowMajor(w, h)) <==>
      0 <= c.0 < w && 0 <= c.1 < h && CellType(cellItem, itemName, c.0, c.1) == NotDefined
  {
    RowMajorContents(w, h);
    NotDefinedCellsExact(cellItem, itemName, RowMajor(w, h));
  }

  class TilesMap {
    /** The exported GridMap; None when it is not assigned in the editor. */
    var GridMap: Option<GridMapCells>
    var MapWidth: int
    var MapHeight: int
    var GridPositionConverter: real

    predicate GridReady()
      reads this
    {
      GridMap.Some? && GridMap.value.itemName.Some?
    }

    /** Allocates `Scenes.TileMap.Map` (returned as `tiles`) and fills it; `notDefined`
        is the list handed to `VisualizeNotDefinedTiles`. The caller passes positive
        dimensions (C# refuses to allocate a negative-size array). */
    method Initialize(mapWidth: int, mapHeight: int, gridPositionConverter: real)
      returns (tiles: array2<Tile?>, notDefined: seq<Vec3>)
      requires mapWidth >= 0 && mapHeight >= 0
      modifies this
      ensures MapWidth == mapWidth && MapHeight == mapHeight
      ensures GridPositionConverter == gridPositionConverter && GridMap == old(GridMap)
      ensures fresh(tiles) && tiles.Length0 == mapWidth && tiles.Length1 == mapHeight
      ensures !GridReady() ==>
        notDefined == [] && forall x, z :: 0 <= x < mapWidth && 0 <= z < mapHeight ==> tiles[x, z] == null
      ensures GridReady() ==> Filled(tiles) && Distinct(tiles)
      ensures GridReady() ==> forall x, z :: 0 <= x < mapWidth && 0 <= z < mapHeight ==>
        BuiltTile(tiles[x, z], GridMap.value.cellItem, GridMap.value.itemName.value, x, z)
      ensures GridReady() ==>
        notDefined == Positions(NotDefinedCells(GridMap.value.cellItem, GridMap.value.itemName.value,
                                                RowMajor(mapWidth, mapHeight)), gridPositionConverter)
    {
      MapWidth := mapWidth;
      MapHeight := mapHeight;
      GridPositionConverter := gridPositionConverter;
      tiles := new Tile?[mapWidth, mapHeight]((x, z) => null);
      notDefined := InitializeGrid(tiles);
    }

    /** The tile `InitializeGrid` leaves at cell (x, z). */
    static ghost predicate BuiltTile(t: Tile?, cellItem: (int, int) -> int, itemName: int -> string, x: int, z: int)
      reads t
    {
      t != null &&
      t.Type == CellType(cellItem, itemName, x, z) &&
      t.PositionGrid == Vec3I(x, 0, z) &&
      t.IsPassable == TileProperties.IsPassable(t.Type) &&
      t.ContainsObject == null && !t.IsEntity
    }

    /** Built tiles record their own cell, so no tile fills two cells. */
    static lemma BuiltTilesAreDistinct(tiles: array2<Tile?>, cellItem: (int, int) -> int, itemName: int -> string)
      requires forall x, z :: 0 <= x < tiles.Length0 && 0 <= z < tiles.Length1 ==>
        BuiltTile(tiles[x, z], cellItem, itemName, x, z)
      ensures Filled(tiles) && Distinct(tiles)
    {
      forall x1, z1, x2, z2 | 0 <= x1 < tiles.Length0 && 0 <= z1 < tiles.Length1 &&
        0 <= x2 < tiles.Length0 && 0 <= z2 < tiles.Length1 && (x1 != x2 || z1 != z2)
        ensures tiles[x1, z1] != tiles[x2, z2]
      {
        assert BuiltTile(tiles[x1, z1], cellItem, itemName, x1, z1);
        assert BuiltTile(tiles[x2, z2], cellItem, itemName, x2, z2);
      }
    }

    method InitializeGrid(tiles: array2<Tile?>) returns (notDefined: seq<Vec3>)
      requires MapWidth >= 0 && MapHeight >= 0
      requires tiles.Length0 == MapWidth && tiles.Length1 == MapHeight
      modifies tiles
      ensures !GridReady() ==> notDefined == [] && unchanged(tiles)
      ensures GridReady() ==> Filled(tiles) && Distinct(tiles)
      ensures GridReady() ==> forall x, z :: 0 <= x < MapWidth && 0 <= z < MapHeight ==>
        BuiltTile(tiles[x, z], GridMap.value.cellItem, GridMap.value.itemName.value, x, z)
      ensures GridReady() ==>
        notDefined == Positions(NotDefinedCells(GridMap.value.cellItem, GridMap.value.itemName.value,
                                                RowMajor(MapWidth, MapHeight)), GridPositionConverter)
    {
      if GridMap.None? || GridMap.value.itemName.None? {
        return [];
      }
      notDefined := FillGrid(tiles, GridMap.value.cellItem, GridMap.value.itemName.value, GridPositionConverter);
      BuiltTilesAreDistinct(tiles, GridMap.value.cellItem, GridMap.value.itemName.value);
    }

    /** The nested loops of `InitializeGrid`, x outer and z inner. */
    static method FillGrid(tiles: array2<Tile?>, cellItem: (int, int) -> int, itemName: int -> string,
                           converter: real) returns (notDefined: seq<Vec3>)
      modifies tiles
      ensures forall x, z :: 0 <= x < tiles.Length0 && 0 <= z < tiles.Length1 ==>
        BuiltTile(tiles[x, z], cellItem, itemName, x, z)
      ensures notDefined == Positions(NotDefinedCells(cellItem, itemName, RowMajor(tiles.Length0, tiles.Length1)), converter)
    {
      notDefined := [];
      var x := 0;
      while x < tiles.Length0
        invariant 0 <= x <= tiles.Length0
        invariant notDefined == Positions(NotDefinedCells(cellItem, itemName, RowMajor(x, tiles.Length1)), converter)
        invariant forall i, k :: 0 <= i < x && 0 <= k < tiles.Length1 ==> BuiltTile(tiles[i, k], cellItem, itemName, i, k)
      {
        notDefined := InitializeColumn(tiles, x, cellItem, itemName, notDefined, converter);
        x := x + 1;
      }
    }

    /** The body of the inner loop: builds the tile for cell (x, z), stores it and
        lists its position when it is NotDefined. */
    static method InitializeCell(tiles: array2<Tile?>, x: int, z: int, cellItem: (int, int) -> int,
                                 itemName: int -> string, before: seq<Vec3>, ghost visited: seq<(int, int)>,
                                 converter: real)
      returns (notDefined: seq<Vec3>)
      requires 0 <= x < tiles.Length0 && 0 <= z < tiles.Length1
      requires before == Positions(NotDefinedCells(cellItem, itemName, visited), converter)
      modifies tiles
      ensures notDefined == Positions(NotDefinedCells(cellItem, itemName, visited + [(x, z)]), converter)
      ensures BuiltTile(tiles[x, z], cellItem, itemName, x, z)
      ensures forall i, k :: 0 <= i < tiles.Length0 && 0 <= k < tiles.Length1 && (i != x || k != z) ==>
        tiles[i, k] == old(tiles[i, k])
    {
      var tileId := cellItem(x, z);
      var tileType := if tileId == -1 then NotDefined else GetTileTypeFromId(itemName, tileId);
      var tile := new Tile(tileType);
      tile.PositionGrid := Vec3I(x, 0, z);
      tiles[x, z] := tile;
      NotDefinedStep(cellItem, itemName, visited, x, z, converter);
      notDefined := before;
      if tileType == NotDefined {
        notDefined := notDefined + [CellToWorld(x, z, converter, 0.0)];
      }
    }

    /** The inner loop of `InitializeGrid`: fills column x and appends the positions
        of its NotDefined cells. */
    static method InitializeColumn(tiles: array2<Tile?>, x: int, cellItem: (int, int) -> int,
                                   itemName: int -> string, before: seq<Vec3>, converter: real)
      returns (notDefined: seq<Vec3>)
      requires 0 <= x < tiles.Length0
      requires before == Positions(NotDefinedCells(cellItem, itemName, RowMajor(x, tiles.Length1)), converter)
      modifies tiles
      ensures notDefined == Positions(NotDefinedCells(cellItem, itemName, RowMajor(x + 1, tiles.Length1)), converter)
      ensures forall k :: 0 <= k < tiles.Length1 ==> BuiltTile(tiles[x, k], cellItem, itemName, x, k)
      ensures forall i, k :: 0 <= i < tiles.Length0 && i != x && 0 <= k < tiles.Length1 ==>
        tiles[i, k] == old(tiles[i, k])
    {
      notDefined := before;
      ghost var done := RowMajor(x, tiles.Length1);
      ColumnStep(done, x, 0);
      var z := 0;
      while z < tiles.Length1
        invariant 0 <= z <= tiles.Length1
        invariant done == RowMajor(x, tiles.Length1) + Column(x, z)
        invariant notDefined == Positions(NotDefinedCells(cellItem, itemName, done), converter)
        invariant forall k :: 0 <= k < z ==> BuiltTile(tiles[x, k], cellItem, itemName, x, k)
        invariant forall i, k :: 0 <= i < tiles.Length0 && 0 <= k < tiles.Length1 && (i != x || z <= k) ==>
          tiles[i, k] == old(tiles[i, k])
      {
        notDefined := InitializeCell(tiles, x, z, cellItem, itemName, notDefined, done, converter);
        ColumnStep(RowMajor(x, tiles.Length1), x, z);
        done := done + [(x, z)];
        z := z + 1;
      }
      assert RowMajor(x + 1, tiles.Length1) == RowMajor(x, tiles.Length1) + Column(x, tiles.Length1);
    }
  }
}
