# Three Knights and a Princess: the tile map and the movement controller in Dafny

This project models the game logic at the centre of the Godot C# game *Three
Knights and a Princess*: the grid of terrain tiles, the scripts that fill it and
place buildings, objects and entities on it, the A* graph built over its passable
tiles, the click-to-move controller that walks the player's character over it,
and the small collections the character carries (army, inventory, registry
items).

The repository keeps several revisions of the same classes side by side: three
`Tile` classes, two `TilesMap`s, two `Entities` scripts. Each revision is its own
Dafny module and is modelled as written. A call from one revision into another
that does not match its signature is recorded as a step instead of being
carried out. Examples are `TileMap._Ready` calling `Pathfinder3D.Initialize` with
a 2-D map, and `CharacterHelper.PickUpItem` calling
`Pathfinder3D.UpdateTileState`.

Modules and what they stand for:

- `Common`: option values, Godot's `Vector3`/`Vector3I` (floats as reals), the
  cell-to-world formula `(x * c, y, z * c)`, C#'s truncating `(int)` cast, and the
  x-outer / z-inner order in which every grid loop visits its cells.
- `Scene`: the scene nodes the scripts touch (class, position, "`QueueFree` was
  called"), and a child of a placement script with the grid cell it rounds to.
- `TileProperties`: the terrain tables (passability and movement cost per type).
- `GameTile`, `MeshTile`, `CostTile`: the three `Tile` classes.
- `TileMapHelper`: marking the rectangle under a decoration impassable.
- `GridTilesMap`, `IdTilesMap`: the two ways of filling `Scenes.TileMap.Map`.
  The first reads MeshLibrary names; the second uses a fixed id switch.
- `Placement`: the specification shared by the placement loops. Buildings and
  objects refuse a taken tile, so the first to land on a tile keeps it.
  Entities overwrite, so the last one keeps it.
- `BuildingIni`, `Objects`, `MeshEntities`, `CostEntities`: the four placement
  scripts.
- `Pathfinder`: `Pathfinder3D`. The graph is a value: points by id and the
  connections made.
- `GlobalMap`: the fixed 50 x 1 x 50 all-Grass map.
- `TileMap`: the scene root's `_Ready` sequence.
- `Lists`: .NET `List<T>.IndexOf` and `Remove` (first occurrence).
- `Army`, `Inventory`: the unit list bounded by a capacity, and the item list.
- `CharacterBody`: the player character's fields the core reads and writes.
- `CharacterHelper`: the movement controller. `Motion` is its state, `React`,
  `Clicked` and `Ticked` specify its transitions, and the class's methods are
  proved against them.
- `Entity`: name and type normalisation of a map entity.
- `ObjectModel`: a pickable map object linked to a registry item.

The scripts work on the shared static array `Scenes.TileMap.Map`; here it is an
`array2` passed to each method. Float-to-grid rounding (`Math.Round(p / c)`), the
mouse ray cast and the waypoint-arrival distance test happen outside the model.
Their results are inputs: a grid cell, a target cell, a boolean `arrived`.

## Model

| member | source | states |
|---|---|---|
| Common.CellToWorld | Characters/ScriptHelperCharacters/CharacterHelper.cs:296-303 | the world position keeps the given height; its X and Z are zero when the cell size is zero and, for a positive cell size, negative exactly when the cell index is negative |
| Common.Truncate | Characters/ScriptHelperCharacters/Pathfinder.cs:39 | the `(int)` cast of a float rounds toward zero: within 1 below a non-negative value, within 1 above a negative one |
| Common.TruncateOfInteger | Characters/ScriptHelperCharacters/Pathfinder.cs:39 | casting a whole-number float gives that number back |
| Common.RowMajorContents | 3DScenes/ScenesScripts/ScenesHelper/TileMapScripts/TilesMap.cs:63-78 | the nested x-outer / z-inner loops visit exactly the cells of the w-by-h grid, in strictly increasing order, so none twice |
| Common.ColumnContents | 3DScenes/ScenesScripts/ScenesHelper/TileMapScripts/TilesMap.cs:65-77 | the inner loop for one x visits exactly (x, 0) .. (x, h-1), in order |
| Common.RowMajorVisitsOnce | 3DScenes/ScenesScripts/TileMapScripts/TilesMap.cs:24-47 | two different steps of the nested loops never visit the same cell |
| Common.RowMajorEmpty | 3DScenes/ScenesScripts/TileMapScripts/TilesMap.cs:24-26 | a grid with no column or no row is not visited at all |
| TileProperties.LookupPassable | 3DScenes/ScenesScripts/ScenesHelper/TileProperties.cs:28-29 | `TryGetValue && passable`: true exactly when the type is in the table with value true; a missing type is impassable |
| TileProperties.LookupCost | 3DScenes/ScenesScripts/ScenesHelper/TileProperties.cs:36-37 | a listed type gets its table cost, a missing type the default 1.0 |
| TileProperties.IsPassable | 3DScenes/ScenesScripts/ScenesHelper/TileProperties.cs:10-29 | passable exactly for Grass, Forest, Town and Road; NotDefined, Water and Mountain are not |
| TileProperties.GetMovementCost | 3DScenes/ScenesScripts/ScenesHelper/TileProperties.cs:17-37 | Road 0.75, Grass and Town 1.0, Forest 1.25, the types missing from the table 1.0; every cost lies in [0.75, 1.25] |
| TileProperties.CostTableCoversPassable | 3DScenes/ScenesScripts/ScenesHelper/TileProperties.cs:12-21 | the cost table lists exactly the passable types |
| TileProperties.PassableTableIsTotal | 3DScenes/ScenesScripts/ScenesHelper/TileProperties.cs:10-15 | every declared type is in the passability table, so the missing-key default never applies |
| GameTile.Tile.constructor | 3DScenes/ScenesScripts/TileMapScripts/Helpers/Tile.cs:44-48 | a new tile has its type, the table's passability for that type, no occupant, no entity flag |
| GameTile.Tile.Reset | 3DScenes/ScenesScripts/TileMapScripts/Helpers/Tile.cs:53-57 | clears the occupant and the entity flag; passability, grid position and the interactable flag stay |
| GameTile.Tile.SetPassable | 3DScenes/ScenesScripts/TileMapScripts/Helpers/Tile.cs:63 | sets `IsPassable` and may change no other field (type is a constant) |
| GameTile.Tile.GetPassable | 3DScenes/ScenesScripts/TileMapScripts/Helpers/Tile.cs:69 | true exactly for the passable terrain types; it reads no field, so `SetPassable` cannot change it |
| GameTile.Tile.GetMovementCost | 3DScenes/ScenesScripts/TileMapScripts/Helpers/Tile.cs:75 | the table cost of the tile's type, 1.0 when missing, within [0.75, 1.25] |
| GameTile.GetPassableIgnoresFlag | 3DScenes/ScenesScripts/TileMapScripts/Helpers/Tile.cs:63-69 | a Grass tile set impassable still reports `GetPassable() == true` |
| MeshTile.Tile.constructor | 3DScenes/ScenesScripts/ScenesHelper/TileMapScripts/Helpers/Tile.cs:45-49 | a new tile has its type, the table's passability, no occupant, no mesh, no entity flag |
| MeshTile.Tile.Reset | 3DScenes/ScenesScripts/ScenesHelper/TileMapScripts/Helpers/Tile.cs:54-59 | clears occupant and entity flag and hides the mesh; passability and grid position stay |
| MeshTile.Tile.SetPassable | 3DScenes/ScenesScripts/ScenesHelper/TileMapScripts/Helpers/Tile.cs:65 | sets `IsPassable` only |
| MeshTile.Tile.GetPassable | 3DScenes/ScenesScripts/ScenesHelper/TileMapScripts/Helpers/Tile.cs:71 | true exactly for the passable terrain types, whatever `IsPassable` holds |
| MeshTile.Tile.GetMovementCost | 3DScenes/ScenesScripts/ScenesHelper/TileMapScripts/Helpers/Tile.cs:77 | the table cost of the tile's type, 1.0 when missing, within [0.75, 1.25] |
| CostTile.AgreesWithTileProperties | 3DScenes/ScenesScripts/ScenesHelper/Tile.cs:75-86 | the hard-coded passability and cost rules agree with the TileProperties tables for every type |
| CostTile.Tile.constructor | 3DScenes/ScenesScripts/ScenesHelper/Tile.cs:51-86 | impassable exactly for Water, Mountain and NotDefined; cost Road 0.75, Forest 1.25, every other type 1.0; no object, no entity flag, a new mesh |
| CostTile.Tile.SetPassable | 3DScenes/ScenesScripts/ScenesHelper/Tile.cs:59-62 | sets `IsPassable` only; type and cost are constants |
| TileMapHelper.MinBound | 3DScenes/ScenesScripts/TileMapScripts/Helpers/TileMapHelper.cs:87-89 | `max(0, centre - half)`: never negative, and one of the two |
| TileMapHelper.MaxBound | 3DScenes/ScenesScripts/TileMapScripts/Helpers/TileMapHelper.cs:88-90 | `min(size - 1, centre + half)`: never past the last cell, and one of the two |
| TileMapHelper.Marked | 3DScenes/ScenesScripts/TileMapScripts/Helpers/TileMapHelper.cs:100-104 | a covered tile of passable type ends impassable; every other tile keeps its flag; marking never makes a tile passable |
| TileMapHelper.MarkedIdempotent | 3DScenes/ScenesScripts/TileMapScripts/Helpers/TileMapHelper.cs:93-104 | a second identical call leaves every tile as the first left it |
| TileMapHelper.TileMapHelper.RectInsideMap | 3DScenes/ScenesScripts/TileMapScripts/Helpers/TileMapHelper.cs:87-97 | every cell of the clamped rectangle lies inside the map, so the in-map test never skips one |
| TileMapHelper.TileMapHelper.MarkTilesAsNonPassable | 3DScenes/ScenesScripts/TileMapScripts/Helpers/TileMapHelper.cs:68-109 | with a null node or zero size no tile changes; otherwise each tile in the clamped rectangle with passable type becomes impassable and every other tile, and every other field, is unchanged |
| GridTilesMap.GetTileTypeFromId | 3DScenes/ScenesScripts/ScenesHelper/TileMapScripts/TilesMap.cs:88-92 | the item's name looked up in the name table; an unknown name gives NotDefined |
| GridTilesMap.MappingByName | 3DScenes/ScenesScripts/ScenesHelper/TileMapScripts/TilesMap.cs:40-48 | each of the six names maps to the type of that name, no other name is mapped, and NotDefined is never a mapped value |
| GridTilesMap.CellType | 3DScenes/ScenesScripts/ScenesHelper/TileMapScripts/TilesMap.cs:67-68 | item id -1 gives NotDefined, any other id the type its name maps to |
| GridTilesMap.Positions | 3DScenes/ScenesScripts/ScenesHelper/TileMapScripts/TilesMap.cs:76 | one world position `(x * c, 0, z * c)` per listed cell, in the same order |
| GridTilesMap.NotDefinedCellsExact | 3DScenes/ScenesScripts/ScenesHelper/TileMapScripts/TilesMap.cs:61-77 | the list keeps exactly the NotDefined cells, in loop order |
| GridTilesMap.NotDefinedOnGrid | 3DScenes/ScenesScripts/ScenesHelper/TileMapScripts/TilesMap.cs:61-77 | over the whole grid a cell is listed iff it is inside the grid and NotDefined |
| GridTilesMap.TilesMap.Initialize | 3DScenes/ScenesScripts/ScenesHelper/TileMapScripts/TilesMap.cs:20-30 | records the three arguments and allocates a width-by-height map; without a GridMap or MeshLibrary every cell stays empty and nothing is listed |
| GridTilesMap.TilesMap.InitializeGrid | 3DScenes/ScenesScripts/ScenesHelper/TileMapScripts/TilesMap.cs:53-81 | otherwise each cell gets its own new tile of the cell's type, with `PositionGrid = (x, 0, z)`, and the NotDefined positions are listed in loop order |
| GridTilesMap.TilesMap.BuiltTilesAreDistinct | 3DScenes/ScenesScripts/ScenesHelper/TileMapScripts/TilesMap.cs:70-73 | tiles that record their own cell fill the map with no tile shared by two cells |
| GridTilesMap.TilesMap.FillGrid | 3DScenes/ScenesScripts/ScenesHelper/TileMapScripts/TilesMap.cs:63-78 | the nested loops build every cell and list the NotDefined positions of the whole grid |
| GridTilesMap.TilesMap.InitializeColumn | 3DScenes/ScenesScripts/ScenesHelper/TileMapScripts/TilesMap.cs:65-77 | the inner loop builds column x, extends the list by that column's NotDefined positions, and leaves the other columns alone |
| GridTilesMap.TilesMap.InitializeCell | 3DScenes/ScenesScripts/ScenesHelper/TileMapScripts/TilesMap.cs:67-76 | one cell is built and, when NotDefined, its position is appended; no other cell changes |
| IdTilesMap.TypeOfId | 3DScenes/ScenesScripts/TileMapScripts/TilesMap.cs:32-39 | 0 Grass, 1 Road, 2 Water, 3 Mountain, any other id (-1 included) Grass |
| IdTilesMap.TypeOfIdRange | 3DScenes/ScenesScripts/TileMapScripts/TilesMap.cs:32-39 | only Grass, Road, Water and Mountain occur; a tile is impassable exactly for ids 2 and 3 |
| IdTilesMap.TilesMap.Initialize | 3DScenes/ScenesScripts/TileMapScripts/TilesMap.cs:14-48 | records the arguments and allocates the map; with a GridMap it writes every cell once in loop order with a distinct new tile of the switched type and no mesh; without one a non-empty grid throws `NullReferenceException` at the first cell read and leaves every cell empty, while an empty grid reads nothing and succeeds |
| IdTilesMap.TilesMap.FillGrid | 3DScenes/ScenesScripts/TileMapScripts/TilesMap.cs:24-47 | every cell is built, no two cells share a tile, and the cells are written in row-major order |
| IdTilesMap.TilesMap.FillColumn | 3DScenes/ScenesScripts/TileMapScripts/TilesMap.cs:26-46 | column x gets new, pairwise distinct tiles; other columns are unchanged |
| IdTilesMap.TilesMap.VisualizeTile | 3DScenes/ScenesScripts/TileMapScripts/TilesMap.cs:79-114 | no case assigns a model, so the tile's mesh ends null |
| Placement.FirstAtIsFirst | 3DScenes/ScenesScripts/TileMapScripts/BuildingIni.cs:36-67 | the first lander on a cell is found exactly when some child lands there, and no earlier child lands there |
| Placement.FirstAtStable | 3DScenes/ScenesScripts/TileMapScripts/BuildingIni.cs:62-67 | first wins: later children never change a cell's first lander |
| Placement.LastAtIsLast | 3DScenes/ScenesScripts/ScenesHelper/TileMapScripts/Entities.cs:37-69 | the last lander on a cell is found exactly when some child lands there, and no later child lands there |
| Placement.LastAtTakesOver | 3DScenes/ScenesScripts/ScenesHelper/TileMapScripts/Entities.cs:67-69 | last wins: a landing entity takes its cell whatever came before |
| Placement.UnplacedNeverFound | 3DScenes/ScenesScripts/TileMapScripts/BuildingIni.cs:54-59 | a child that lands nowhere is never any cell's occupant |
| Placement.FirstLanderKept | 3DScenes/ScenesScripts/TileMapScripts/BuildingIni.cs:61-69 | a building is kept exactly when no earlier child landed on its cell |
| Placement.InteractableNodesExact | 3DScenes/ScenesScripts/ScenesHelper/TileMapScripts/Entities.cs:37-49 | exactly the interactable `Node3D` children are initialised, each once |
| BuildingIni.BuildingIni.Initialize | 3DScenes/ScenesScripts/TileMapScripts/BuildingIni.cs:15-29 | with no map nothing changes; otherwise the arguments are recorded, each tile's occupant is its old one or else the first building landing on it, and every building is kept at `(gx * c, 0, gz * c)` or freed |
| BuildingIni.AssignBuildingsToTiles | 3DScenes/ScenesScripts/TileMapScripts/BuildingIni.cs:34-43 | the loop: occupant per tile as above, a tile's entity flag cleared exactly when a building is put on it, kept-or-freed for each child |
| BuildingIni.VisitChild | 3DScenes/ScenesScripts/TileMapScripts/BuildingIni.cs:38-41 | non-`Node3D` children are ignored; a `Node3D` changes only the tile it lands on, and only if that tile is free |
| BuildingIni.AssignBuildingsToTile | 3DScenes/ScenesScripts/TileMapScripts/BuildingIni.cs:49-72 | outside the map or on a taken tile the building is freed and no tile changes; else only its tile changes, to hold it with the entity flag clear, and it moves to the cell centre at height 0 |
| Objects.Objects.Initialize | 3DScenes/ScenesScripts/TileMapScripts/Objects.cs:14-28 | with no map nothing changes; otherwise the arguments are recorded, each tile keeps its old object or else the first `MeshInstance3D` landing on it, and each such object is kept at its cell centre or freed |
| Objects.AssignObjectsToTiles | 3DScenes/ScenesScripts/TileMapScripts/Objects.cs:30-39 | the loop: object per tile as above, entity flag cleared exactly where an object is put |
| Objects.VisitChild | 3DScenes/ScenesScripts/TileMapScripts/Objects.cs:34-37 | only `MeshInstance3D` children are handled; others are left alone |
| Objects.AssignObjectToTile | 3DScenes/ScenesScripts/TileMapScripts/Objects.cs:41-65 | a taken tile or a cell outside the map frees the object; otherwise only its tile changes and the object moves to `(gx * c, 0, gz * c)` |
| MeshEntities.Entities.Initialize | 3DScenes/ScenesScripts/ScenesHelper/TileMapScripts/Entities.cs:17-30 | with no map nothing changes; otherwise each tile holds the last entity landing on it (or its old occupant) with the entity flag set, landing entities move to `(gx * c, 1, gz * c)`, the rest stay, and the interactable ones are initialised in order |
| MeshEntities.Entities.HandleEntityInteraction | 3DScenes/ScenesScripts/ScenesHelper/TileMapScripts/Entities.cs:77-90 | changes nothing; its empty branch is entered exactly for an in-map cell holding an entity |
| MeshEntities.InitializeEntities | 3DScenes/ScenesScripts/ScenesHelper/TileMapScripts/Entities.cs:35-50 | the loop, with the last-lander rule and the list of initialised nodes |
| MeshEntities.AssignEntityToTile | 3DScenes/ScenesScripts/ScenesHelper/TileMapScripts/Entities.cs:56-71 | outside the map no tile changes and the entity stays; inside, its tile is overwritten with it and the entity flag, and it moves to height 1 |
| CostEntities.EntityTarget | 3DScenes/ScenesScripts/TileMapScripts/Entities.cs:54 | the new position is the cell centre for a cell size of 2 at height 1, whatever `GridPositionConverter` is |
| CostEntities.Entities.Initialize | 3DScenes/ScenesScripts/TileMapScripts/Entities.cs:12-25 | as MeshEntities, on the `Object` slot, with positions `(2 gx, 1, 2 gz)` |
| CostEntities.Entities.HandleEntityInteraction | 3DScenes/ScenesScripts/TileMapScripts/Entities.cs:63-76 | changes nothing; its empty branch is entered exactly for an in-map cell holding an entity |
| CostEntities.InitializeEntities | 3DScenes/ScenesScripts/TileMapScripts/Entities.cs:27-42 | the loop, with the last-lander rule and the list of initialised nodes |
| CostEntities.AssignEntityToTile | 3DScenes/ScenesScripts/TileMapScripts/Entities.cs:44-60 | outside the map no tile changes; inside, its tile is overwritten and flagged as an entity |
| Pathfinder.GetId | Characters/ScriptHelperCharacters/Pathfinder.cs:42-45 | for `0 <= x < 1000`, `z >= 0` the id is non-negative and decodes back to x and z |
| Pathfinder.GetIdInjective | Characters/ScriptHelperCharacters/Pathfinder.cs:42-45 | on maps at most 1000 wide two cells share an id iff they are the same cell |
| Pathfinder.IdCollisionBeyondWidth | Characters/ScriptHelperCharacters/Pathfinder.cs:44 | cells (1000, 0) and (0, 1) share id 1000 |
| Pathfinder.Connect | Characters/ScriptHelperCharacters/Pathfinder.cs:25-27 | connecting adds the pair when both points exist and changes nothing else |
| Pathfinder.BuildPartial | Characters/ScriptHelperCharacters/Pathfinder.cs:14-31 | after the loops have visited columns 0 .. x-1 the graph holds exactly the visited passable cells and their x-1 and z-1 connections |
| Pathfinder.PointsArePassableTiles | Characters/ScriptHelperCharacters/Pathfinder.cs:18-21 | tile (x, z) is a point, at position (x, 0, z), exactly when it is passable |
| Pathfinder.PointsInsideMap | Characters/ScriptHelperCharacters/Pathfinder.cs:14-21 | every point is the id of a passable tile inside the map |
| Pathfinder.EdgesAreOrthogonalSteps | Characters/ScriptHelperCharacters/Pathfinder.cs:24-27 | every edge goes from a passable tile to its passable x-1 or z-1 neighbour, and both ends are points |
| Pathfinder.AdjacentPassableConnected | Characters/ScriptHelperCharacters/Pathfinder.cs:14-27 | every pair of orthogonally adjacent passable tiles is connected |
| Pathfinder.ImpassableIsolated | Characters/ScriptHelperCharacters/Pathfinder.cs:18 | an impassable tile has no point and no incident edge |
| Pathfinder.FindPath | Characters/ScriptHelperCharacters/Pathfinder.cs:33-40 | the search gets the ids of start and end; each returned point is truncated to integers, one cell per point |
| Pathfinder.FindPathIgnoresY | Characters/ScriptHelperCharacters/Pathfinder.cs:35-36 | the Y of start and end does not influence the path |
| Pathfinder.FindPathOfGridPoints | Characters/ScriptHelperCharacters/Pathfinder.cs:21-39 | a path through points placed at whole coordinates comes back as exactly those cells |
| Pathfinder.Pathfinder3D.constructor | Characters/ScriptHelperCharacters/Pathfinder.cs:10 | the graph starts with no point and no connection |
| Pathfinder.Pathfinder3D.Initialize | Characters/ScriptHelperCharacters/Pathfinder.cs:12-31 | the nested loops leave the graph the loop specification `Build` describes |
| Pathfinder.Pathfinder3D.ConnectPoints | Characters/ScriptHelperCharacters/Pathfinder.cs:25-27 | one `ConnectPoints` call is `Connect` |
| GlobalMap.GlobalMap.Ready | 3DScenes/ScenesScripts/GlobalMap.cs:19-33 | a new 50 x 1 x 50 map of Grass tiles, no two cells sharing a tile, the path graph built over all of it, the hero at (0, 1, 0) |
| GlobalMap.GlobalMap.InitializeGrid | 3DScenes/ScenesScripts/GlobalMap.cs:35-47 | the offset loop writes the cells in row-major order and every cell holds a passable Grass tile of its own: no two cells of layer 0 share a tile |
| GlobalMap.GlobalMap.InitializeColumn | 3DScenes/ScenesScripts/GlobalMap.cs:42-45 | the inner offset loop fills column x + half with newly allocated, pairwise distinct Grass tiles and changes no other column |
| GlobalMap.OffsetLoopWritesEachCellOnce | 3DScenes/ScenesScripts/GlobalMap.cs:37-46 | indices 0..49 in x and z are each written exactly once |
| GlobalMap.GlobalGraphIsFullGrid | 3DScenes/ScenesScripts/GlobalMap.cs:25 | every tile of the global map is a point connected to its x-1 and z-1 neighbours |
| TileMap.AdjustedConverter | 3DScenes/ScenesScripts/TileMap.cs:73-89 | the GridMap's cell size is adopted exactly when a GridMap is assigned and its X equals its Z |
| TileMap.ChildCallsExact | 3DScenes/ScenesScripts/TileMap.cs:45-53 | exactly the initialisable children are called, in child order, each with the same width, height and cell size |
| TileMap.TileMap.constructor | 3DScenes/ScenesScripts/TileMap.cs:23 | the cell size starts at the default 2 |
| TileMap.TileMap.ValidateMapDimensions | 3DScenes/ScenesScripts/TileMap.cs:95-98 | valid iff width and height are both positive |
| TileMap.TileMap.Ready | 3DScenes/ScenesScripts/TileMap.cs:25-36 | invalid dimensions change nothing and call nothing; otherwise the cell size is adjusted, the helpers get the triple, then the children, then the pathfinder is initialised |
| TileMap.TileMap.AdjustGridMapCellSize | 3DScenes/ScenesScripts/TileMap.cs:73-89 | the cell size becomes `AdjustedConverter` of the old one |
| TileMap.TileMap.InitializeChildren | 3DScenes/ScenesScripts/TileMap.cs:41-54 | the helpers are set first, then each initialisable child is called with the triple |
| TileMap.TileMap.InitializeStaticHelpers | 3DScenes/ScenesScripts/TileMap.cs:59-68 | both helpers receive the map's width, height and cell size |
| Lists.RemoveFirst | Characters/ScriptHelperCharacters/Army.cs:47 | `List<T>.Remove`: one element shorter when the argument is present, the same length otherwise, and it never introduces an element |
| Lists.FirstIndex | Characters/ScriptHelperCharacters/Inventory.cs:20-22 | the index of the first equal element, or the length when there is none |
| Lists.RemoveFirstCutsFirstOccurrence | Characters/ScriptHelperCharacters/Army.cs:47 | `Remove` of a present element cuts out its first occurrence and keeps the rest in order |
| Lists.RemoveFirstAbsent | Characters/ScriptHelperCharacters/Army.cs:45-53 | removing an absent element changes nothing |
| Lists.RemoveFirstMultiset | Characters/ScriptHelperCharacters/Inventory.cs:22 | as a bag, `Remove` takes away one copy and nothing else |
| Army.AddUnitRespectsCapacity | Characters/ScriptHelperCharacters/Army.cs:28-36 | appends exactly one unit iff there is room, otherwise leaves the list as it was, and never exceeds the capacity |
| Army.Army.constructor | Characters/ScriptHelperCharacters/Army.cs:15-20 | a new army is empty with capacity 100 |
| Army.Army.AddUnit | Characters/ScriptHelperCharacters/Army.cs:26-37 | the list becomes `WithUnit` of the old one; being within capacity is preserved |
| Army.Army.RemoveUnit | Characters/ScriptHelperCharacters/Army.cs:43-54 | removes the first occurrence (one unit fewer) when present, changes nothing when absent; capacity is preserved |
| Inventory.Inventory.constructor | Characters/ScriptHelperCharacters/Inventory.cs:8 | a new inventory is empty |
| Inventory.Inventory.AddItem | Characters/ScriptHelperCharacters/Inventory.cs:11-15 | the item is appended |
| Inventory.Inventory.RemoveItem | Characters/ScriptHelperCharacters/Inventory.cs:18-29 | the first occurrence is cut out when present; otherwise nothing changes |
| Inventory.Inventory.UseItem | Characters/ScriptHelperCharacters/Inventory.cs:32-43 | `PickUp` is called iff the item is held, and then one copy is removed; an absent item changes nothing |
| CharacterBody.Character.constructor | Characters/ScriptHelperCharacters/CharacterHelper.cs:135-270 | a character with the given inventory, grid cell, position and movement budget |
| Entity.NormalizedName | Characters/CharacterScripts/EntityModularNodesScripts/Entity.cs:34-38 | never empty; a non-empty name is kept, a null or empty one becomes "Unnamed Entity" |
| Entity.CheckedType | Characters/CharacterScripts/EntityModularNodesScripts/Entity.cs:48-58 | never NotDefined; NotDefined becomes Neutral, every other type is kept |
| Entity.NormalizationIdempotent | Characters/CharacterScripts/EntityModularNodesScripts/Entity.cs:34-58 | a second `Initialize` changes neither name nor type |
| Entity.Entity.constructor | Characters/CharacterScripts/EntityModularNodesScripts/Entity.cs:7-8 | the exported name and type, no event raised yet |
| Entity.Entity.Interact | Characters/CharacterScripts/EntityModularNodesScripts/Entity.cs:20-30 | a null character throws `ArgumentNullException` before any event; any other character is passed to `OnInteracted` |
| Entity.Entity.Initialize | Characters/CharacterScripts/EntityModularNodesScripts/Entity.cs:32-43 | the name is normalised (kept when non-empty), the type checked, `OnInitialized` raised once |
| Entity.Entity.CheckType | Characters/CharacterScripts/EntityModularNodesScripts/Entity.cs:48-59 | the type becomes `CheckedType` of the old one |
| ObjectModel.TypeLookupRekeys | 3DScenes/ScenesScripts/ObjectsScripts/ItemRegister.cs:16-37 | the boxed per-type tables hold exactly the entries of the typed artifact and resource tables |
| ObjectModel.GetKey | 3DScenes/ScenesScripts/ScenesHelper/ObjectsScripts/ObjectModel.cs:89-99 | Artifact gives the artifact sub-type, Resource the resource sub-type, and any other type throws, which is exactly the types without a registry table |
| ObjectModel.GetKeyNeverThrowsFromLookup | 3DScenes/ScenesScripts/ScenesHelper/ObjectsScripts/ObjectModel.cs:77 | the type lookup short-circuits before `GetKey` for types it would throw on |
| ObjectModel.RegistryResolution | 3DScenes/ScenesScripts/ObjectsScripts/ItemRegister.cs:16-28 | BootsOfSpeed, SecondArtifact and Gold resolve to their items; an undefined type or sub-type, and Wood, resolve to nothing |
| ObjectModel.Description | 3DScenes/ScenesScripts/ScenesHelper/ObjectsScripts/ObjectModel.cs:60-69 | `ToString`: an undefined type gives the node's own text; otherwise the text starts with "Type of the item is " and ends with the name of the artifact sub-type (for an artifact) or of the resource sub-type (for a resource) |
| ObjectModel.DescriptionNamesSubtype | 3DScenes/ScenesScripts/ScenesHelper/ObjectsScripts/ObjectModel.cs:60-69 | the text of an artifact (resource) differs from another's exactly when their artifact (resource) sub-types differ |
| ObjectModel.ObjectModel.constructor | 3DScenes/ScenesScripts/ScenesHelper/ObjectsScripts/ObjectModel.cs:14-29 | the exported type and sub-types, no linked item, not freed |
| ObjectModel.ObjectModel.Ready | 3DScenes/ScenesScripts/ScenesHelper/ObjectsScripts/ObjectModel.cs:36-39 | links the registry item as `GetLinkedItem` does |
| ObjectModel.ObjectModel.GetLinkedItem | 3DScenes/ScenesScripts/ScenesHelper/ObjectsScripts/ObjectModel.cs:74-83 | the item is linked only when both lookups succeed; otherwise the link is unchanged |
| ObjectModel.ObjectModel.OnPickUp | 3DScenes/ScenesScripts/ScenesHelper/ObjectsScripts/ObjectModel.cs:45-54 | a character template with an item linked gets exactly that item appended and the object is freed; otherwise nothing changes |
| CharacterHelper.ConsistentAlways | Characters/ScriptHelperCharacters/CharacterHelper.cs:83-241 | the idle state, every click and every tick keep the invariant: a selection has a non-empty path, a walk points inside its path, a stopped character has index 0 and no pending stop |
| CharacterHelper.ClickWhileMovingArmsStop | Characters/ScriptHelperCharacters/CharacterHelper.cs:173-178 | a click during a walk only sets the stop flag; path, index and selection are unchanged and nothing is called |
| CharacterHelper.RefusedClickChangesNothing | Characters/ScriptHelperCharacters/CharacterHelper.cs:194-231 | a click on nothing, on a closed tile, or with an empty or too long path changes nothing |
| CharacterHelper.PreviewThenConfirm | Characters/ScriptHelperCharacters/CharacterHelper.cs:217-276 | a first click on a new target previews exactly the found path; a second click on its end starts the walk on the previewed path, not the fresh one |
| CharacterHelper.ArmedStopEndsAtNextWaypoint | Characters/ScriptHelperCharacters/CharacterHelper.cs:93-288 | after a stop is armed, ticks without arrival change nothing and the next arrival stops the walk |
| CharacterHelper.WalkAdvances | Characters/ScriptHelperCharacters/CharacterHelper.cs:106-107 | undisturbed, k arrivals advance the index by k |
| CharacterHelper.WalkStops | Characters/ScriptHelperCharacters/CharacterHelper.cs:106-113 | the arrival at the last waypoint stops the walk, resetting flags and index and keeping the path |
| CharacterHelper.CharacterHelper.constructor | Characters/ScriptHelperCharacters/CharacterHelper.cs:14-58 | the helper starts idle, with no camera, no character and nothing called |
| CharacterHelper.CharacterHelper.Initialize | Characters/ScriptHelperCharacters/CharacterHelper.cs:67-72 | the arguments are stored in order until the first null one; success iff none is null |
| CharacterHelper.CharacterHelper.GridToWorldPosition | Characters/ScriptHelperCharacters/CharacterHelper.cs:296-303 | the cell's world position at the given height; the cell's own Y is not used |
| CharacterHelper.CharacterHelper.HandleCharacterMovements | Characters/ScriptHelperCharacters/CharacterHelper.cs:165-204 | without a camera nothing changes; otherwise the state becomes `Clicked` of the `React`ion to the target, with the tile test, the pathfinder's path and the movement budget, and the events are recorded; the character's grid cell becomes the target on a confirming click and stays put on every other click |
| CharacterHelper.CharacterHelper.PathingAndMoving | Characters/ScriptHelperCharacters/CharacterHelper.cs:210-232 | a path within the budget is previewed, or, when it ends at the previewed target, the walk starts and the character's grid cell becomes the target |
| CharacterHelper.CharacterHelper.VisualizePath | Characters/ScriptHelperCharacters/CharacterHelper.cs:238-261 | the path replaces the stored path points and `OnPathCalculated` is raised |
| CharacterHelper.CharacterHelper.StartMovement | Characters/ScriptHelperCharacters/CharacterHelper.cs:267-276 | moving, index 0, no selection, no pending stop, the character's cell is the target, `OnMovementStarted` raised |
| CharacterHelper.CharacterHelper.StopMovement | Characters/ScriptHelperCharacters/CharacterHelper.cs:281-288 | not moving, no pending stop, index 0, `OnMovementStopped` raised |
| CharacterHelper.CharacterHelper.HandlePlayerMovementsPhysics | Characters/ScriptHelperCharacters/CharacterHelper.cs:79-124 | steers only while walking inside the path; on arrival the character snaps to the waypoint (to the last point at the end of the path) and the state moves as `Ticked` says |
| CharacterHelper.ValidPositionsAreMapCells | Characters/ScriptHelperCharacters/CharacterHelper.cs:348-352 | `IsPositionValid` accepts a cell exactly when it is one of the cells the x-outer / z-inner map loops create |
| CharacterHelper.CharacterHelper.PickUpItem | Characters/ScriptHelperCharacters/CharacterHelper.cs:130-158 | an item on the character's own tile goes into the inventory, is freed, leaves the tile, and the tile is reported passable; only the tile's `Object`, the object's freed flag, the inventory's items and the outcalls may change, and in every other case none of them does |

## Left out

- Rendering: path markers (`ClearPathMarkers`, `ClearPassedPathMarkers`, the marker loop of `VisualizePath`), `VisualizeNotDefinedTiles` (its position list is returned instead), `InitializeTileMesh`, `VisualizeTileLegacy` and the materials. Only a mesh's visibility and "`QueueFree` was called" are kept.
- Logging (`GD.Print`, `GD.PrintErr`), `Inventory.DebugPrint` and `Entity.GetAllModules`: they only print.
- Input: the mouse ray cast of `HandleCharacterMovements` and `WorldToGridPosition`. The target cell (None when the ray hits nothing) and the character's start cell are inputs.
- `Position` stands for both `Position` and `GlobalPosition` of the character and of scene nodes: the parent's transform is not modelled. `HandlePlayerMovementsPhysics` reads `Position.Y` and writes `GlobalPosition` (CharacterHelper.cs:86-110); in the model both are one field.
- Floating point: floats are reals. The `Math.Round` conversions from world position to grid cell happen outside the model, in every placement script, `TileMapHelper` and `HandleEntityInteraction`. `TileMapHelper.CalculateSize` is left out.
- CharacterHelper.CharacterHelper.HandlePlayerMovementsPhysics: returns whether the character is steered instead of the velocity vector, because `Normalized`, `DistanceTo` and `MoveToward` are float geometry; the arrival test `distanceToTarget <= 0.1` is the input `arrived`.
- The A* search (`AStar3D.GetPointPath`) is a function parameter of `FindPath`; its code is not part of this model.
- `Pathfinder3D.UpdateTileState`, called by `PickUpItem`, has no definition in the repository; the call is recorded as an outcall.
- Events (`OnMovementStarted`, `OnMovementStopped`, `OnPathCalculated`, `OnInteracted`, `OnInitialized`) are recorded in traces or counters, not run.
- TileMap.TileMap.Ready: the children's own `Initialize` and the final `Pathfinder3D.Initialize(Map)` are recorded as steps. That call passes a 2-D map to a method that takes a 3-D one, so it belongs to another revision of the pathfinder.
- GlobalMap.GlobalMap.Ready: the exception handler is not modelled, because neither step can throw on this map; the exported hero is assumed assigned.
- `IdTilesMap`'s private `InitializeGrid` (a copy of the loop in `Initialize` that is never called) and `InitializeGridLegacy` (random tile types) are not modelled.
- Pathfinder.PointsArePassableTiles: stated for maps at most 1000 wide, because wider maps give two cells the same id (IdCollisionBeyondWidth).
- Pathfinder.PointsInsideMap: stated for maps at most 1000 wide, for the same reason.
- Pathfinder.EdgesAreOrthogonalSteps: stated for maps at most 1000 wide, for the same reason.
- Pathfinder.AdjacentPassableConnected: stated for maps at most 1000 wide, for the same reason.
- Pathfinder.ImpassableIsolated: stated for maps at most 1000 wide, for the same reason.
- Null dereferences in the source become preconditions:
  - `Pathfinder3D.Initialize` needs a tile in every cell of layer 0.
  - `Objects.AssignObjectToTile` reads the tile before its bounds test, so the object's cell must exist in the array.
  - `MeshTile.Tile.Reset` needs a mesh.
  - `ObjectModel.OnPickUp` needs the template's inventory.
  - `HandleCharacterMovements` needs a tile at a valid target cell only when a camera is set and no walk is underway (the only case in which the tile is read), and a character when it goes on to `PathingAndMoving`.
  - `TileMapHelper.MarkTilesAsNonPassable` needs a tile in every cell of the map, no tile shared by two cells, and an array at least `MapWidth` by `MapHeight`, although the source reads only the tiles of the clamped rectangle; the map is built before any decoration calls it.
  - `HandlePlayerMovementsPhysics` needs a character.
  - The placement scripts need a tile in every cell and every in-map cell to exist in the array.
- Units and inventory items are never null references in the model. `Unit` has no `Equals` override, so it is compared by reference. Registry items are compared by kind, since the registry creates each once.
- The UI accessors (`GetTitleUI`, `GetNameUI`, `GetDescriptionUI`) are not modelled.
- GridTilesMap.TilesMap.Initialize and IdTilesMap.TilesMap.Initialize require non-negative dimensions, because C# cannot allocate a negative-size array; the scene root only calls them after checking that both are positive.
