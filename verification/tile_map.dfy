/** `TileMap` of 3DScenes/ScenesScripts/TileMap.cs: the scene root that checks the
    map's dimensions, takes its cell size from the GridMap, hands the dimensions to
    the static helpers and to every child that can be initialised with a map, and
    then builds the pathfinder graph. The children's own `Initialize` and the
    pathfinder call are recorded as steps, not run. */
module TileMap {
  import opened Common
  import TileMapHelper
  import CharacterHelper

  const DefaultGridPositionConverter: real := 2.0

  /** What `_Ready` hands to other code, in order. */
  datatype ReadyStep =
    | StaticHelpersSet(mapWidth: int, mapHeight: int, converter: real)
    | ChildInitialized(child: int, mapWidth: int, mapHeight: int, converter: real)
    | PathfinderInitialized

  /** `AdjustGridMapCellSize`: the GridMap's cell size (None when no GridMap is
      assigned) is adopted only when its X and Z agree. */
  function AdjustedConverter(current: real, cellSize: Option<Vec3>): (c: real)
    ensures cellSize.Some? && cellSize.value.x == cellSize.value.z ==> c == cellSize.value.x
    ensures cellSize.None? || cellSize.value.x != cellSize.value.z ==> c == current
  {
    if cellSize.None? then current
    else if cellSize.value.x != cellSize.value.z then current
    else cellSize.value.x
  }

  /** The loop of `InitializeChildren`: `initializable[i]` says whether child i
      implements `IMapInitializable`; each such child, in order, gets the triple. */
  function ChildCalls(initializable: seq<bool>, w: int, h: int, c: real): seq<ReadyStep> {
    if initializable == [] then []
    else
      var last := |initializable| - 1;
      ChildCalls(initializable[..last], w, h, c) +
        (if initializable[last] then [ChildInitialized(last, w, h, c)] else [])
  }

  /** Exactly the initialisable children are called, each once, in child order, and
      every one of them receives the same width, height and cell size. */
  lemma {:induction false} ChildCallsExact(initializable: seq<bool>, w: int, h: int, c: real)
    ensures forall k :: 0 <= k < |ChildCalls(initializable, w, h, c)| ==>
      var call := ChildCalls(initializable, w, h, c)[k];
      call.ChildInitialized? && call.mapWidth == w && call.mapHeight == h && call.converter == c &&
      0 <= call.child < |initializable| && initializable[call.child]
    ensures forall k1, k2 :: 0 <= k1 < k2 < |ChildCalls(initializable, w, h, c)| ==>
      ChildCalls(initializable, w, h, c)[k1].child < ChildCalls(initializable, w, h, c)[k2].child
    ensures forall i :: 0 <= i < |initializable| && initializable[i] ==>
      ChildInitialized(i, w, h, c) in ChildCalls(initializable, w, h, c)
  {
    if initializable != [] {
      var last := |initializable| - 1;
      var prefix := initializable[..last];
      ChildCallsExact(prefix, w, h, c);
      var before := ChildCalls(prefix, w, h, c);
      var calls := ChildCalls(initializable, w, h, c);
      assert calls == before + (if initializable[last] then [ChildInitialized(last, w, h, c)] else []);
      forall k | 0 <= k < |calls|
        ensures calls[k].ChildInitialized? && 0 <= calls[k].child < |initializable| && initializable[calls[k].child]
      {
        if k < |before| {
          assert calls[k] == before[k];
          assert initializable[calls[k].child] == prefix[calls[k].child];
        }
      }
      forall i | 0 <= i < |initializable| && initializable[i]
        ensures ChildInitialized(i, w, h, c) in calls
      {
        if i < last {
          assert prefix[i] == initializable[i];
        }
      }
    }
  }

  class TileMap {
    var MapWidth: int
    var MapHeight: int
    /** `GridMapT.CellSize`, or None when no GridMap is assigned. */
    var GridMapCellSize: Option<Vec3>
    var GridPositionConverter: real

    constructor (mapWidth: int, mapHeight: int, gridMapCellSize: Option<Vec3>)
      ensures MapWidth == mapWidth && MapHeight == mapHeight && GridMapCellSize == gridMapCellSize
      ensures GridPositionConverter == DefaultGridPositionConverter
    {
      MapWidth, MapHeight, GridMapCellSize := mapWidth, mapHeight, gridMapCellSize;
      GridPositionConverter := DefaultGridPositionConverter;
    }

    method ValidateMapDimensions() returns (valid: bool)
      ensures valid <==> MapWidth > 0 && MapHeight > 0
    {
      valid := MapWidth > 0 && MapHeight > 0;
    }

    /** `_Ready`: invalid dimensions stop it before anything else; otherwise the cell
        size is adjusted, the helpers and then the children receive the map's
        dimensions, and last the pathfinder is initialised. */
    method Ready(tileMapHelper: TileMapHelper.TileMapHelper, characterHelper: CharacterHelper.CharacterHelper,
                 initializable: seq<bool>) returns (steps: seq<ReadyStep>)
      modifies this`GridPositionConverter
      modifies tileMapHelper`MapWidth, tileMapHelper`MapHeight, tileMapHelper`GridPositionConverter
      modifies characterHelper`MapWidth, characterHelper`MapHeight, characterHelper`GridPositionConverter
      ensures !(MapWidth > 0 && MapHeight > 0) ==>
        steps == [] && GridPositionConverter == old(GridPositionConverter) &&
        tileMapHelper.MapWidth == old(tileMapHelper.MapWidth) &&
        tileMapHelper.MapHeight == old(tileMapHelper.MapHeight) &&
        tileMapHelper.GridPositionConverter == old(tileMapHelper.GridPositionConverter) &&
        characterHelper.MapWidth == old(characterHelper.MapWidth) &&
        characterHelper.MapHeight == old(characterHelper.MapHeight) &&
        characterHelper.GridPositionConverter == old(characterHelper.GridPositionConverter)
      ensures MapWidth > 0 && MapHeight > 0 ==>
        GridPositionConverter == AdjustedConverter(old(GridPositionConverter), GridMapCellSize) &&
        tileMapHelper.MapWidth == MapWidth && tileMapHelper.MapHeight == MapHeight &&
        tileMapHelper.GridPositionConverter == GridPositionConverter &&
        characterHelper.MapWidth == MapWidth && characterHelper.MapHeight == MapHeight &&
        characterHelper.GridPositionConverter == GridPositionConverter &&
        steps == [StaticHelpersSet(MapWidth, MapHeight, GridPositionConverter)] +
                 ChildCalls(initializable, MapWidth, MapHeight, GridPositionConverter) +
                 [PathfinderInitialized]
    {
      var valid := ValidateMapDimensions();
      if !valid {
        return [];
      }
      AdjustGridMapCellSize();
      steps := InitializeChildren(tileMapHelper, characterHelper, initializable);
      steps := steps + [PathfinderInitialized];
    }

    method AdjustGridMapCellSize()
      modifies this`GridPositionConverter
      ensures GridPositionConverter == AdjustedConverter(old(GridPositionConverter), GridMapCellSize)
    {
      if GridMapCellSize.None? {
        return;
      }
      if GridMapCellSize.value.x != GridMapCellSize.value.z {
        return;
      }
      GridPositionConverter := GridMapCellSize.value.x;
    }

    /** The helpers first, then the loop over the children. */
    method InitializeChildren(tileMapHelper: TileMapHelper.TileMapHelper, characterHelper: CharacterHelper.CharacterHelper,
                              initializable: seq<bool>) returns (steps: seq<ReadyStep>)
      modifies tileMapHelper`MapWidth, tileMapHelper`MapHeight, tileMapHelper`GridPositionConverter
      modifies characterHelper`MapWidth, characterHelper`MapHeight, characterHelper`GridPositionConverter
      ensures tileMapHelper.MapWidth == MapWidth && tileMapHelper.MapHeight == MapHeight
      ensures tileMapHelper.GridPositionConverter == GridPositionConverter
      ensures characterHelper.MapWidth == MapWidth && characterHelper.MapHeight == MapHeight
      ensures characterHelper.GridPositionConverter == GridPositionConverter
      ensures steps == [StaticHelpersSet(MapWidth, MapHeight, GridPositionConverter)] +
                       ChildCalls(initializable, MapWidth, MapHeight, GridPositionConverter)
    {
      InitializeStaticHelpers(tileMapHelper, characterHelper);
      steps := [StaticHelpersSet(MapWidth, MapHeight, GridPositionConverter)];
      var i := 0;
      while i < |initializable|
        invariant 0 <= i <= |initializable|
        invariant steps == [StaticHelpersSet(MapWidth, MapHeight, GridPositionConverter)] +
                           ChildCalls(initializable[..i], MapWidth, MapHeight, GridPositionConverter)
      {
        assert initializable[..i + 1][..i] == initializable[..i];
        if initializable[i] {
          steps := steps + [ChildInitialized(i, MapWidth, MapHeight, GridPositionConverter)];
        }
        i := i + 1;
      }
      assert initializable[..|initializable|] == initializable;
    }

    method InitializeStaticHelpers(tileMapHelper: TileMapHelper.TileMapHelper, characterHelper: CharacterHelper.CharacterHelper)
      modifies tileMapHelper`MapWidth, tileMapHelper`MapHeight, tileMapHelper`GridPositionConverter
      modifies characterHelper`MapWidth, characterHelper`MapHeight, characterHelper`GridPositionConverter
      ensures tileMapHelper.MapWidth == MapWidth && tileMapHelper.MapHeight == MapHeight
      ensures tileMapHelper.GridPositionConverter == GridPositionConverter
      ensures characterHelper.MapWidth == MapWidth && characterHelper.MapHeight == MapHeight
      ensures characterHelper.GridPositionConverter == GridPositionConverter
    {
      tileMapHelper.MapWidth := MapWidth;
      tileMapHelper.MapHeight := MapHeight;
      tileMapHelper.GridPositionConverter := GridPositionConverter;
      characterHelper.MapWidth := MapWidth;
      characterHelper.MapHeight := MapHeight;
      characterHelper.GridPositionConverter := GridPositionConverter;
    }
  }
}
