/** `CharacterHelper` of Characters/ScriptHelperCharacters/CharacterHelper.cs: the
    click-to-move controller. A first click on a reachable tile previews a path, a
    second click on the same target confirms it and starts the walk, a click during
    the walk stops it at the next waypoint, and every physics tick in which the
    character reaches its waypoint moves on to the next one.

    The static class is one object. The ray cast and the rounding of world positions
    to grid cells happen outside: the handlers receive grid cells. Whether the
    character is within 0.1 of its waypoint is the input `arrived`. Path markers are
    not modelled; the events and the call to the pathfinder's `UpdateTileState` are
    recorded in `Outcalls`. */
module CharacterHelper {
  import opened Common
  import opened Scene
  import opened CostTile
  import opened Inventory
  import opened CharacterBody
  import Pathfinder

  /** What the helper hands to code outside it, in order: its three events and the
      pathfinder's `UpdateTileState`. */
  datatype Outcall =
    | MovementStarted
    | MovementStopped
    | PathCalculated(path: seq<Vec3I>)
    | TileStateUpdated(position: Vec3I, passable: bool)

  /** The movement state: `_pathPoints`, `_currentPathIndex`, `_isTargetSelected`,
      `_isMoving`, `_stopAfterNextPoint`. */
  datatype Motion = Motion(pathPoints: seq<Vec3I>, index: int, targetSelected: bool,
                           moving: bool, stopAfterNext: bool)

  const Idle: Motion := Motion([], 0, false, false, false)

  /** What the movement state always satisfies: a selected target has a previewed
      path (so `_pathPoints[^1]` exists), a walk points at one of its waypoints and
      has no selection, and a stopped character has index 0 and no pending stop. */
  predicate Consistent(m: Motion) {
    (m.targetSelected ==> |m.pathPoints| > 0) &&
    (m.moving ==> 0 <= m.index < |m.pathPoints| && !m.targetSelected) &&
    (!m.moving ==> m.index == 0 && !m.stopAfterNext)
  }

  /** How a click is answered. */
  datatype Reaction = Ignored | StopArmed | Previewed | Confirmed

  /** `HandleCharacterMovements` and `PathingAndMoving` with the camera present.
      `target` is the cell under the cursor (None when the ray hits nothing), `open`
      says it is inside the map and its tile passable, `path` is what the pathfinder
      returns for it and `budget` the character's remaining movement. */
  function React(m: Motion, target: Option<Vec3I>, open: bool, path: seq<Vec3I>, budget: int): Reaction
    requires m.targetSelected ==> |m.pathPoints| > 0
  {
    if m.moving then StopArmed
    else if target.None? || !open then Ignored
    else if !(0 < |path| <= budget) then Ignored
    else if !m.targetSelected || m.pathPoints[|m.pathPoints| - 1] != target.value then Previewed
    else Confirmed
  }

  /** `StartMovement`: the walk follows the previewed path, from its first point. */
  function Started(m: Motion): Motion {
    m.(moving := true, targetSelected := false, stopAfterNext := false, index := 0)
  }

  /** `StopMovement`. */
  function Stopped(m: Motion): Motion {
    m.(moving := false, stopAfterNext := false, index := 0)
  }

  /** The movement state after a click answered by `r`. */
  function Clicked(m: Motion, r: Reaction, path: seq<Vec3I>): Motion {
    match r
    case Ignored => m
    case StopArmed => m.(stopAfterNext := true)
    case Previewed => m.(pathPoints := path, targetSelected := true)
    case Confirmed => Started(m)
  }

  /** The calls a click makes: `VisualizePath` raises `OnPathCalculated`,
      `StartMovement` raises `OnMovementStarted`. */
  function ClickOutcalls(r: Reaction, path: seq<Vec3I>): seq<Outcall> {
    match r
    case Previewed => [PathCalculated(path)]
    case Confirmed => [MovementStarted]
    case _ => []
  }

  /** `HandlePlayerMovementsPhysics` on the movement state. */
  function Ticked(m: Motion, arrived: bool): Motion {
    if m.moving && m.index < |m.pathPoints| && arrived then
      if m.stopAfterNext then Stopped(m)
      else if m.index + 1 >= |m.pathPoints| then Stopped(m.(index := m.index + 1))
      else m.(index := m.index + 1)
    else m
  }

  /** The tick reaches the end of the path (rather than stopping on request). */
  predicate ReachesEnd(m: Motion, arrived: bool) {
    m.moving && m.index < |m.pathPoints| && arrived && !m.stopAfterNext && m.index + 1 >= |m.pathPoints|
  }

  /** The helper starts idle, and clicks and ticks keep the movement state
      consistent. */
  lemma ConsistentAlways(m: Motion, target: Option<Vec3I>, open: bool, path: seq<Vec3I>, budget: int, arrived: bool)
    requires Consistent(m)
    ensures Consistent(Idle)
    ensures Consistent(Clicked(m, React(m, target, open, path, budget), path))
    ensures Consistent(Ticked(m, arrived))
  {
  }

  /** A click during a walk only arms the stop: path, index and selection stay. */
  lemma ClickWhileMovingArmsStop(m: Motion, target: Option<Vec3I>, open: bool, path: seq<Vec3I>, budget: int)
    requires Consistent(m) && m.moving
    ensures Clicked(m, React(m, target, open, path, budget), path) == m.(stopAfterNext := true)
    ensures ClickOutcalls(React(m, target, open, path, budget), path) == []
  {
  }

  /** A click on nothing, on a closed tile, or with a path that is empty or longer
      than the budget changes nothing and calls nothing. */
  lemma RefusedClickChangesNothing(m: Motion, target: Option<Vec3I>, open: bool, path: seq<Vec3I>, budget: int)
    requires Consistent(m) && !m.moving
    requires target.None? || !open || |path| == 0 || |path| > budget
    ensures Clicked(m, React(m, target, open, path, budget), path) == m
    ensures ClickOutcalls(React(m, target, open, path, budget), path) == []
  {
  }

  /** Preview then confirm: a first accepted click on a new target shows its path;
      a second accepted click on the same target (the path found the first time
      ends there) starts the walk along the FIRST path, whatever the second search
      returned. */
  lemma PreviewThenConfirm(m: Motion, t: Vec3I, path1: seq<Vec3I>, budget1: int, path2: seq<Vec3I>, budget2: int)
    requires Consistent(m) && !m.moving
    requires 0 < |path1| <= budget1 && path1[|path1| - 1] == t
    requires 0 < |path2| <= budget2
    requires !m.targetSelected || m.pathPoints[|m.pathPoints| - 1] != t
    ensures React(m, Some(t), true, path1, budget1) == Previewed
    ensures var m1 := Clicked(m, Previewed, path1);
      m1.pathPoints == path1 && m1.targetSelected && !m1.moving &&
      React(m1, Some(t), true, path2, budget2) == Confirmed &&
      Clicked(m1, Confirmed, path2) == Motion(path1, 0, false, true, false)
  {
  }

  /** An armed stop ends the walk at the waypoint being approached. */
  lemma ArmedStopEndsAtNextWaypoint(m: Motion, target: Option<Vec3I>, open: bool, path: seq<Vec3I>, budget: int)
    requires Consistent(m) && m.moving
    ensures var armed := Clicked(m, React(m, target, open, path, budget), path);
      Ticked(armed, false) == armed && Ticked(armed, true) == Stopped(m)
  {
  }

  /** `n` physics ticks in which the character arrives each time. */
  function Arrivals(m: Motion, n: nat): Motion
    decreases n
  {
    if n == 0 then m else Arrivals(Ticked(m, true), n - 1)
  }

  /** Undisturbed, a walk visits the waypoints in order, one per arrival... */
  lemma {:induction false} WalkAdvances(m: Motion, k: nat)
    requires Consistent(m) && m.moving && !m.stopAfterNext
    requires k < |m.pathPoints| - m.index
    ensures Arrivals(m, k) == m.(index := m.index + k)
    decreases k
  {
    if k > 0 {
      var next := Ticked(m, true);
      assert next == m.(index := m.index + 1);
      WalkAdvances(next, k - 1);
    }
  }

  /** ...and stops, with the flags and index reset and the path kept, at the
      arrival on the last one. */
  lemma {:induction false} WalkStops(m: Motion)
    requires Consistent(m) && m.moving && !m.stopAfterNext
    ensures Arrivals(m, |m.pathPoints| - m.index) == Stopped(m)
    decreases |m.pathPoints| - m.index
  {
    if m.index + 1 < |m.pathPoints| {
      var next := Ticked(m, true);
      assert next == m.(index := m.index + 1);
      WalkStops(next);
      assert Stopped(next) == Stopped(m);
    }
  }

  /** The tile `PickUpItem` may clear, when there is one. */
  function TileFrame(tile: Tile?): set<Tile> {
    if tile != null then {tile} else {}
  }

  /** The object lying on that tile, when there is one. */
  function ObjectFrame(tile: Tile?): set<SceneNode>
    reads tile
  {
    if tile != null && tile.Object != null then {tile.Object} else {}
  }

  class CharacterHelper {
    var Speed: real
    var MapWidth: int
    var MapHeight: int
    var GridPositionConverter: real
    /** `_mainCamera != null`. */
    var CameraSet: bool
    var Character: Character?
    var PathPoints: seq<Vec3I>
    var CurrentPathIndex: int
    var IsTargetSelected: bool
    var IsMoving: bool
    var StopAfterNextPoint: bool
    var Outcalls: seq<Outcall>

    /** The character, when there is one. */
    function CharacterFrame(): set<Character>
      reads this
    {
      if Character != null then {Character} else {}
    }

    /** The character's inventory, when there is one. */
    function InventoryFrame(): set<Inventory>
      reads this, CharacterFrame()
    {
      if Character != null && Character.Inventory != null then {Character.Inventory} else {}
    }

    function State(): Motion
      reads this
    {
      Motion(PathPoints, CurrentPathIndex, IsTargetSelected, IsMoving, StopAfterNextPoint)
    }

    predicate Valid()
      reads this
    {
      Consistent(State())
    }

    constructor ()
      ensures Valid() && State() == Idle
      ensures !CameraSet && Character == null && Outcalls == []
    {
      Speed, MapWidth, MapHeight, GridPositionConverter := 0.0, 0, 0, 0.0;
      CameraSet, Character := false, null;
      PathPoints, CurrentPathIndex := [], 0;
      IsTargetSelected, IsMoving, StopAfterNextPoint := false, false, false;
      Outcalls := [];
    }

    /** `Initialize`: each argument is checked as it is stored, so a null argument
        leaves the earlier ones stored and throws `ArgumentNullException`
        (`succeeded` false). The marker scene itself is not modelled. */
    method Initialize(cameraPresent: bool, character: Character?, markerScenePresent: bool)
      returns (succeeded: bool)
      modifies this`CameraSet, this`Character
      ensures CameraSet == (cameraPresent || old(CameraSet))
      ensures Character == if cameraPresent && character != null then character else old(Character)
      ensures succeeded <==> cameraPresent && character != null && markerScenePresent
    {
      if !cameraPresent {
        return false;
      }
      CameraSet := true;
      if character == null {
        return false;
      }
      Character := character;
      succeeded := markerScenePresent;
    }

    /** `IsPositionValid`. */
    predicate IsPositionValid(position: Vec3I)
      reads this
    {
      0 <= position.x < MapWidth && 0 <= position.z < MapHeight
    }

    /** `GridToWorldPosition`: the cell's world position at height `yPosition`; the
        cell's own Y is not used. */
    function GridToWorldPosition(gridPosition: Vec3I, yPosition: real): (p: Vec3)
      reads this
      ensures p == CellToWorld(gridPosition.x, gridPosition.z, GridPositionConverter, yPosition)
    {
      Vec3(gridPosition.x as real * GridPositionConverter, yPosition, gridPosition.z as real * GridPositionConverter)
    }

    /** `HandleCharacterMovements` for the cell `target` under the cursor. Without a
        camera nothing happens. Otherwise the state moves as `React` and `Clicked`
        say, with the tile test `open` read from `tiles` (the scene's `Map`) and the
        path found by the pathfinder from `start`, the character's own cell; a
        confirmed target becomes the character's `GridPosition`. */
    method HandleCharacterMovements(target: Option<Vec3I>, start: Vec3I, tiles: array2<Tile?>,
                                    pathfinder: Pathfinder.Pathfinder3D,
                                    getPointPath: (Pathfinder.Graph, int, int) -> seq<Vec3>)
      requires Valid()
      requires (CameraSet && !IsMoving && target.Some? && IsPositionValid(target.value)) ==>
        target.value.x < tiles.Length0 && target.value.z < tiles.Length1 && tiles[target.value.x, target.value.z] != null
      requires (CameraSet && !IsMoving && target.Some? && IsPositionValid(target.value) &&
                tiles[target.value.x, target.value.z].IsPassable) ==> Character != null
      modifies this`PathPoints, this`CurrentPathIndex, this`IsTargetSelected, this`IsMoving
      modifies this`StopAfterNextPoint, this`Outcalls, CharacterFrame()`GridPosition
      ensures Valid()
      ensures !CameraSet ==> State() == old(State()) && Outcalls == old(Outcalls)
      ensures Character != null ==>
        (Character.GridPosition == old(Character.GridPosition) ||
         (CameraSet && target.Some? && Character.GridPosition == target.value))
      ensures CameraSet ==>
        var open := !old(IsMoving) && target.Some? && IsPositionValid(target.value) &&
                    tiles[target.value.x, target.value.z].IsPassable;
        var path := if open then Pathfinder.FindPath(pathfinder.Astar, start, target.value, getPointPath) else [];
        var budget := if open && Character != null then Character.RemainingMovement else 0;
        var r := React(old(State()), target, open, path, budget);
        State() == Clicked(old(State()), r, path) &&
        Outcalls == old(Outcalls) + ClickOutcalls(r, path) &&
        (Character != null ==>
          Character.GridPosition == if r == Confirmed then target.value else old(Character.GridPosition))
    {
      if !CameraSet {
        return;
      }
      if IsMoving {
        StopAfterNextPoint := true;
        return;
      }
      if target.Some? && IsPositionValid(target.value) && tiles[target.value.x, target.value.z].IsPassable {
        PathingAndMoving(target.value, start, pathfinder, getPointPath);
      }
    }

    /** `PathingAndMoving`: a path within the budget is previewed, or confirmed when
        the target is the end of the previewed path. */
    method PathingAndMoving(target: Vec3I, start: Vec3I, pathfinder: Pathfinder.Pathfinder3D,
                            getPointPath: (Pathfinder.Graph, int, int) -> seq<Vec3>)
      requires Valid() && !IsMoving && Character != null
      modifies this`PathPoints, this`CurrentPathIndex, this`IsTargetSelected, this`IsMoving
      modifies this`StopAfterNextPoint, this`Outcalls, Character`GridPosition
      ensures Valid()
      ensures var path := Pathfinder.FindPath(pathfinder.Astar, start, target, getPointPath);
        var r := React(old(State()), Some(target), true, path, Character.RemainingMovement);
        State() == Clicked(old(State()), r, path) &&
        Outcalls == old(Outcalls) + ClickOutcalls(r, path) &&
        Character.GridPosition == (if r == Confirmed then target else old(Character.GridPosition))
    {
      var path := Pathfinder.FindPath(pathfinder.Astar, start, target, getPointPath);
      if 0 < |path| && |path| <= Character.RemainingMovement {
        if !IsTargetSelected || PathPoints[|PathPoints| - 1] != target {
          VisualizePath(path);
          IsTargetSelected := true;
        } else {
          StartMovement(target);
        }
      }
    }

    /** The bookkeeping part of `VisualizePath`: the path replaces `_pathPoints`
        and `OnPathCalculated` is raised. */
    method VisualizePath(path: seq<Vec3I>)
      modifies this`PathPoints, this`Outcalls
      ensures PathPoints == path
      ensures Outcalls == old(Outcalls) + [PathCalculated(path)]
    {
      PathPoints := path;
      Outcalls := Outcalls + [PathCalculated(path)];
    }

    method StartMovement(target: Vec3I)
      requires Character != null
      modifies this`IsMoving, this`IsTargetSelected, this`StopAfterNextPoint, this`CurrentPathIndex
      modifies this`Outcalls, Character`GridPosition
      ensures State() == Started(old(State()))
      ensures Character.GridPosition == target
      ensures Outcalls == old(Outcalls) + [MovementStarted]
    {
      IsMoving := true;
      Character.GridPosition := target;
      IsTargetSelected := false;
      StopAfterNextPoint := false;
      CurrentPathIndex := 0;
      Outcalls := Outcalls + [MovementStarted];
    }

    method StopMovement()
      modifies this`IsMoving, this`StopAfterNextPoint, this`CurrentPathIndex, this`Outcalls
      ensures State() == Stopped(old(State()))
      ensures Outcalls == old(Outcalls) + [MovementStopped]
    {
      IsMoving := false;
      StopAfterNextPoint := false;
      CurrentPathIndex := 0;
      Outcalls := Outcalls + [MovementStopped];
    }

    /** `HandlePlayerMovementsPhysics`: `steering` says whether the character is
        steered toward a waypoint (otherwise it brakes). On arrival it is snapped to
        the waypoint, at its current height, and the state moves as `Ticked` says; at
        the end of the path it ends on the last point. */
    method HandlePlayerMovementsPhysics(arrived: bool) returns (steering: bool)
      requires Valid() && Character != null
      modifies this`CurrentPathIndex, this`IsMoving, this`StopAfterNextPoint, this`Outcalls
      modifies Character`Position
      ensures Valid()
      ensures steering <==> old(IsMoving) && old(CurrentPathIndex) < |PathPoints|
      ensures State() == Ticked(old(State()), arrived)
      ensures PathPoints == old(PathPoints) && IsTargetSelected == old(IsTargetSelected)
      ensures steering && arrived ==>
        Character.Position == GridToWorldPosition(
          if ReachesEnd(old(State()), arrived) then PathPoints[|PathPoints| - 1] else PathPoints[old(CurrentPathIndex)],
          old(Character.Position.y))
      ensures !(steering && arrived) ==> Character.Position == old(Character.Position)
      ensures Outcalls == old(Outcalls) + (if steering && arrived && (old(StopAfterNextPoint) ||
        ReachesEnd(old(State()), arrived)) then [MovementStopped] else [])
    {
      steering := IsMoving && CurrentPathIndex < |PathPoints|;
      if steering {
        var targetPosition := GridToWorldPosition(PathPoints[CurrentPathIndex], Character.Position.y);
        if arrived {
          Character.Position := targetPosition;
          if StopAfterNextPoint {
            StopMovement();
          } else {
            CurrentPathIndex := CurrentPathIndex + 1;
            if CurrentPathIndex >= |PathPoints| {
              Character.Position := GridToWorldPosition(PathPoints[|PathPoints| - 1], Character.Position.y);
              StopMovement();
            }
          }
        }
      }
    }

    /** `PickUpItem`: an item lying on the character's own tile goes into its
        inventory, is freed, leaves the tile, and the tile is reported passable to
        the pathfinder. In every other case (no tile, no object, no character, another
        tile, an object that is not an item, no inventory) nothing changes. */
    method PickUpItem(tile: Tile?)
      modifies TileFrame(tile)`Object, ObjectFrame(tile)`Freed, InventoryFrame()`Items, this`Outcalls
      ensures var taken := old(tile != null && tile.Object != null && Character != null &&
                               Character.GridPosition == tile.PositionGrid && tile.Object.IsItem &&
                               Character.Inventory != null);
        (taken ==>
          Character.Inventory.Items == old(Character.Inventory.Items) + [NodeItem(old(tile.Object))] &&
          old(tile.Object).Freed && tile.Object == null &&
          Outcalls == old(Outcalls) + [TileStateUpdated(old(tile.PositionGrid), true)]) &&
        (!taken ==>
          (Outcalls == old(Outcalls) &&
           (tile != null ==>
             (tile.Object == old(tile.Object) &&
              (tile.Object != null ==> tile.Object.Freed == old(tile.Object.Freed)))) &&
           (Character != null && Character.Inventory != null ==>
             Character.Inventory.Items == old(Character.Inventory.Items))))
    {
      if tile == null || tile.Object == null || Character == null {
        return;
      }
      if Character.GridPosition != tile.PositionGrid {
        return;
      }
      var obj := tile.Object;
      if obj.IsItem {
        if Character.Inventory == null {
          return;
        }
        Character.Inventory.AddItem(NodeItem(obj));
        obj.Freed := true;
        tile.Object := null;
        Outcalls := Outcalls + [TileStateUpdated(tile.PositionGrid, true)];
      }
    }
  }

  /** The cells `IsPositionValid` accepts are exactly the cells the map loops
      create, so a valid target always names a tile of the map. */
  lemma {:induction false} ValidPositionsAreMapCells(helper: CharacterHelper, position: Vec3I)
    requires helper.MapWidth >= 0 && helper.MapHeight >= 0
    ensures helper.IsPositionValid(position) <==>
      (position.x, position.z) in RowMajor(helper.MapWidth, helper.MapHeight)
  {
    RowMajorContents(helper.MapWidth, helper.MapHeight);
  }
}
