/** `Pathfinder3D` of Characters/ScriptHelperCharacters/Pathfinder.cs: the A* graph
    over a flat `Tile[,,]` map. Points are identified by `z * 1000 + x`; each passable
    tile is connected to its passable x-1 and z-1 neighbours. The search itself
    (`AStar3D.GetPointPath`) is a parameter of `FindPath`. */
module Pathfinder {
  import opened Common
  import CostTile

  /** The tile id `z * 1000 + x`. */
  function GetId(x: int, z: int): (id: int)
    ensures 0 <= x < 1000 && z >= 0 ==> id >= 0 && id % 1000 == x && id / 1000 == z
  {
    z * 1000 + x
  }

  /** The cell an id stands for, when the map is at most 1000 wide. */
  function CellOf(id: int): (int, int) {
    (id % 1000, id / 1000)
  }

  lemma GetIdInjective(x1: int, z1: int, x2: int, z2: int)
    requires 0 <= x1 < 1000 && z1 >= 0 && 0 <= x2 < 1000 && z2 >= 0
    ensures GetId(x1, z1) == GetId(x2, z2) <==> x1 == x2 && z1 == z2
  {
  }

  /** Beyond 1000 columns the ids collide: (1000, 0) and (0, 1) share id 1000. */
  lemma IdCollisionBeyondWidth()
    ensures GetId(1000, 0) == GetId(0, 1)
  {
  }

  /** The state of the AStar3D object: point positions by id and the connections
      made, each stored as (from, to) as passed to `ConnectPoints` (connections are
      bidirectional). */
  datatype Graph = Graph(points: map<int, Vec3>, edges: set<(int, int)>)

  const EmptyGraph := Graph(map[], {})

  /** `AStar3D.ConnectPoints(a, b)`: connects two existing points, otherwise does
      nothing. */
  function Connect(g: Graph, a: int, b: int): (r: Graph)
    ensures r.points == g.points
    ensures a in g.points && b in g.points ==> r.edges == g.edges + {(a, b)}
    ensures !(a in g.points && b in g.points) ==> r.edges == g.edges
  {
    if a in g.points && b in g.points then g.(edges := g.edges + {(a, b)}) else g
  }

  /** The body of the inner loop of `Initialize` for cell (x, z). */
  function Step(g: Graph, passable: (int, int) -> bool, x: int, z: int): Graph {
    if passable(x, z) then
      var id := GetId(x, z);
      var g1 := g.(points := g.points[id := Vec3(x as real, 0.0, z as real)]);
      var g2 := if x > 0 && passable(x - 1, z) then Connect(g1, id, GetId(x - 1, z)) else g1;
      if z > 0 && passable(x, z - 1) then Connect(g2, id, GetId(x, z - 1)) else g2
    else g
  }

  /** The inner loop for column x, cells (x, 0) .. (x, z - 1). */
  function BuildColumn(g: Graph, passable: (int, int) -> bool, x: int, z: nat): Graph {
    if z == 0 then g else Step(BuildColumn(g, passable, x, z - 1), passable, x, z - 1)
  }

  /** The nested loops of `Initialize` over columns 0 .. x - 1 of depth d. */
  function Build(g: Graph, passable: (int, int) -> bool, x: nat, d: nat): Graph {
    if x == 0 then g else BuildColumn(Build(g, passable, x - 1, d), passable, x - 1, d)
  }

  /** Cell (x, z) has been visited once the loops reached column x0, row z0. */
  predicate Done(x: int, z: int, x0: int, z0: int, d: int) {
    (0 <= x < x0 && 0 <= z < d) || (x == x0 && 0 <= z < z0)
  }

  /** Every point is a visited passable cell, stored at its own position. */
  ghost predicate PointsVisited(g: Graph, passable: (int, int) -> bool, x0: int, z0: int, d: int) {
    forall id :: id in g.points ==>
      var (x, z) := CellOf(id);
      Done(x, z, x0, z0, d) && passable(x, z) && id == GetId(x, z) &&
      g.points[id] == Vec3(x as real, 0.0, z as real)
  }

  /** Every visited passable cell is a point. */
  ghost predicate VisitedArePoints(g: Graph, passable: (int, int) -> bool, x0: int, z0: int, d: int) {
    forall x, z :: Done(x, z, x0, z0, d) && passable(x, z) ==> GetId(x, z) in g.points
  }

  /** Every edge leaves a visited passable cell towards its passable x-1 or z-1
      neighbour. */
  ghost predicate EdgesVisited(g: Graph, passable: (int, int) -> bool, x0: int, z0: int, d: int) {
    forall e :: e in g.edges ==>
      var (x, z) := CellOf(e.0);
      Done(x, z, x0, z0, d) && passable(x, z) && e.0 == GetId(x, z) &&
      ((x > 0 && passable(x - 1, z) && e.1 == GetId(x - 1, z)) ||
       (z > 0 && passable(x, z - 1) && e.1 == GetId(x, z - 1)))
  }

  /** Every visited passable cell is connected to its passable x-1 and z-1
      neighbours. */
  ghost predicate VisitedConnected(g: Graph, passable: (int, int) -> bool, x0: int, z0: int, d: int) {
    (forall x, z :: Done(x, z, x0, z0, d) && passable(x, z) && x > 0 && passable(x - 1, z) ==>
      (GetId(x, z), GetId(x - 1, z)) in g.edges) &&
    (forall x, z :: Done(x, z, x0, z0, d) && passable(x, z) && z > 0 && passable(x, z - 1) ==>
      (GetId(x, z), GetId(x, z - 1)) in g.edges)
  }

  /** What the graph holds after visiting the cells before (x0, z0), starting empty. */
  ghost predicate Partial(g: Graph, passable: (int, int) -> bool, x0: int, z0: int, d: int) {
    PointsVisited(g, passable, x0, z0, d) && VisitedArePoints(g, passable, x0, z0, d) &&
    EdgesVisited(g, passable, x0, z0, d) && VisitedConnected(g, passable, x0, z0, d)
  }

  lemma StepPoints(g: Graph, passable: (int, int) -> bool, x0: int, z0: int, d: int)
    requires 0 <= x0 < 1000 && 0 <= z0 < d
    requires PointsVisited(g, passable, x0, z0, d)
    ensures PointsVisited(Step(g, passable, x0, z0), passable, x0, z0 + 1, d)
    ensures Step(g, passable, x0, z0).points ==
      if passable(x0, z0) then g.points[GetId(x0, z0) := Vec3(x0 as real, 0.0, z0 as real)] else g.points
  {
    var r := Step(g, passable, x0, z0);
    if passable(x0, z0) {
      var id := GetId(x0, z0);
      forall i | i in r.points
        ensures var (x, z) := CellOf(i);
          Done(x, z, x0, z0 + 1, d) && passable(x, z) && i == GetId(x, z) &&
          r.points[i] == Vec3(x as real, 0.0, z as real)
      {
        if i != id {
          assert i in g.points;
        }
      }
    }
  }

  lemma StepVisited(g: Graph, passable: (int, int) -> bool, x0: int, z0: int, d: int)
    requires 0 <= x0 < 1000 && 0 <= z0 < d
    requires VisitedArePoints(g, passable, x0, z0, d)
    ensures VisitedArePoints(Step(g, passable, x0, z0), passable, x0, z0 + 1, d)
  {
    StepPointsGrow(g, passable, x0, z0);
  }

  lemma StepPointsGrow(g: Graph, passable: (int, int) -> bool, x0: int, z0: int)
    ensures g.points.Keys <= Step(g, passable, x0, z0).points.Keys
    ensures passable(x0, z0) ==> GetId(x0, z0) in Step(g, passable, x0, z0).points
    ensures g.edges <= Step(g, passable, x0, z0).edges
  {
  }

  lemma StepEdges(g: Graph, passable: (int, int) -> bool, x0: int, z0: int, d: int)
    requires 0 <= x0 < 1000 && 0 <= z0 < d
    requires EdgesVisited(g, passable, x0, z0, d)
    ensures EdgesVisited(Step(g, passable, x0, z0), passable, x0, z0 + 1, d)
  {
    var r := Step(g, passable, x0, z0);
    forall e | e in r.edges
      ensures var (x, z) := CellOf(e.0);
        Done(x, z, x0, z0 + 1, d) && passable(x, z) && e.0 == GetId(x, z) &&
        ((x > 0 && passable(x - 1, z) && e.1 == GetId(x - 1, z)) ||
         (z > 0 && passable(x, z - 1) && e.1 == GetId(x, z - 1)))
    {
      if e !in g.edges {
        assert CellOf(e.0) == (x0, z0);
      }
    }
  }

  lemma StepConnected(g: Graph, passable: (int, int) -> bool, x0: int, z0: int, d: int)
    requires 0 <= x0 < 1000 && 0 <= z0 < d
    requires VisitedArePoints(g, passable, x0, z0, d) && VisitedConnected(g, passable, x0, z0, d)
    ensures VisitedConnected(Step(g, passable, x0, z0), passable, x0, z0 + 1, d)
  {
    StepPointsGrow(g, passable, x0, z0);
    if passable(x0, z0) && x0 > 0 && passable(x0 - 1, z0) {
      assert Done(x0 - 1, z0, x0, z0, d);
    }
    if passable(x0, z0) && z0 > 0 && passable(x0, z0 - 1) {
      assert Done(x0, z0 - 1, x0, z0, d);
    }
  }

  lemma StepKeepsPartial(g: Graph, passable: (int, int) -> bool, x0: int, z0: int, d: int)
    requires 0 <= x0 < 1000 && 0 <= z0 < d
    requires Partial(g, passable, x0, z0, d)
    ensures Partial(Step(g, passable, x0, z0), passable, x0, z0 + 1, d)
  {
    StepPoints(g, passable, x0, z0, d);
    StepVisited(g, passable, x0, z0, d);
    StepEdges(g, passable, x0, z0, d);
    StepConnected(g, passable, x0, z0, d);
  }

  lemma {:induction false} BuildColumnPartial(g: Graph, passable: (int, int) -> bool, x0: int, z: nat, d: nat)
    requires 0 <= x0 < 1000 && z <= d
    requires Partial(g, passable, x0, 0, d)
    ensures Partial(BuildColumn(g, passable, x0, z), passable, x0, z, d)
  {
    if z > 0 {
      BuildColumnPartial(g, passable, x0, z - 1, d);
      StepKeepsPartial(BuildColumn(g, passable, x0, z - 1), passable, x0, z - 1, d);
    }
  }

  lemma {:induction false} BuildPartial(passable: (int, int) -> bool, x: nat, d: nat)
    requires x <= 1000
    ensures Partial(Build(EmptyGraph, passable, x, d), passable, x, 0, d)
  {
    if x > 0 {
      BuildPartial(passable, x - 1, d);
      var g := Build(EmptyGraph, passable, x - 1, d);
      BuildColumnPartial(g, passable, x - 1, d, d);
      var r := BuildColumn(g, passable, x - 1, d);
      assert forall i, k :: Done(i, k, x - 1, d, d) <==> Done(i, k, x, 0, d);
    }
  }

  /** After building a w-by-d map (w <= 1000) from an empty graph, tile (x, z) is a
      point, at position (x, 0, z), exactly when it is passable. */
  lemma PointsArePassableTiles(passable: (int, int) -> bool, w: nat, d: nat, x: int, z: int)
    requires w <= 1000 && 0 <= x < w && 0 <= z < d
    ensures GetId(x, z) in Build(EmptyGraph, passable, w, d).points <==> passable(x, z)
    ensures passable(x, z) ==>
      Build(EmptyGraph, passable, w, d).points[GetId(x, z)] == Vec3(x as real, 0.0, z as real)
  {
    BuildPartial(passable, w, d);
    var g := Build(EmptyGraph, passable, w, d);
    if GetId(x, z) in g.points {
      assert CellOf(GetId(x, z)) == (x, z);
    }
  }

  /** Every point id is the id of a passable tile inside the map. */
  lemma PointsInsideMap(passable: (int, int) -> bool, w: nat, d: nat, id: int)
    requires w <= 1000
    requires id in Build(EmptyGraph, passable, w, d).points
    ensures 0 <= CellOf(id).0 < w && 0 <= CellOf(id).1 < d
    ensures passable(CellOf(id).0, CellOf(id).1) && id == GetId(CellOf(id).0, CellOf(id).1)
  {
    BuildPartial(passable, w, d);
  }

  /** Every edge is an orthogonal unit step from a passable tile to its passable x-1
      or z-1 neighbour, and both ends are points (no diagonal edges). */
  lemma EdgesAreOrthogonalSteps(passable: (int, int) -> bool, w: nat, d: nat, a: int, b: int)
    requires w <= 1000
    requires (a, b) in Build(EmptyGraph, passable, w, d).edges
    ensures var (x, z) := CellOf(a);
      0 <= x < w && 0 <= z < d && passable(x, z) && a == GetId(x, z) &&
      ((x > 0 && passable(x - 1, z) && b == GetId(x - 1, z)) ||
       (z > 0 && passable(x, z - 1) && b == GetId(x, z - 1)))
    ensures a in Build(EmptyGraph, passable, w, d).points && b in Build(EmptyGraph, passable, w, d).points
  {
    BuildPartial(passable, w, d);
    var g := Build(EmptyGraph, passable, w, d);
    var (x, z) := CellOf(a);
    if x > 0 && passable(x - 1, z) && b == GetId(x - 1, z) {
      assert Done(x - 1, z, w, 0, d);
    } else {
      assert Done(x, z - 1, w, 0, d);
    }
  }

  /** Every pair of orthogonally adjacent passable tiles is connected. */
  lemma AdjacentPassableConnected(passable: (int, int) -> bool, w: nat, d: nat, x: int, z: int)
    requires w <= 1000 && 0 <= x < w && 0 <= z < d && passable(x, z)
    ensures x > 0 && passable(x - 1, z) ==> (GetId(x, z), GetId(x - 1, z)) in Build(EmptyGraph, passable, w, d).edges
    ensures z > 0 && passable(x, z - 1) ==> (GetId(x, z), GetId(x, z - 1)) in Build(EmptyGraph, passable, w, d).edges
  {
    BuildPartial(passable, w, d);
  }

  /** An impassable tile has no point and no incident edge. */
  lemma ImpassableIsolated(passable: (int, int) -> bool, w: nat, d: nat, x: int, z: int)
    requires w <= 1000 && 0 <= x < w && 0 <= z < d && !passable(x, z)
    ensures GetId(x, z) !in Build(EmptyGraph, passable, w, d).points
    ensures forall e :: e in Build(EmptyGraph, passable, w, d).edges ==> e.0 != GetId(x, z) && e.1 != GetId(x, z)
  {
    PointsArePassableTiles(passable, w, d, x, z);
    var g := Build(EmptyGraph, passable, w, d);
    forall e | e in g.edges
      ensures e.0 != GetId(x, z) && e.1 != GetId(x, z)
    {
      EdgesAreOrthogonalSteps(passable, w, d, e.0, e.1);
    }
  }

  /** `FindPath`: the ids of start and end (their Y ignored) are handed to the search,
      and each returned point is cast to integers by truncation. */
  function FindPath(g: Graph, start: Vec3I, end: Vec3I,
                    getPointPath: (Graph, int, int) -> seq<Vec3>): (path: seq<Vec3I>)
    ensures var found := getPointPath(g, GetId(start.x, start.z), GetId(end.x, end.z));
      |path| == |found| &&
      forall i :: 0 <= i < |path| ==>
        path[i] == Vec3I(Truncate(found[i].x), Truncate(found[i].y), Truncate(found[i].z))
  {
    var found := getPointPath(g, GetId(start.x, start.z), GetId(end.x, end.z));
    seq(|found|, i requires 0 <= i < |found| =>
      Vec3I(Truncate(found[i].x), Truncate(found[i].y), Truncate(found[i].z)))
  }

  /** The Y coordinates of start and end do not influence the path. */
  lemma FindPathIgnoresY(g: Graph, start: Vec3I, end: Vec3I, y1: int, y2: int,
                         getPointPath: (Graph, int, int) -> seq<Vec3>)
    ensures FindPath(g, start, end, getPointPath) ==
      FindPath(g, start.(y := y1), end.(y := y2), getPointPath)
  {
  }

  /** Points placed by `Initialize` sit at whole coordinates, so a path through them
      comes back as exactly those grid cells. */
  lemma FindPathOfGridPoints(g: Graph, start: Vec3I, end: Vec3I,
                             getPointPath: (Graph, int, int) -> seq<Vec3>, cells: seq<(int, int)>)
    requires var found := getPointPath(g, GetId(start.x, start.z), GetId(end.x, end.z));
      |found| == |cells| &&
      forall i :: 0 <= i < |cells| ==> found[i] == Vec3(cells[i].0 as real, 0.0, cells[i].1 as real)
    ensures |FindPath(g, start, end, getPointPath)| == |cells|
    ensures forall i :: 0 <= i < |cells| ==>
      FindPath(g, start, end, getPointPath)[i] == Vec3I(cells[i].0, 0, cells[i].1)
  {
    var found := getPointPath(g, GetId(start.x, start.z), GetId(end.x, end.z));
    forall i | 0 <= i < |cells|
      ensures FindPath(g, start, end, getPointPath)[i] == Vec3I(cells[i].0, 0, cells[i].1)
    {
      TruncateOfInteger(cells[i].0);
      TruncateOfInteger(cells[i].1);
      TruncateOfInteger(0);
    }
  }

  /** The static class: its one `AStar3D` object. */
  class Pathfinder3D {
    var Astar: Graph

    constructor ()
      ensures Astar == EmptyGraph
    {
      Astar := EmptyGraph;
    }

    /** Adds the passable tiles of layer y = 0 and their connections to the graph;
        every cell must hold a tile (a null cell faults in the source). `passable`
        names the tiles' `IsPassable` flags as they are when the call starts. */
    method Initialize(map3: array3<CostTile.Tile?>, ghost passable: (int, int) -> bool)
      requires map3.Length1 > 0 || map3.Length0 == 0 || map3.Length2 == 0
      requires forall x, z :: 0 <= x < map3.Length0 && 0 <= z < map3.Length2 ==>
        map3[x, 0, z] != null && map3[x, 0, z].IsPassable == passable(x, z)
      modifies this
      ensures Astar == Build(old(Astar), passable, map3.Length0, map3.Length2)
    {
      var x := 0;
      while x < map3.Length0
        invariant 0 <= x <= map3.Length0
        invariant Astar == Build(old(Astar), passable, x, map3.Length2)
      {
        var z := 0;
        while z < map3.Length2
          invariant 0 <= z <= map3.Length2
          invariant Astar == BuildColumn(Build(old(Astar), passable, x, map3.Length2), passable, x, z)
        {
          if map3[x, 0, z].IsPassable {
            var id := GetId(x, z);
            Astar := Astar.(points := Astar.points[id := Vec3(x as real, 0.0, z as real)]);
            if x > 0 && map3[x - 1, 0, z].IsPassable {
              ConnectPoints(id, GetId(x - 1, z));
            }
            if z > 0 && map3[x, 0, z - 1].IsPassable {
              ConnectPoints(id, GetId(x, z - 1));
            }
          }
          z := z + 1;
        }
        x := x + 1;
      }
    }

    method ConnectPoints(a: int, b: int)
      modifies this
      ensures Astar == Connect(old(Astar), a, b)
    {
      if a in Astar.points && b in Astar.points {
        Astar := Astar.(edges := Astar.edges + {(a, b)});
      }
    }
  }
}
