/** What the placement scripts (BuildingIni, Objects and the two Entities revisions)
    have in common: each walks its children in order and puts every child of the right
    node class whose grid cell lies inside the map onto that cell. Buildings and
    objects refuse a cell that is already taken, so the first one to land on a free
    cell keeps it; entities overwrite, so the last one to land on a cell keeps it. */
module Placement {
  import opened Common
  import opened Scene

  predicate InMap(x: int, z: int, w: int, h: int) {
    0 <= x < w && 0 <= z < h
  }

  /** The class test of the loop: `MeshInstance3D` for Objects, `Node3D` (which
      includes `MeshInstance3D`) for the others. */
  predicate Accepts(meshOnly: bool, n: SceneNode) {
    if meshOnly then n.Kind == MeshInstance3D else n.IsNode3D()
  }

  /** The child passes the class test and its cell is (x, z), inside the map. */
  predicate LandsAt(c: Child, meshOnly: bool, x: int, z: int, w: int, h: int) {
    Accepts(meshOnly, c.node) && c.gridX == x && c.gridZ == z && InMap(x, z, w, h)
  }

  /** The child passes the class test and its own cell is inside the map. */
  predicate Lands(c: Child, meshOnly: bool, w: int, h: int) {
    LandsAt(c, meshOnly, c.gridX, c.gridZ, w, h)
  }

  /** Every child that lands inside the map also lands inside the array (the
      scripts index the array with a cell they have just checked against
      `MapWidth` x `MapHeight`). */
  predicate LandingCellsExist(length0: int, length1: int, children: seq<Child>, meshOnly: bool, w: int, h: int) {
    forall i :: 0 <= i < |children| && Lands(children[i], meshOnly, w, h) ==>
      children[i].gridX < length0 && children[i].gridZ < length1
  }

  /** The first child of `cs` that lands on (x, z). */
  function FirstAt(cs: seq<Child>, meshOnly: bool, x: int, z: int, w: int, h: int): Option<SceneNode>
    decreases |cs|
  {
    if cs == [] then None
    else
      var first := FirstAt(cs[..|cs| - 1], meshOnly, x, z, w, h);
      if first.Some? then first
      else if LandsAt(cs[|cs| - 1], meshOnly, x, z, w, h) then Some(cs[|cs| - 1].node)
      else None
  }

  /** The last child of `cs` that lands on (x, z). */
  function LastAt(cs: seq<Child>, meshOnly: bool, x: int, z: int, w: int, h: int): Option<SceneNode>
    decreases |cs|
  {
    if cs == [] then None
    else if LandsAt(cs[|cs| - 1], meshOnly, x, z, w, h) then Some(cs[|cs| - 1].node)
    else LastAt(cs[..|cs| - 1], meshOnly, x, z, w, h)
  }

  /** The occupant a refusing script leaves on a cell: the one already there, or else
      the first child to land on it. */
  function Settled(before: SceneNode?, first: Option<SceneNode>): SceneNode? {
    if before != null then before else if first.Some? then first.value else null
  }

  /** What a refusing script does to one child: a kept child moves to its cell's
      centre at height 0; any other child that passes the class test is freed where
      it stands; the rest are left alone. */
  ghost predicate KeptOrFreed(c: Child, meshOnly: bool, kept: bool, position: Vec3, freed: bool, converter: real)
    reads c.node
  {
    if !Accepts(meshOnly, c.node) then c.node.Position == position && c.node.Freed == freed
    else if kept then c.node.Position == CellToWorld(c.gridX, c.gridZ, converter, 0.0) && c.node.Freed == freed
    else c.node.Position == position && c.node.Freed
  }

  /** One more child: FirstAt keeps its answer, or else takes the newcomer if it lands. */
  lemma FirstAtSnoc(cs: seq<Child>, c: Child, meshOnly: bool, x: int, z: int, w: int, h: int)
    ensures FirstAt(cs + [c], meshOnly, x, z, w, h) ==
      if FirstAt(cs, meshOnly, x, z, w, h).Some? then FirstAt(cs, meshOnly, x, z, w, h)
      else if LandsAt(c, meshOnly, x, z, w, h) then Some(c.node)
      else None
  {
    assert (cs + [c])[..|cs + [c]| - 1] == cs;
  }

  /** What an overwriting script does to one child: a landing child moves to
      `target`, any other child stays at `position`. Nothing is freed. */
  ghost predicate MovedIfLanded(c: Child, w: int, h: int, position: Vec3, target: Vec3)
    reads c.node
  {
    c.node.Position == if Lands(c, false, w, h) then target else position
  }

  /** FirstAt finds a landing child exactly when there is one, and what it finds is
      the earliest one. */
  lemma {:induction false} FirstAtIsFirst(cs: seq<Child>, meshOnly: bool, x: int, z: int, w: int, h: int)
    ensures FirstAt(cs, meshOnly, x, z, w, h).None? <==>
      forall i :: 0 <= i < |cs| ==> !LandsAt(cs[i], meshOnly, x, z, w, h)
    ensures FirstAt(cs, meshOnly, x, z, w, h).Some? ==>
      exists i :: 0 <= i < |cs| && LandsAt(cs[i], meshOnly, x, z, w, h) &&
        cs[i].node == FirstAt(cs, meshOnly, x, z, w, h).value &&
        forall j :: 0 <= j < i ==> !LandsAt(cs[j], meshOnly, x, z, w, h)
    decreases |cs|
  {
    if cs != [] {
      var prefix := cs[..|cs| - 1];
      FirstAtIsFirst(prefix, meshOnly, x, z, w, h);
      assert forall i :: 0 <= i < |prefix| ==> prefix[i] == cs[i];
      if FirstAt(prefix, meshOnly, x, z, w, h).Some? {
        var i :| 0 <= i < |prefix| && LandsAt(prefix[i], meshOnly, x, z, w, h) &&
          prefix[i].node == FirstAt(prefix, meshOnly, x, z, w, h).value &&
          forall j :: 0 <= j < i ==> !LandsAt(prefix[j], meshOnly, x, z, w, h);
        assert cs[i] == prefix[i];
      } else if LandsAt(cs[|cs| - 1], meshOnly, x, z, w, h) {
        assert cs[|cs| - 1].node == FirstAt(cs, meshOnly, x, z, w, h).value;
      }
    }
  }

  /** First wins: once a child has landed on (x, z), later children do not change
      who holds it. */
  lemma {:induction false} FirstAtStable(cs: seq<Child>, more: seq<Child>, meshOnly: bool,
                                          x: int, z: int, w: int, h: int)
    requires FirstAt(cs, meshOnly, x, z, w, h).Some?
    ensures FirstAt(cs + more, meshOnly, x, z, w, h) == FirstAt(cs, meshOnly, x, z, w, h)
    decreases |more|
  {
    if more != [] {
      var shorter := more[..|more| - 1];
      assert (cs + more)[..|cs + more| - 1] == cs + shorter;
      FirstAtStable(cs, shorter, meshOnly, x, z, w, h);
    } else {
      assert cs + more == cs;
    }
  }

  /** LastAt finds a landing child exactly when there is one, and what it finds is
      the latest one. */
  lemma {:induction false} LastAtIsLast(cs: seq<Child>, meshOnly: bool, x: int, z: int, w: int, h: int)
    ensures LastAt(cs, meshOnly, x, z, w, h).None? <==>
      forall i :: 0 <= i < |cs| ==> !LandsAt(cs[i], meshOnly, x, z, w, h)
    ensures LastAt(cs, meshOnly, x, z, w, h).Some? ==>
      exists i :: 0 <= i < |cs| && LandsAt(cs[i], meshOnly, x, z, w, h) &&
        cs[i].node == LastAt(cs, meshOnly, x, z, w, h).value &&
        forall j :: i < j < |cs| ==> !LandsAt(cs[j], meshOnly, x, z, w, h)
    decreases |cs|
  {
    if cs != [] {
      var prefix := cs[..|cs| - 1];
      LastAtIsLast(prefix, meshOnly, x, z, w, h);
      assert forall i :: 0 <= i < |prefix| ==> prefix[i] == cs[i];
      if !LandsAt(cs[|cs| - 1], meshOnly, x, z, w, h) && LastAt(prefix, meshOnly, x, z, w, h).Some? {
        var i :| 0 <= i < |prefix| && LandsAt(prefix[i], meshOnly, x, z, w, h) &&
          prefix[i].node == LastAt(prefix, meshOnly, x, z, w, h).value &&
          forall j :: i < j < |prefix| ==> !LandsAt(prefix[j], meshOnly, x, z, w, h);
        assert cs[i] == prefix[i];
      }
    }
  }

  /** Last wins: a child that lands on (x, z) takes it whatever came before. */
  lemma LastAtTakesOver(cs: seq<Child>, c: Child, meshOnly: bool, x: int, z: int, w: int, h: int)
    requires LandsAt(c, meshOnly, x, z, w, h)
    ensures LastAt(cs + [c], meshOnly, x, z, w, h) == Some(c.node)
  {
    assert (cs + [c])[|cs + [c]| - 1] == c;
  }

  /** A child that lands nowhere never shows up as any cell's first or last one. */
  lemma {:induction false} UnplacedNeverFound(cs: seq<Child>, meshOnly: bool, x: int, z: int, w: int, h: int,
                                              n: SceneNode)
    requires forall i :: 0 <= i < |cs| && cs[i].node == n ==> !LandsAt(cs[i], meshOnly, x, z, w, h)
    ensures FirstAt(cs, meshOnly, x, z, w, h) != Some(n)
    ensures LastAt(cs, meshOnly, x, z, w, h) != Some(n)
  {
    FirstAtIsFirst(cs, meshOnly, x, z, w, h);
    LastAtIsLast(cs, meshOnly, x, z, w, h);
  }

  /** A landing child is the first lander of its cell over the whole list exactly
      when no child before it landed there: the order-independent way to say which
      child a refusing script keeps. */
  lemma FirstLanderKept(cs: seq<Child>, j: int, meshOnly: bool, w: int, h: int)
    requires DistinctNodes(cs) && 0 <= j < |cs| && Lands(cs[j], meshOnly, w, h)
    ensures FirstAt(cs[..j], meshOnly, cs[j].gridX, cs[j].gridZ, w, h).None? <==>
      FirstAt(cs, meshOnly, cs[j].gridX, cs[j].gridZ, w, h) == Some(cs[j].node)
  {
    var x, z := cs[j].gridX, cs[j].gridZ;
    assert cs[..j + 1] == cs[..j] + [cs[j]];
    assert cs[..j + 1] + cs[j + 1..] == cs;
    FirstAtSnoc(cs[..j], cs[j], meshOnly, x, z, w, h);
    var before := FirstAt(cs[..j], meshOnly, x, z, w, h);
    if before.Some? {
      FirstAtIsFirst(cs[..j], meshOnly, x, z, w, h);
      var k :| 0 <= k < j && LandsAt(cs[..j][k], meshOnly, x, z, w, h) && cs[..j][k].node == before.value &&
        forall i :: 0 <= i < k ==> !LandsAt(cs[..j][i], meshOnly, x, z, w, h);
      assert cs[k].node != cs[j].node;
    }
    FirstAtStable(cs[..j + 1], cs[j + 1..], meshOnly, x, z, w, h);
  }

  /** The `Node3D` children that implement the entity-initialisation interface, in
      child order: the nodes whose `Initialize()` the Entities loop calls. */
  function InteractableNodes(cs: seq<Child>): seq<SceneNode>
    decreases |cs|
  {
    if cs == [] then []
    else
      var last := cs[|cs| - 1];
      InteractableNodes(cs[..|cs| - 1]) + if last.node.IsNode3D() && last.node.IsInteractable then [last.node] else []
  }

  /** A node is initialised exactly when it is an interactable `Node3D` child, and
      never more than once. */
  lemma {:induction false} InteractableNodesExact(cs: seq<Child>)
    requires DistinctNodes(cs)
    ensures forall n :: n in InteractableNodes(cs) ==>
      exists i :: 0 <= i < |cs| && cs[i].node == n && n.IsNode3D() && n.IsInteractable
    ensures forall i :: 0 <= i < |cs| && cs[i].node.IsNode3D() && cs[i].node.IsInteractable ==>
      cs[i].node in InteractableNodes(cs)
    ensures forall a, b :: 0 <= a < b < |InteractableNodes(cs)| ==> InteractableNodes(cs)[a] != InteractableNodes(cs)[b]
    decreases |cs|
  {
    if cs != [] {
      var prefix := cs[..|cs| - 1];
      var last := cs[|cs| - 1];
      assert forall i :: 0 <= i < |prefix| ==> prefix[i] == cs[i];
      InteractableNodesExact(prefix);
      forall n | n in InteractableNodes(cs)
        ensures exists i :: 0 <= i < |cs| && cs[i].node == n && n.IsNode3D() && n.IsInteractable
      {
        if n in InteractableNodes(prefix) {
          var i :| 0 <= i < |prefix| && prefix[i].node == n && n.IsNode3D() && n.IsInteractable;
          assert cs[i].node == n;
        } else {
          assert cs[|cs| - 1].node == n;
        }
      }
    }
  }
}
