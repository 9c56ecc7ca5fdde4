/** The Godot scene nodes that the map scripts place on tiles. Only what the core
    reads or writes is kept: the node's class (fixed when it is created), its
    position, and whether `QueueFree` has been requested for it. */
module Scene {
  import opened Common

  /** The node class tests made by the placement loops: every child that is a
      `Node3D`, and among those the `MeshInstance3D`s. */
  datatype NodeKind = PlainNode | Node3D | MeshInstance3D

  class SceneNode {
    const Kind: NodeKind
    /** The node implements `IItem` (it can go into an inventory). */
    const IsItem: bool
    /** The node implements the entity-initialisation interface (`IInteractable`,
        `IInteractableEntity` in the two revisions). */
    const IsInteractable: bool
    var Position: Vec3
    /** `QueueFree()` was called: the node is discarded at the end of the frame. */
    var Freed: bool

    constructor (kind: NodeKind, isItem: bool, isInteractable: bool, position: Vec3)
      ensures Kind == kind && IsItem == isItem && IsInteractable == isInteractable
      ensures Position == position && !Freed
    {
      Kind, IsItem, IsInteractable := kind, isItem, isInteractable;
      Position, Freed := position, false;
    }

    predicate IsNode3D() {
      Kind == Node3D || Kind == MeshInstance3D
    }
  }

  /** A tile's `MeshInstance3D`; only its visibility is modelled. */
  class MeshInstance {
    var Visible: bool

    constructor ()
      ensures Visible
    {
      Visible := true;
    }
  }

  /** A child of a placement script, with the grid cell its position rounds to
      (`(int)Math.Round(Position / GridPositionConverter)` is taken as an input). */
  datatype Child = Child(node: SceneNode, gridX: int, gridZ: int)

  /** Godot never lists the same node twice among a parent's children. */
  predicate DistinctNodes(children: seq<Child>) {
    forall i, j :: 0 <= i < j < |children| ==> children[i].node != children[j].node
  }

  function Nodes(children: seq<Child>): set<SceneNode> {
    set i | 0 <= i < |children| :: children[i].node
  }
}
