/** `Inventory` of Characters/ScriptHelperCharacters/Inventory.cs: an unbounded list
    of items. */
module Inventory {
  import opened Scene
  import opened Lists

  /** The item objects of the item registry. The registry creates each of them once,
      so comparing them by kind is comparing them by reference. */
  datatype RegistryItem = BootsOfSpeedItem | SecondArtifactItem | ResourceGoldItem

  /** An `IItem`: either a scene node picked up from a tile or a registry item linked
      to a map object. Nodes are compared by reference. */
  datatype Item = NodeItem(node: SceneNode) | Registered(entry: RegistryItem)

  class Inventory {
    var Items: seq<Item>

    constructor ()
      ensures Items == []
    {
      Items := [];
    }

    method AddItem(item: Item)
      modifies this`Items
      ensures Items == old(Items) + [item]
    {
      Items := Items + [item];
    }

    method RemoveItem(item: Item)
      modifies this`Items
      ensures Items == RemoveFirst(old(Items), item)
      ensures item !in old(Items) ==> Items == old(Items)
      ensures item in old(Items) ==>
        Items == old(Items[..FirstIndex(Items, item)] + Items[FirstIndex(Items, item) + 1..])
    {
      if item in Items {
        RemoveFirstCutsFirstOccurrence(Items, item);
        Items := RemoveFirst(Items, item);
      } else {
        RemoveFirstAbsent(Items, item);
      }
    }

    /** `UseItem`: `pickUpCalled` says whether the item's `PickUp` was called. It is
        called, before the removal, exactly when the item is held. */
    method UseItem(item: Item) returns (pickUpCalled: bool)
      modifies this`Items
      ensures pickUpCalled <==> item in old(Items)
      ensures Items == RemoveFirst(old(Items), item)
      ensures !pickUpCalled ==> Items == old(Items)
      ensures multiset(Items) == multiset(old(Items)) - multiset{item}
    {
      RemoveFirstMultiset(Items, item);
      if item in Items {
        pickUpCalled := true;
        RemoveItem(item);
      } else {
        pickUpCalled := false;
        RemoveFirstAbsent(Items, item);
      }
    }
  }
}
