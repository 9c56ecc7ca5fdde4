/** The player character as the core sees it (a `CharacterBody3D`; the hero scripts
    add an inventory, a grid position and a movement budget through
    `ICharacterTemplate`). `Position` stands for both `Position` and
    `GlobalPosition`: the transform of the character's parent is not modelled. */
module CharacterBody {
  import opened Common
  import opened Inventory

  class Character {
    /** The node implements `ICharacterTemplate`. */
    const IsCharacterTemplate: bool
    var Inventory: Inventory?
    var GridPosition: Vec3I
    var Position: Vec3
    /** How many path points the character may still walk this turn. */
    var RemainingMovement: int

    constructor (isCharacterTemplate: bool, inventory: Inventory?, gridPosition: Vec3I,
                 position: Vec3, remainingMovement: int)
      ensures IsCharacterTemplate == isCharacterTemplate && Inventory == inventory
      ensures GridPosition == gridPosition && Position == position
      ensures RemainingMovement == remainingMovement
    {
      IsCharacterTemplate := isCharacterTemplate;
      Inventory := inventory;
      GridPosition := gridPosition;
      Position := position;
      RemainingMovement := remainingMovement;
    }
  }
}
