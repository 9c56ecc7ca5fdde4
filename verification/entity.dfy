/** `Entity` of Characters/CharacterScripts/EntityModularNodesScripts/Entity.cs: a
    map entity with an exported name and type, which it normalises on
    initialisation. Raised events are recorded instead of run. */
module Entity {
  import opened Common
  import opened CharacterBody

  /** EntityEnum.cs. */
  datatype EntitiesTypes = NotDefined | Ally | Neutral | Enemy

  /** The exception `Interact` throws. */
  datatype InteractError = ArgumentNull

  const UnnamedEntity: string := "Unnamed Entity"

  /** The name `Initialize` leaves; `None` is a null string. */
  function NormalizedName(name: Option<string>): (r: string)
    ensures r != []
    ensures name.Some? && name.value != [] ==> r == name.value
    ensures name.None? || name.value == [] ==> r == UnnamedEntity
  {
    if name.None? || name.value == [] then UnnamedEntity else name.value
  }

  /** The type `CheckType` leaves. */
  function CheckedType(t: EntitiesTypes): (r: EntitiesTypes)
    ensures r != NotDefined
    ensures t != NotDefined ==> r == t
    ensures t == NotDefined ==> r == Neutral
  {
    if t == NotDefined then Neutral else t
  }

  /** Normalising twice is normalising once: a second `Initialize` changes neither
      the name nor the type. */
  lemma NormalizationIdempotent(name: Option<string>, t: EntitiesTypes)
    ensures NormalizedName(Some(NormalizedName(name))) == NormalizedName(name)
    ensures CheckedType(CheckedType(t)) == CheckedType(t)
  {
  }

  class Entity {
    var EntityName: Option<string>
    var Type: EntitiesTypes
    /** The characters `OnInteracted` has been raised with, in order. */
    var Interactions: seq<Character>
    /** How many times `OnInitialized` has been raised. */
    var InitializedEvents: nat

    constructor (entityName: Option<string>, entityType: EntitiesTypes)
      ensures EntityName == entityName && Type == entityType
      ensures Interactions == [] && InitializedEvents == 0
    {
      EntityName := entityName;
      Type := entityType;
      Interactions := [];
      InitializedEvents := 0;
    }

    /** A null character is refused with `ArgumentNullException` before the event is
        raised; any other character is passed to the event. */
    method Interact(character: Character?) returns (error: Option<InteractError>)
      modifies this`Interactions
      ensures character == null ==> error == Some(ArgumentNull) && Interactions == old(Interactions)
      ensures character != null ==> error == None && Interactions == old(Interactions) + [character]
    {
      if character == null {
        return Some(ArgumentNull);
      }
      Interactions := Interactions + [character];
      error := None;
    }

    method Initialize()
      modifies this`EntityName, this`Type, this`InitializedEvents
      ensures EntityName == Some(NormalizedName(old(EntityName)))
      ensures EntityName.Some? && EntityName.value != []
      ensures old(EntityName).Some? && old(EntityName).value != [] ==> EntityName == old(EntityName)
      ensures Type == CheckedType(old(Type)) && Type != NotDefined
      ensures InitializedEvents == old(InitializedEvents) + 1
    {
      if EntityName.None? || EntityName.value == [] {
        EntityName := Some(UnnamedEntity);
      }
      CheckType();
      InitializedEvents := InitializedEvents + 1;
    }

    method CheckType()
      modifies this`Type
      ensures Type == CheckedType(old(Type))
    {
      if Type == NotDefined {
        Type := Neutral;
      }
    }
  }
}
