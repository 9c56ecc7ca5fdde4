/** `ObjectModel` of 3DScenes/ScenesScripts/ScenesHelper/ObjectsScripts/ObjectModel.cs
    over the item registry of 3DScenes/ScenesScripts/ObjectsScripts/ItemRegister.cs:
    a map object that is linked, by its type and sub-type, to a registry item, and
    hands that item to the character who picks it up. */
module ObjectModel {
  import opened Common
  import opened Inventory
  import opened CharacterBody

  /** The enums of 3DScenes/ScenesScripts/ObjectsScripts/ObjectTypes.cs. */
  datatype ObjectType = NotDefined | Artifact | Resource
  datatype ArtifactType = NotDefined | BootsOfSpeed | SecondArtifact
  datatype ResourceType = NotDefined | Gold | Wood

  /** A registry key: a boxed enum value keeps its enum type, so an artifact key
      never equals a resource key. */
  datatype Key = ArtifactKey(artifact: ArtifactType) | ResourceKey(resource: ResourceType)

  /** `GetKey`'s outcome: a key or the `ArgumentOutOfRangeException` it throws. */
  datatype KeyResult = Found(key: Key) | OutOfRange

  const ArtifactLookup: map<ArtifactType, RegistryItem> :=
    map[ArtifactType.BootsOfSpeed := BootsOfSpeedItem, ArtifactType.SecondArtifact := SecondArtifactItem]

  const ResourceLookup: map<ResourceType, RegistryItem> :=
    map[ResourceType.Gold := ResourceGoldItem]

  /** Each sub-table re-keyed by boxed keys (`ToDictionary`), written out; lemma
      TypeLookupRekeys shows it holds the same entries. */
  const TypeLookup: map<ObjectType, map<Key, RegistryItem>> :=
    map[ObjectType.Artifact := map[ArtifactKey(ArtifactType.BootsOfSpeed) := BootsOfSpeedItem,
                                   ArtifactKey(ArtifactType.SecondArtifact) := SecondArtifactItem],
        ObjectType.Resource := map[ResourceKey(ResourceType.Gold) := ResourceGoldItem]]

  /** The boxed tables hold exactly the entries of the typed ones. */
  lemma TypeLookupRekeys(k: Key)
    ensures TypeLookup.Keys == {ObjectType.Artifact, ObjectType.Resource}
    ensures k in TypeLookup[ObjectType.Artifact] <==> k.ArtifactKey? && k.artifact in ArtifactLookup
    ensures k in TypeLookup[ObjectType.Artifact] ==> TypeLookup[ObjectType.Artifact][k] == ArtifactLookup[k.artifact]
    ensures k in TypeLookup[ObjectType.Resource] <==> k.ResourceKey? && k.resource in ResourceLookup
    ensures k in TypeLookup[ObjectType.Resource] ==> TypeLookup[ObjectType.Resource][k] == ResourceLookup[k.resource]
  {
  }

  /** `GetKey`: the sub-type that matches the object type; it fails exactly for the
      types that have no sub-table in the registry. */
  function GetKey(t: ObjectType, artifact: ArtifactType, resource: ResourceType): (r: KeyResult)
    ensures r.Found? <==> t in TypeLookup
    ensures r.Found? ==> (r.key.ArtifactKey? <==> t == ObjectType.Artifact)
    ensures r.Found? && r.key.ArtifactKey? ==> r.key.artifact == artifact
    ensures r.Found? && r.key.ResourceKey? ==> r.key.resource == resource
  {
    match t
    case Artifact => Found(ArtifactKey(artifact))
    case Resource => Found(ResourceKey(resource))
    case NotDefined => OutOfRange
  }

  /** The item `GetLinkedItem` finds: `TypeLookup.TryGetValue(Type, ...) &&
      lookup.TryGetValue(GetKey(), ...)`. The first test failing skips `GetKey`. */
  function LinkedItemFor(t: ObjectType, artifact: ArtifactType, resource: ResourceType): Option<RegistryItem> {
    if t !in TypeLookup then None
    else match GetKey(t, artifact, resource)
      case OutOfRange => None
      case Found(key) => if key in TypeLookup[t] then Some(TypeLookup[t][key]) else None
  }

  /** The lookups reach `GetKey` only for types it accepts, so its exception can
      never escape `GetLinkedItem`. */
  lemma GetKeyNeverThrowsFromLookup(t: ObjectType, artifact: ArtifactType, resource: ResourceType)
    requires t in TypeLookup
    ensures GetKey(t, artifact, resource).Found?
  {
  }

  /** With the registry as written: the two artifacts and gold resolve to their
      items, and every other combination (an undefined type or sub-type, wood)
      resolves to nothing. */
  lemma {:induction false} RegistryResolution(t: ObjectType, artifact: ArtifactType, resource: ResourceType)
    ensures LinkedItemFor(t, artifact, resource) == Some(BootsOfSpeedItem) <==>
      t == ObjectType.Artifact && artifact == ArtifactType.BootsOfSpeed
    ensures LinkedItemFor(t, artifact, resource) == Some(SecondArtifactItem) <==>
      t == ObjectType.Artifact && artifact == ArtifactType.SecondArtifact
    ensures LinkedItemFor(t, artifact, resource) == Some(ResourceGoldItem) <==>
      t == ObjectType.Resource && resource == ResourceType.Gold
    ensures LinkedItemFor(t, artifact, resource).None? <==>
      t == ObjectType.NotDefined ||
      (t == ObjectType.Artifact && artifact == ArtifactType.NotDefined) ||
      (t == ObjectType.Resource && resource != ResourceType.Gold)
  {
    var artifacts := TypeLookup[ObjectType.Artifact];
    var resources := TypeLookup[ObjectType.Resource];
    assert ArtifactKey(ArtifactType.NotDefined) !in artifacts;
    assert artifacts[ArtifactKey(ArtifactType.BootsOfSpeed)] == BootsOfSpeedItem;
    assert artifacts[ArtifactKey(ArtifactType.SecondArtifact)] == SecondArtifactItem;
    assert ResourceKey(ResourceType.NotDefined) !in resources;
    assert ResourceKey(ResourceType.Wood) !in resources;
    assert resources[ResourceKey(ResourceType.Gold)] == ResourceGoldItem;
  }

  function ObjectTypeName(t: ObjectType): string {
    match t
    case NotDefined => "NotDefined"
    case Artifact => "Artifact"
    case Resource => "Resource"
  }

  function ArtifactName(a: ArtifactType): string {
    match a
    case NotDefined => "NotDefined"
    case BootsOfSpeed => "BootsOfSpeed"
    case SecondArtifact => "SecondArtifact"
  }

  function ResourceName(r: ResourceType): string {
    match r
    case NotDefined => "NotDefined"
    case Gold => "Gold"
    case Wood => "Wood"
  }

  const DescriptionLabel: string := "Type of the item is "

  /** `ToString`: the type and the sub-type that goes with it; an undefined type
      falls back to the node's own text `baseText`. */
  function Description(t: ObjectType, artifact: ArtifactType, resource: ResourceType, baseText: string): (r: string)
    ensures t == ObjectType.NotDefined ==> r == baseText
    ensures t != ObjectType.NotDefined ==> DescriptionLabel <= r
    ensures t == ObjectType.Artifact ==>
      |ArtifactName(artifact)| <= |r| && r[|r| - |ArtifactName(artifact)|..] == ArtifactName(artifact)
    ensures t == ObjectType.Resource ==>
      |ResourceName(resource)| <= |r| && r[|r| - |ResourceName(resource)|..] == ResourceName(resource)
  {
    match t
    case Artifact => DescriptionLabel + ObjectTypeName(t) + ". It's name " + ArtifactName(artifact)
    case Resource => DescriptionLabel + ObjectTypeName(t) + ". It's name " + ResourceName(resource)
    case NotDefined => baseText
  }

  /** The text names the sub-type that matters and ignores the other one: two
      artifacts (or two resources) are told apart by their text exactly when their
      sub-types differ. */
  lemma {:induction false} DescriptionNamesSubtype(t: ObjectType, a1: ArtifactType, a2: ArtifactType,
                                                   r1: ResourceType, r2: ResourceType, baseText: string)
    requires t != ObjectType.NotDefined
    ensures t == ObjectType.Artifact ==>
      (Description(t, a1, r1, baseText) == Description(t, a2, r2, baseText) <==> a1 == a2)
    ensures t == ObjectType.Resource ==>
      (Description(t, a1, r1, baseText) == Description(t, a2, r2, baseText) <==> r1 == r2)
  {
    var prefix := DescriptionLabel + ObjectTypeName(t) + ". It's name ";
    if t == ObjectType.Artifact {
      assert Description(t, a1, r1, baseText) == prefix + ArtifactName(a1);
      assert Description(t, a2, r2, baseText) == prefix + ArtifactName(a2);
      assert (prefix + ArtifactName(a1))[|prefix|..] == ArtifactName(a1);
      assert (prefix + ArtifactName(a2))[|prefix|..] == ArtifactName(a2);
    } else {
      assert Description(t, a1, r1, baseText) == prefix + ResourceName(r1);
      assert Description(t, a2, r2, baseText) == prefix + ResourceName(r2);
      assert (prefix + ResourceName(r1))[|prefix|..] == ResourceName(r1);
      assert (prefix + ResourceName(r2))[|prefix|..] == ResourceName(r2);
    }
  }

  class ObjectModel {
    var Type: ObjectType
    var Artifact: ArtifactType
    var Resource: ResourceType
    var LinkedItem: Option<Item>
    /** `QueueFree()` was called on the object. */
    var Freed: bool

    constructor (t: ObjectType, artifact: ArtifactType, resource: ResourceType)
      ensures Type == t && Artifact == artifact && Resource == resource
      ensures LinkedItem == None && !Freed
    {
      Type, Artifact, Resource := t, artifact, resource;
      LinkedItem := None;
      Freed := false;
    }

    /** `_Ready` links the registry item. */
    method Ready()
      modifies this`LinkedItem
      ensures LinkedItemFor(Type, Artifact, Resource).Some? ==>
        LinkedItem == Some(Registered(LinkedItemFor(Type, Artifact, Resource).value))
      ensures LinkedItemFor(Type, Artifact, Resource).None? ==> LinkedItem == old(LinkedItem)
    {
      GetLinkedItem();
    }

    /** Sets `LinkedItem` only when both lookups succeed. */
    method GetLinkedItem()
      modifies this`LinkedItem
      ensures LinkedItemFor(Type, Artifact, Resource).Some? ==>
        LinkedItem == Some(Registered(LinkedItemFor(Type, Artifact, Resource).value))
      ensures LinkedItemFor(Type, Artifact, Resource).None? ==> LinkedItem == old(LinkedItem)
    {
      if Type in TypeLookup {
        GetKeyNeverThrowsFromLookup(Type, Artifact, Resource);
        var key := GetKey(Type, Artifact, Resource).key;
        if key in TypeLookup[Type] {
          LinkedItem := Some(Registered(TypeLookup[Type][key]));
        }
      }
    }

    /** The linked item goes into the character's inventory, and the object is
        freed, only for a character template while an item is linked. Such a
        character's inventory is read without a null check, so it must exist. */
    method OnPickUp(character: Character?)
      requires character != null && character.IsCharacterTemplate && LinkedItem.Some? ==>
        character.Inventory != null
      modifies this`Freed
      modifies if character != null && character.IsCharacterTemplate && LinkedItem.Some?
               then {character.Inventory} else {}
      ensures character != null && character.IsCharacterTemplate && LinkedItem.Some? ==>
        character.Inventory.Items == old(character.Inventory.Items) + [LinkedItem.value] && Freed
      ensures !(character != null && character.IsCharacterTemplate && LinkedItem.Some?) ==>
        Freed == old(Freed)
    {
      if character != null && character.IsCharacterTemplate && LinkedItem.Some? {
        character.Inventory.AddItem(LinkedItem.value);
        Freed := true;
      }
    }
  }
}
