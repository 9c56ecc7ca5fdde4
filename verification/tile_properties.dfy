/** The terrain tables of 3DScenes/ScenesScripts/ScenesHelper/TileProperties.cs:
    type -> passability and type -> movement cost, each a dictionary read with
    `TryGetValue` and a default. */
module TileProperties {

  /** TileType; both revisions of the enum declare the same seven members. */
  datatype TileType = NotDefined | Grass | Water | Mountain | Forest | Town | Road

  const PassableLookup: map<TileType, bool> :=
    map[NotDefined := false, Grass := true, Water := false, Mountain := false,
        Forest := true, Town := true, Road := true]

  const MovementCostLookup: map<TileType, real> :=
    map[Road := 0.75, Grass := 1.0, Forest := 1.25, Town := 1.0]

  /** `TryGetValue(type, out passable) && passable`. */
  function LookupPassable(table: map<TileType, bool>, t: TileType): (r: bool)
    ensures r <==> t in table && table[t]
    ensures t !in table ==> !r
  {
    if t in table then table[t] else false
  }

  /** `TryGetValue(type, out cost) ? cost : 1.0f`. */
  function LookupCost(table: map<TileType, real>, t: TileType): (r: real)
    ensures t in table ==> r == table[t]
    ensures t !in table ==> r == 1.0
  {
    if t in table then table[t] else 1.0
  }

  /** Land that can be walked on: Grass, Forest, Town and Road. */
  function IsPassable(t: TileType): (r: bool)
    ensures r <==> (t == Grass || t == Forest || t == Town || t == Road)
    ensures t == NotDefined || t == Water || t == Mountain ==> !r
  {
    LookupPassable(PassableLookup, t)
  }

  function GetMovementCost(t: TileType): (r: real)
    ensures t == Road ==> r == 0.75
    ensures t == Grass || t == Town ==> r == 1.0
    ensures t == Forest ==> r == 1.25
    ensures t == NotDefined || t == Water || t == Mountain ==> r == 1.0
    ensures 0.75 <= r <= 1.25
  {
    LookupCost(MovementCostLookup, t)
  }

  /** The cost table lists exactly the passable types; the impassable ones fall back
      to the 1.0 default. */
  lemma CostTableCoversPassable(t: TileType)
    ensures t in MovementCostLookup <==> IsPassable(t)
  {
  }

  /** The passability table is total, so the missing-key default never fires for a
      declared type. */
  lemma PassableTableIsTotal(t: TileType)
    ensures t in PassableLookup
  {
  }
}
