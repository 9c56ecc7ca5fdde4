/** `TileMapHelper.MarkTilesAsNonPassable` of
    3DScenes/ScenesScripts/TileMapScripts/Helpers/TileMapHelper.cs: a decoration
    blocks the tiles under it. The static class becomes one object holding the
    static properties; the map is `Scenes.TileMap.Map`, passed in. The centre cell
    and the half-extents in cells are inputs (the float rounding that produces
    them is not modelled). */
module TileMapHelper {
  import opened Common
  import opened TileProperties
  import opened GameTile

  /** `Math.Max(0, center - half)`. */
  function MinBound(center: int, half: int): (r: int)
    ensures r >= 0 && r >= center - half
    ensures r == 0 || r == center - half
  {
    if center - half > 0 then center - half else 0
  }

  /** `Math.Min(size - 1, center + half)`. */
  function MaxBound(center: int, half: int, size: int): (r: int)
    ensures r <= size - 1 && r <= center + half
    ensures r == size - 1 || r == center + half
  {
    if center + half < size - 1 then center + half else size - 1
  }

  /** The passability a tile has after one marking pass: a tile inside an active
      rectangle whose type is passable becomes impassable, every other tile keeps
      its flag. */
  function Marked(before: bool, t: TileType, covered: bool): (after: bool)
    ensures covered && TileProperties.IsPassable(t) ==> !after
    ensures !(covered && TileProperties.IsPassable(t)) ==> after == before
    ensures after ==> before
  {
    if covered && TileProperties.IsPassable(t) then false else before
  }

  /** Marking twice with the same rectangle gives what marking once gives. */
  lemma MarkedIdempotent(before: bool, t: TileType, covered: bool)
    ensures Marked(Marked(before, t, covered), t, covered) == Marked(before, t, covered)
  {
  }

  class TileMapHelper {
    var MapWidth: int
    var MapHeight: int
    var GridPositionConverter: real

    /** (x, z) lies in the rectangle around (centerX, centerZ), clamped to the map. */
    predicate InRect(x: int, z: int, centerX: int, centerZ: int, halfX: int, halfZ: int)
      reads this
    {
      MinBound(centerX, halfX) <= x <= MaxBound(centerX, halfX, MapWidth) &&
      MinBound(centerZ, halfZ) <= z <= MaxBound(centerZ, halfZ, MapHeight)
    }

    /** The clamped rectangle never leaves [0, MapWidth) x [0, MapHeight). */
    lemma RectInsideMap(x: int, z: int, centerX: int, centerZ: int, halfX: int, halfZ: int)
      requires InRect(x, z, centerX, centerZ, halfX, halfZ)
      ensures 0 <= x < MapWidth && 0 <= z < MapHeight
    {
    }

    /** `nodePresent` is `usedNode != null` and `sizeIsZero` is `size == Vector3.Zero`;
        either guard failing leaves every tile as it was. */
    method MarkTilesAsNonPassable(tiles: array2<Tile?>, nodePresent: bool, sizeIsZero: bool,
                                  centerX: int, centerZ: int, halfX: int, halfZ: int)
      requires MapWidth <= tiles.Length0 && MapHeight <= tiles.Length1
      requires Filled(tiles) && Distinct(tiles)
      modifies Cells(tiles)`IsPassable
      ensures forall x, z :: 0 <= x < tiles.Length0 && 0 <= z < tiles.Length1 ==>
        tiles[x, z].IsPassable ==
          Marked(old(tiles[x, z].IsPassable), tiles[x, z].Type,
                 nodePresent && !sizeIsZero && InRect(x, z, centerX, centerZ, halfX, halfZ))
    {
      if !nodePresent {
        return;
      }
      if sizeIsZero {
        return;
      }
      var minX := MinBound(centerX, halfX);
      var maxX := MaxBound(centerX, halfX, MapWidth);
      var minZ := MinBound(centerZ, halfZ);
      var maxZ := MaxBound(centerZ, halfZ, MapHeight);
      var x := minX;
      while x <= maxX
        invariant minX <= x <= if maxX + 1 > minX then maxX + 1 else minX
        invariant forall i, k :: 0 <= i < tiles.Length0 && 0 <= k < tiles.Length1 ==>
          tiles[i, k].IsPassable ==
            Marked(old(tiles[i, k].IsPassable), tiles[i, k].Type,
                   i < x && InRect(i, k, centerX, centerZ, halfX, halfZ))
      {
        var z := minZ;
        while z <= maxZ
          invariant minZ <= z <= if maxZ + 1 > minZ then maxZ + 1 else minZ
          invariant forall i, k :: 0 <= i < tiles.Length0 && 0 <= k < tiles.Length1 ==>
            tiles[i, k].IsPassable ==
              Marked(old(tiles[i, k].IsPassable), tiles[i, k].Type,
                     (i < x || (i == x && k < z)) && InRect(i, k, centerX, centerZ, halfX, halfZ))
        {
          if x >= 0 && x < MapWidth && z >= 0 && z < MapHeight {
            var tile := tiles[x, z];
            if tile.GetPassable() {
              tile.SetPassable(false);
            }
          }
          z := z + 1;
        }
        x := x + 1;
      }
    }
  }
}
