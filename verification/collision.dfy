/** Collision queries against the tilemaps of the level.

    A tilemap answers one question: does the pixel rectangle at (x, y) with the
    given width and height touch a solid tile?  The model does not look inside a
    tilemap; each one is an uninterpreted total predicate on four integers.
 */
module Collision {

  /** A tilemap's rectangle query: `solid(x, y, width, height)`. A zero width or
      height is a legal degenerate probe (a line). */
  type Oracle = (int, int, int, int) -> bool

  /** The registered tilemaps, keyed by map name. A map name without an entry
      stands for every way the lookup can come back empty: no tilemap registry
      at all, no entry for the name, or an entry that is not a tilemap. */
  type Tilemaps = map<string, Oracle>

  /** Nearest integer with halves rounded towards positive infinity, which is
      what `Math.round` computes on exactly representable values. */
  function Round(v: real): (r: int)
    ensures r as real - 0.5 <= v < r as real + 0.5
  {
    (v + 0.5).Floor
  }

  /** Rounding commutes with shifting by a whole number of pixels. */
  lemma RoundShift(v: real, n: int)
    ensures Round(v + n as real) == Round(v) + n
  {
  }

  /** The actor's collision query: an absent tilemap is open space, never an
      error; otherwise the tilemap of the actor's map decides. */
  function HasCollisionInRectangle(tilemaps: Tilemaps, mapName: string,
                                   x: int, y: int, width: int, height: int): (r: bool)
    ensures mapName !in tilemaps ==> !r
    ensures mapName in tilemaps ==> (r <==> tilemaps[mapName](x, y, width, height))
  {
    mapName in tilemaps && tilemaps[mapName](x, y, width, height)
  }
}
