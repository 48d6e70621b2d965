/** Incremental collision probing.

    The actor never moves by a closed-form sweep. It advances a candidate offset
    one whole pixel at a time, from 0, and asks whether a thin rectangle at that
    offset collides. The answer is the nominal displacement `d` when the offset
    reaches `d` first, and otherwise the number of clear pixels before the first
    colliding offset: the actor stops just before the obstruction.
 */
module Probe {
  import opened Collision

  /** The way a probe travels from its origin, in screen coordinates (y grows
      downwards). */
  datatype Heading = Downward | Leftward | Rightward

  /** A probe: a `width` by `height` rectangle whose top-left corner starts at
      the whole pixel (x, y) and moves one pixel per offset along `heading`,
      queried against the tilemap registered for `mapName`. */
  datatype Ray = Ray(
    tilemaps: Tilemaps,
    mapName: string,
    x: int,
    y: int,
    heading: Heading,
    width: int,
    height: int)

  /** Whether the rectangle at whole offset `i` collides. */
  function Hit(ray: Ray, i: int): (r: bool)
    ensures ray.mapName !in ray.tilemaps ==> !r
  {
    match ray.heading
    case Downward =>
      HasCollisionInRectangle(ray.tilemaps, ray.mapName, ray.x, ray.y + i, ray.width, ray.height)
    case Leftward =>
      HasCollisionInRectangle(ray.tilemaps, ray.mapName, ray.x - i, ray.y, ray.width, ray.height)
    case Rightward =>
      HasCollisionInRectangle(ray.tilemaps, ray.mapName, ray.x + i, ray.y, ray.width, ray.height)
  }

  /** No probe at a whole offset in `[lo, hi)` collides. */
  ghost predicate ClearFrom(ray: Ray, lo: int, hi: real) {
    forall i: int :: lo <= i && i as real < hi ==> !Hit(ray, i)
  }

  /** A clear prefix extends past an offset that does not collide. */
  lemma ClearExtend(ray: Ray, y: nat)
    requires ClearFrom(ray, 0, y as real) && !Hit(ray, y)
    ensures ClearFrom(ray, 0, (y + 1) as real)
  {
    forall i: int | 0 <= i && i as real < (y + 1) as real
      ensures !Hit(ray, i)
    {
      assert i <= y;
    }
  }

  /** `r` is a correct outcome of probing towards the nominal displacement `d`:
      either every offset short of `d` is clear and the full `d` is granted, or
      `r` is a whole number of pixels short of `d`, every offset before `r` is
      clear and the probe at `r` collides. */
  ghost predicate StopsBeforeObstruction(d: real, ray: Ray, r: real) {
    || (r == d && ClearFrom(ray, 0, d))
    || (0.0 <= r < d && r == r.Floor as real && ClearFrom(ray, 0, r) && Hit(ray, r.Floor))
  }

  /** There is only one correct outcome for a given displacement and probe. */
  lemma StopsBeforeObstructionUnique(d: real, ray: Ray, r1: real, r2: real)
    requires StopsBeforeObstruction(d, ray, r1)
    requires StopsBeforeObstruction(d, ray, r2)
    ensures r1 == r2
  {
  }

  /** Reference definition of probing, resumed at offset `y`: the full `d` once
      the offset reaches it, the offset itself at the first collision, and
      otherwise the outcome one pixel further on. */
  function DistanceFrom(d: real, ray: Ray, y: nat): (r: real)
    ensures y as real >= d ==> r == d
    ensures y as real < d ==> y as real <= r <= d
    decreases d.Floor + 1 - y
  {
    if y as real >= d then d
    else if Hit(ray, y) then y as real
    else DistanceFrom(d, ray, y + 1)
  }

  /** Probing resumed at `y`, with every offset before `y` clear, has a correct
      outcome. */
  lemma {:induction false} DistanceFromStops(d: real, ray: Ray, y: nat)
    requires ClearFrom(ray, 0, y as real)
    ensures StopsBeforeObstruction(d, ray, DistanceFrom(d, ray, y))
    decreases d.Floor + 1 - y
  {
    if y as real < d && !Hit(ray, y) {
      ClearExtend(ray, y);
      DistanceFromStops(d, ray, y + 1);
    }
  }

  /** The distance the actor may move towards the nominal displacement `d`. */
  function Distance(d: real, ray: Ray): (r: real)
    ensures d <= 0.0 ==> r == d
    ensures d >= 0.0 ==> 0.0 <= r <= d
  {
    DistanceFrom(d, ray, 0)
  }

  /** Probing from offset 0 has a correct outcome. */
  lemma DistanceStops(d: real, ray: Ray)
    ensures StopsBeforeObstruction(d, ray, Distance(d, ray))
  {
    DistanceFromStops(d, ray, 0);
  }

  /** Sum of a list of numbers. */
  function Sum(s: seq<int>): int {
    if |s| == 0 then 0 else Sum(s[..|s| - 1]) + s[|s| - 1]
  }

  /** A list of ones sums to its length. */
  lemma {:induction false} SumOfOnes(s: seq<int>)
    requires forall i :: 0 <= i < |s| ==> s[i] == 1
    ensures Sum(s) == |s|
  {
    if |s| > 0 {
      SumOfOnes(s[..|s| - 1]);
    }
  }

  /** The stepping loop as the actor runs it: one entry of 1 is pushed per clear
      pixel and, on a collision, the pushed entries are summed. */
  method MovableDistance(d: real, ray: Ray) returns (r: real)
    ensures r == Distance(d, ray)
    ensures StopsBeforeObstruction(d, ray, r)
  {
    var pixels: seq<int> := [];
    var y: nat := 0;
    while y as real < d && !Hit(ray, y)
      invariant Sum(pixels) == y
      invariant ClearFrom(ray, 0, y as real)
      decreases d.Floor + 1 - y
    {
      assert (pixels + [1])[..|pixels|] == pixels;
      ClearExtend(ray, y);
      pixels := pixels + [1];
      y := y + 1;
    }
    if y as real >= d {
      r := d;
    } else {
      r := Sum(pixels) as real;
    }
    LoopExit(d, ray, y);
    DistanceStops(d, ray);
  }

  /** Leaving the stepping loop at offset `y`, with every earlier offset clear,
      yields the reference distance: `d` when the offset reached it, otherwise
      the offset of the collision. */
  lemma LoopExit(d: real, ray: Ray, y: nat)
    requires ClearFrom(ray, 0, y as real)
    requires y as real >= d || Hit(ray, y)
    ensures Distance(d, ray) == if y as real >= d then d else y as real
  {
    DistanceStops(d, ray);
    var r := if y as real >= d then d else y as real;
    assert StopsBeforeObstruction(d, ray, r);
    StopsBeforeObstructionUnique(d, ray, r, Distance(d, ray));
  }

  /** When every offset short of `d` is clear the full displacement is granted. */
  lemma FullDistanceWhenClear(d: real, ray: Ray)
    requires ClearFrom(ray, 0, d)
    ensures Distance(d, ray) == d
  {
    DistanceStops(d, ray);
    StopsBeforeObstructionUnique(d, ray, Distance(d, ray), d);
  }

  /** An obstruction whose first colliding offset is `k < d` stops the actor
      after exactly `k` pixels: at the obstruction's boundary, not one short
      and not one into it. */
  lemma StopsAtObstruction(d: real, ray: Ray, k: nat)
    requires k as real < d
    requires ClearFrom(ray, 0, k as real)
    requires Hit(ray, k)
    ensures Distance(d, ray) == k as real
  {
    DistanceStops(d, ray);
    StopsBeforeObstructionUnique(d, ray, Distance(d, ray), k as real);
  }

  /** Solid ground from row 5 down, under an actor probing 20 pixels downwards
      from row 0: it falls exactly five pixels. */
  lemma StopsFivePixelsShort()
    ensures Distance(20.0, Ray(map["level" := (x, y, w, h) => y >= 5], "level",
                               0, 0, Downward, 30, 0)) == 5.0
  {
    var ray := Ray(map["level" := (x, y, w, h) => y >= 5], "level", 0, 0, Downward, 30, 0);
    StopsAtObstruction(20.0, ray, 5);
  }
}
