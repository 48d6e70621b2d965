/** The actor's state and its per-tick state transition.

    One tick runs four phases in order: walk intent (only when standing on
    ground), horizontal movement towards the facing side, the fall-velocity
    update and the fall itself. Every collision query goes to the tilemap of the
    actor's map through a 1-pixel-inset probe.
 */
module Movement {
  import opened Collision
  import opened Probe
  import opened Keys

  /** The actor's bounding box, fixed for its lifetime. */
  const Width: int := 32
  const Height: int := 32

  /** The tuning constants of the game, in pixels, milliseconds and pixels per
      second. */
  datatype Config = Config(
    baseFallVelocity: real,
    fallAcceleration: real,
    maxFallVelocity: real,
    walkVelocity: real,
    walkSpeed: real)

  /** Walk animation state: idle, or walking since a timestamp. */
  datatype Walk = Idle | Walking(since: real)

  datatype Player = Player(
    direction: Direction,
    fallVelocity: real,
    mapName: string,
    movementVelocity: real,
    walk: Walk,
    x: real,
    y: real)

  /** What the clock and the keyboard tell one tick: the current time, the time
      of the previous tick, and the held keys in the order they were pressed. */
  datatype Tick = Tick(now: real, updatedAt: real, heldKeys: seq<string>)

  /** Milliseconds since the previous tick. */
  function SinceUpdate(t: Tick): real {
    t.now - t.updatedAt
  }

  /** A new actor: facing right, standing still, on the map "main", its top
      edge one body height above the origin. */
  function Init(cfg: Config): (p: Player)
    ensures p.walk.Idle? && p.movementVelocity == 0.0
    ensures p.fallVelocity == cfg.baseFallVelocity
    ensures p.direction == Right && p.mapName == "main"
    ensures p.x == 0.0 && p.y + Height as real == 0.0
  {
    Player(Right, cfg.baseFallVelocity, "main", 0.0, Idle, 0.0, -32.0)
  }

  // Probes. Each is the thin rectangle just outside one edge of the actor,
  // inset by one pixel at both ends, travelling away from that edge.

  /** A (width - 2)-wide, zero-height strip along the bottom edge, moving down. */
  function BottomRay(p: Player, tilemaps: Tilemaps): Ray {
    Ray(tilemaps, p.mapName, Round(p.x + 1.0), Round(p.y + Height as real), Downward, Width - 2, 0)
  }

  /** A zero-width, (height - 2)-tall strip along the left edge, moving left. */
  function LeftRay(p: Player, tilemaps: Tilemaps): Ray {
    Ray(tilemaps, p.mapName, Round(p.x), Round(p.y + 1.0), Leftward, 0, Height - 2)
  }

  /** A zero-width, (height - 2)-tall strip along the right edge, moving right. */
  function RightRay(p: Player, tilemaps: Tilemaps): Ray {
    Ray(tilemaps, p.mapName, Round(p.x + Width as real), Round(p.y + 1.0), Rightward, 0, Height - 2)
  }

  /** Each ray's probe at offset `i` is the query the actor makes at that
      offset, which adds the offset before rounding. */
  lemma BottomRayQuery(p: Player, tilemaps: Tilemaps, i: int)
    ensures Hit(BottomRay(p, tilemaps), i) ==
            HasCollisionInRectangle(tilemaps, p.mapName, Round(p.x + 1.0),
                                    Round(p.y + Height as real + i as real), Width - 2, 0)
  {
    RoundShift(p.y + Height as real, i);
  }

  lemma LeftRayQuery(p: Player, tilemaps: Tilemaps, i: int)
    ensures Hit(LeftRay(p, tilemaps), i) ==
            HasCollisionInRectangle(tilemaps, p.mapName, Round(p.x - i as real),
                                    Round(p.y + 1.0), 0, Height - 2)
  {
    RoundShift(p.x, -i);
  }

  lemma RightRayQuery(p: Player, tilemaps: Tilemaps, i: int)
    ensures Hit(RightRay(p, tilemaps), i) ==
            HasCollisionInRectangle(tilemaps, p.mapName, Round(p.x + Width as real + i as real),
                                    Round(p.y + 1.0), 0, Height - 2)
  {
    RoundShift(p.x + Width as real, i);
  }

  /** Standing on ground: something solid right under the bottom edge. */
  function HasCollisionOnBottom(p: Player, tilemaps: Tilemaps): (r: bool)
    ensures p.mapName !in tilemaps ==> !r
  {
    HasCollisionInRectangle(tilemaps, p.mapName, Round(p.x) + 1,
                            Round(p.y + Height as real), Width - 2, 0)
  }

  /** Blocked on the left: something solid right at the left edge. */
  function HasCollisionOnLeft(p: Player, tilemaps: Tilemaps): (r: bool)
    ensures p.mapName !in tilemaps ==> !r
  {
    HasCollisionInRectangle(tilemaps, p.mapName, Round(p.x), Round(p.y + 1.0), 0, Height - 2)
  }

  /** Blocked on the right: something solid right at the right edge. */
  function HasCollisionOnRight(p: Player, tilemaps: Tilemaps): (r: bool)
    ensures p.mapName !in tilemaps ==> !r
  {
    HasCollisionInRectangle(tilemaps, p.mapName, Round(p.x + Width as real),
                            Round(p.y + 1.0), 0, Height - 2)
  }

  /** Each contact check is its probe's first step, at offset 0: solid ground
      below, or a blocked side, means a probe of positive length stops at 0. */
  lemma BottomContactIsFirstProbe(p: Player, tilemaps: Tilemaps)
    ensures HasCollisionOnBottom(p, tilemaps) == Hit(BottomRay(p, tilemaps), 0)
  {
    RoundShift(p.x, 1);
    assert p.y + Height as real + 0 as real == p.y + Height as real;
  }

  lemma LeftContactIsFirstProbe(p: Player, tilemaps: Tilemaps)
    ensures HasCollisionOnLeft(p, tilemaps) == Hit(LeftRay(p, tilemaps), 0)
  {
  }

  lemma RightContactIsFirstProbe(p: Player, tilemaps: Tilemaps)
    ensures HasCollisionOnRight(p, tilemaps) == Hit(RightRay(p, tilemaps), 0)
  {
  }

  /** Nominal displacement in pixels after `dt` milliseconds at `velocity`
      pixels per second. */
  function Nominal(dt: real, velocity: real): (r: real)
    ensures 0.0 <= dt && 0.0 <= velocity ==> 0.0 <= r
    ensures dt == 1000.0 ==> r == velocity
    ensures dt == 0.0 || velocity == 0.0 ==> r == 0.0
  {
    assert 0.0 <= dt && 0.0 <= velocity ==> 0.0 <= dt * velocity;
    dt * velocity / 1000.0
  }

  /** How far the actor may fall this tick, at its current fall velocity. */
  function FallableHeight(p: Player, tilemaps: Tilemaps, dt: real): (r: real)
    ensures Nominal(dt, p.fallVelocity) >= 0.0 ==> 0.0 <= r <= Nominal(dt, p.fallVelocity)
  {
    Distance(Nominal(dt, p.fallVelocity), BottomRay(p, tilemaps))
  }

  /** The fall height stops the actor on the ground, not in it. */
  lemma FallableHeightStops(p: Player, tilemaps: Tilemaps, dt: real)
    ensures StopsBeforeObstruction(Nominal(dt, p.fallVelocity), BottomRay(p, tilemaps),
                                   FallableHeight(p, tilemaps, dt))
  {
    DistanceStops(Nominal(dt, p.fallVelocity), BottomRay(p, tilemaps));
  }

  /** How far the actor may walk to the left this tick. */
  function LeftMovableWidth(p: Player, tilemaps: Tilemaps, dt: real): (r: real)
    ensures Nominal(dt, p.movementVelocity) >= 0.0 ==> 0.0 <= r <= Nominal(dt, p.movementVelocity)
  {
    Distance(Nominal(dt, p.movementVelocity), LeftRay(p, tilemaps))
  }

  /** The leftward width stops the actor at a wall, not in it. */
  lemma LeftMovableWidthStops(p: Player, tilemaps: Tilemaps, dt: real)
    ensures StopsBeforeObstruction(Nominal(dt, p.movementVelocity), LeftRay(p, tilemaps),
                                   LeftMovableWidth(p, tilemaps, dt))
  {
    DistanceStops(Nominal(dt, p.movementVelocity), LeftRay(p, tilemaps));
  }

  /** How far the actor may walk to the right this tick. */
  function RightMovableWidth(p: Player, tilemaps: Tilemaps, dt: real): (r: real)
    ensures Nominal(dt, p.movementVelocity) >= 0.0 ==> 0.0 <= r <= Nominal(dt, p.movementVelocity)
  {
    Distance(Nominal(dt, p.movementVelocity), RightRay(p, tilemaps))
  }

  /** The rightward width stops the actor at a wall, not in it. */
  lemma RightMovableWidthStops(p: Player, tilemaps: Tilemaps, dt: real)
    ensures StopsBeforeObstruction(Nominal(dt, p.movementVelocity), RightRay(p, tilemaps),
                                   RightMovableWidth(p, tilemaps, dt))
  {
    DistanceStops(Nominal(dt, p.movementVelocity), RightRay(p, tilemaps));
  }

  /** Walk intent. Only a grounded actor listens to the keyboard: no key at all
      stops it, the most recent movement key starts or continues a walk, and
      any other keys leave it as it was. Position and fall are untouched. */
  function Intent(p: Player, t: Tick, tilemaps: Tilemaps, cfg: Config): (q: Player)
    ensures q.x == p.x && q.y == p.y
    ensures q.fallVelocity == p.fallVelocity && q.mapName == p.mapName
  {
    if !HasCollisionOnBottom(p, tilemaps) then p
    else if |t.heldKeys| == 0 then p.(movementVelocity := 0.0, walk := Idle)
    else
      match LastMovementKey(t.heldKeys)
      case None => p
      case Some(key) =>
        p.(walk := if p.walk.Idle? then Walking(t.now) else p.walk,
           movementVelocity := cfg.walkVelocity,
           direction := Steer(p.direction, key))
  }

  /** Airborne horizontal control is damped to half the probed width. */
  function Damped(width: real, grounded: bool): (r: real)
    ensures grounded ==> r == width
    ensures !grounded ==> r + r == width
  {
    if grounded then width * 1.0 else width * 0.5
  }

  /** Horizontal movement: only towards the facing side, not at all when that
      side is already blocked, by the probed distance, and at half that
      distance while airborne. Only `x` changes. */
  function MoveHorizontally(p: Player, tilemaps: Tilemaps, dt: real): (q: Player)
    ensures q == p.(x := q.x)
    ensures p.direction == Left && HasCollisionOnLeft(p, tilemaps) ==> q.x == p.x
    ensures p.direction == Right && HasCollisionOnRight(p, tilemaps) ==> q.x == p.x
    ensures Nominal(dt, p.movementVelocity) >= 0.0 ==>
              (p.direction == Left ==> p.x - Nominal(dt, p.movementVelocity) <= q.x <= p.x)
    ensures Nominal(dt, p.movementVelocity) >= 0.0 ==>
              (p.direction == Right ==> p.x <= q.x <= p.x + Nominal(dt, p.movementVelocity))
  {
    var grounded := HasCollisionOnBottom(p, tilemaps);
    match p.direction
    case Left =>
      if !HasCollisionOnLeft(p, tilemaps)
      then p.(x := p.x - Damped(LeftMovableWidth(p, tilemaps, dt), grounded))
      else p
    case Right =>
      if !HasCollisionOnRight(p, tilemaps)
      then p.(x := p.x + Damped(RightMovableWidth(p, tilemaps, dt), grounded))
      else p
  }

  /** The fall velocity after an airborne tick: accelerated, never above the
      maximum. */
  function Accelerate(fallVelocity: real, dt: real, cfg: Config): (v: real)
    ensures v <= cfg.maxFallVelocity
    ensures fallVelocity <= cfg.maxFallVelocity && dt >= 0.0 && cfg.fallAcceleration >= 0.0
            ==> fallVelocity <= v
    ensures v == cfg.maxFallVelocity || v == fallVelocity + Nominal(dt, cfg.fallAcceleration)
    ensures fallVelocity < cfg.maxFallVelocity
            && fallVelocity + Nominal(dt, cfg.fallAcceleration) <= cfg.maxFallVelocity
            ==> v == fallVelocity + Nominal(dt, cfg.fallAcceleration)
    ensures cfg.maxFallVelocity <= fallVelocity + Nominal(dt, cfg.fallAcceleration) ==>
              v == cfg.maxFallVelocity
    ensures cfg.maxFallVelocity <= fallVelocity ==> v == cfg.maxFallVelocity
  {
    if fallVelocity < cfg.maxFallVelocity then
      var accelerated := fallVelocity + Nominal(dt, cfg.fallAcceleration);
      if accelerated < cfg.maxFallVelocity then accelerated else cfg.maxFallVelocity
    else cfg.maxFallVelocity
  }

  /** Vertical phase: a grounded actor has its fall velocity reset and stays
      put; an airborne one falls by the probed height at the velocity it had
      before this tick's acceleration. Only `y` and the fall velocity change. */
  function Fall(p: Player, tilemaps: Tilemaps, dt: real, cfg: Config): (q: Player)
    ensures q == p.(y := q.y, fallVelocity := q.fallVelocity)
    ensures HasCollisionOnBottom(p, tilemaps) ==>
              q.y == p.y && q.fallVelocity == cfg.baseFallVelocity
    ensures !HasCollisionOnBottom(p, tilemaps) ==>
              q.fallVelocity == Accelerate(p.fallVelocity, dt, cfg)
    ensures !HasCollisionOnBottom(p, tilemaps) ==> q.fallVelocity <= cfg.maxFallVelocity
    ensures (!HasCollisionOnBottom(p, tilemaps) && dt >= 0.0 && cfg.fallAcceleration >= 0.0
             && p.fallVelocity <= cfg.maxFallVelocity) ==> p.fallVelocity <= q.fallVelocity
    ensures !HasCollisionOnBottom(p, tilemaps) && Nominal(dt, p.fallVelocity) >= 0.0 ==>
              p.y <= q.y <= p.y + Nominal(dt, p.fallVelocity)
  {
    if HasCollisionOnBottom(p, tilemaps) then p.(fallVelocity := cfg.baseFallVelocity)
    else p.(y := p.y + FallableHeight(p, tilemaps, dt),
            fallVelocity := Accelerate(p.fallVelocity, dt, cfg))
  }

  /** Airborne, the fall covers the probed height: the whole nominal distance
      when the probe stays clear, otherwise up to the first whole-pixel offset
      at which the ground would collide. */
  lemma FallStopsBeforeGround(p: Player, tilemaps: Tilemaps, dt: real, cfg: Config)
    requires !HasCollisionOnBottom(p, tilemaps)
    ensures StopsBeforeObstruction(Nominal(dt, p.fallVelocity), BottomRay(p, tilemaps),
                                   Fall(p, tilemaps, dt, cfg).y - p.y)
  {
    assert Fall(p, tilemaps, dt, cfg).y - p.y == FallableHeight(p, tilemaps, dt);
    FallableHeightStops(p, tilemaps, dt);
  }

  /** One simulation tick: intent, horizontal move, then fall. Only the intent
      phase touches the facing side, the walking velocity and the walk state. */
  function Update(p: Player, t: Tick, tilemaps: Tilemaps, cfg: Config): (q: Player)
    ensures q.direction == Intent(p, t, tilemaps, cfg).direction
    ensures q.movementVelocity == Intent(p, t, tilemaps, cfg).movementVelocity
    ensures q.walk == Intent(p, t, tilemaps, cfg).walk
    ensures q.mapName == p.mapName
  {
    var dt := SinceUpdate(t);
    var walked := MoveHorizontally(Intent(p, t, tilemaps, cfg), tilemaps, dt);
    Fall(walked, tilemaps, dt, cfg)
  }
}
