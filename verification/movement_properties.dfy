/** Properties of one tick of the actor, and of ticks in sequence. */
module MovementProperties {
  import opened Collision
  import opened Probe
  import opened Keys
  import opened Movement
  import opened Animation

  /** The state after the intent and horizontal phases, on which the fall
      phase runs its ground check. */
  function AfterWalk(p: Player, t: Tick, tilemaps: Tilemaps, cfg: Config): Player {
    MoveHorizontally(Intent(p, t, tilemaps, cfg), tilemaps, SinceUpdate(t))
  }

  // ---------------------------------------------------------------------
  // Fall velocity and the fall

  /** The fall velocity never ends a tick above the maximum. */
  lemma FallVelocityBounded(p: Player, t: Tick, tilemaps: Tilemaps, cfg: Config)
    requires cfg.baseFallVelocity <= cfg.maxFallVelocity
    ensures Update(p, t, tilemaps, cfg).fallVelocity <= cfg.maxFallVelocity
  {
  }

  /** Ground under the actor after its horizontal move resets the fall velocity
      and keeps it at its height. */
  lemma LandingResetsFall(p: Player, t: Tick, tilemaps: Tilemaps, cfg: Config)
    requires HasCollisionOnBottom(AfterWalk(p, t, tilemaps, cfg), tilemaps)
    ensures Update(p, t, tilemaps, cfg).fallVelocity == cfg.baseFallVelocity
    ensures Update(p, t, tilemaps, cfg).y == p.y
  {
  }

  /** Airborne, the fall velocity never decreases. */
  lemma AirborneFallAccelerates(p: Player, t: Tick, tilemaps: Tilemaps, cfg: Config)
    requires !HasCollisionOnBottom(AfterWalk(p, t, tilemaps, cfg), tilemaps)
    requires SinceUpdate(t) >= 0.0 && cfg.fallAcceleration >= 0.0
    requires p.fallVelocity <= cfg.maxFallVelocity
    ensures p.fallVelocity <= Update(p, t, tilemaps, cfg).fallVelocity
  {
    var m := AfterWalk(p, t, tilemaps, cfg);
    assert m.fallVelocity == p.fallVelocity;
    FallKeepsVelocityUp(m, tilemaps, SinceUpdate(t), cfg);
    assert Update(p, t, tilemaps, cfg) == Fall(m, tilemaps, SinceUpdate(t), cfg);
  }

  /** The fall phase alone: airborne, it does not lower the fall velocity. */
  lemma FallKeepsVelocityUp(m: Player, tilemaps: Tilemaps, dt: real, cfg: Config)
    requires !HasCollisionOnBottom(m, tilemaps)
    requires dt >= 0.0 && cfg.fallAcceleration >= 0.0 && m.fallVelocity <= cfg.maxFallVelocity
    ensures m.fallVelocity <= Fall(m, tilemaps, dt, cfg).fallVelocity
  {
    assert Fall(m, tilemaps, dt, cfg).fallVelocity == Accelerate(m.fallVelocity, dt, cfg);
  }

  /** Airborne, the fall covers at most the distance of the fall velocity held
      before this tick's acceleration. */
  lemma AirborneFallDistance(p: Player, t: Tick, tilemaps: Tilemaps, cfg: Config)
    requires !HasCollisionOnBottom(AfterWalk(p, t, tilemaps, cfg), tilemaps)
    requires SinceUpdate(t) >= 0.0 && 0.0 <= p.fallVelocity
    ensures p.y <= Update(p, t, tilemaps, cfg).y <= p.y + Nominal(SinceUpdate(t), p.fallVelocity)
  {
    var dt := SinceUpdate(t);
    var m := AfterWalk(p, t, tilemaps, cfg);
    assert m.fallVelocity == p.fallVelocity && m.y == p.y;
    assert Update(p, t, tilemaps, cfg) == Fall(m, tilemaps, dt, cfg);
  }

  // ---------------------------------------------------------------------
  // Walk intent

  /** Grounded with no key held at all: the actor stops and its walk ends. */
  lemma IdleReset(p: Player, t: Tick, tilemaps: Tilemaps, cfg: Config)
    requires HasCollisionOnBottom(p, tilemaps) && |t.heldKeys| == 0
    ensures Update(p, t, tilemaps, cfg).movementVelocity == 0.0
    ensures Update(p, t, tilemaps, cfg).walk == Idle
    ensures Update(p, t, tilemaps, cfg).direction == p.direction
  {
  }

  /** Airborne, the keyboard is ignored: facing side, walking velocity and walk
      state carry over. */
  lemma AirborneKeepsIntent(p: Player, t: Tick, tilemaps: Tilemaps, cfg: Config)
    requires !HasCollisionOnBottom(p, tilemaps)
    ensures Update(p, t, tilemaps, cfg).direction == p.direction
    ensures Update(p, t, tilemaps, cfg).movementVelocity == p.movementVelocity
    ensures Update(p, t, tilemaps, cfg).walk == p.walk
  {
  }

  /** Grounded while holding only keys that are not movement keys: the actor
      keeps whatever it was doing, walking velocity and walk state included. */
  lemma OtherKeysKeepIntent(p: Player, t: Tick, tilemaps: Tilemaps, cfg: Config)
    requires HasCollisionOnBottom(p, tilemaps) && |t.heldKeys| > 0
    requires forall i :: 0 <= i < |t.heldKeys| ==> !IsMovementKey(t.heldKeys[i])
    ensures Update(p, t, tilemaps, cfg).direction == p.direction
    ensures Update(p, t, tilemaps, cfg).movementVelocity == p.movementVelocity
    ensures Update(p, t, tilemaps, cfg).walk == p.walk
  {
  }

  /** Grounded with movement keys held: the most recently pressed one sets the
      facing side, the actor walks at the walking velocity, and a walk that had
      not begun begins now while one under way keeps its start. */
  lemma LastMovementKeySteers(p: Player, t: Tick, tilemaps: Tilemaps, cfg: Config, i: int)
    requires HasCollisionOnBottom(p, tilemaps)
    requires 0 <= i < |t.heldKeys| && IsMovementKey(t.heldKeys[i])
    requires forall j :: i < j < |t.heldKeys| ==> !IsMovementKey(t.heldKeys[j])
    ensures Update(p, t, tilemaps, cfg).direction == (if IsLeftKey(t.heldKeys[i]) then Left else Right)
    ensures Update(p, t, tilemaps, cfg).movementVelocity == cfg.walkVelocity
    ensures Update(p, t, tilemaps, cfg).walk == (if p.walk.Idle? then Walking(t.now) else p.walk)
  {
  }

  /** A walk under way ends exactly when the actor stands on ground with no key
      held at all. */
  lemma WalkEndsIff(p: Player, t: Tick, tilemaps: Tilemaps, cfg: Config)
    requires p.walk.Walking?
    ensures Update(p, t, tilemaps, cfg).walk.Idle? <==>
              HasCollisionOnBottom(p, tilemaps) && |t.heldKeys| == 0
  {
  }

  /** An idle actor begins a walk exactly when it stands on ground holding some
      movement key, and the walk begins at the current time. */
  lemma WalkBeginsIff(p: Player, t: Tick, tilemaps: Tilemaps, cfg: Config)
    requires p.walk.Idle?
    ensures Update(p, t, tilemaps, cfg).walk.Walking? <==>
              HasCollisionOnBottom(p, tilemaps)
              && exists i :: 0 <= i < |t.heldKeys| && IsMovementKey(t.heldKeys[i])
    ensures Update(p, t, tilemaps, cfg).walk.Walking? ==>
              Update(p, t, tilemaps, cfg).walk.since == t.now
  {
  }

  // ---------------------------------------------------------------------
  // Horizontal movement

  /** With every probe offset short of the nominal displacement clear and the
      facing side open, the actor covers the full displacement on ground and
      half of it in the air, towards the side it faces. */
  lemma FullStepWhenClear(p: Player, tilemaps: Tilemaps, dt: real)
    requires p.direction == Left ==>
               !HasCollisionOnLeft(p, tilemaps)
               && ClearFrom(LeftRay(p, tilemaps), 0, Nominal(dt, p.movementVelocity))
    requires p.direction == Right ==>
               !HasCollisionOnRight(p, tilemaps)
               && ClearFrom(RightRay(p, tilemaps), 0, Nominal(dt, p.movementVelocity))
    ensures HasCollisionOnBottom(p, tilemaps) ==>
              MoveHorizontally(p, tilemaps, dt).x ==
                (if p.direction == Left then p.x - Nominal(dt, p.movementVelocity)
                 else p.x + Nominal(dt, p.movementVelocity))
    ensures !HasCollisionOnBottom(p, tilemaps) ==>
              MoveHorizontally(p, tilemaps, dt).x ==
                (if p.direction == Left then p.x - Nominal(dt, p.movementVelocity) * 0.5
                 else p.x + Nominal(dt, p.movementVelocity) * 0.5)
  {
    var d := Nominal(dt, p.movementVelocity);
    match p.direction
    case Left => FullDistanceWhenClear(d, LeftRay(p, tilemaps));
    case Right => FullDistanceWhenClear(d, RightRay(p, tilemaps));
  }

  /** An actor walking into an obstruction whose first colliding offset is
      `k`, short of the nominal displacement, covers the `k` clear pixels on
      ground and half of them in the air, where it stops short of the
      obstruction. */
  lemma StopsAtObstructionAhead(p: Player, tilemaps: Tilemaps, dt: real, k: nat)
    requires k as real < Nominal(dt, p.movementVelocity)
    requires p.direction == Left ==>
               ClearFrom(LeftRay(p, tilemaps), 0, k as real) && Hit(LeftRay(p, tilemaps), k)
    requires p.direction == Right ==>
               ClearFrom(RightRay(p, tilemaps), 0, k as real) && Hit(RightRay(p, tilemaps), k)
    ensures MoveHorizontally(p, tilemaps, dt).x ==
              (if p.direction == Left then p.x - Damped(k as real, HasCollisionOnBottom(p, tilemaps))
               else p.x + Damped(k as real, HasCollisionOnBottom(p, tilemaps)))
  {
    var d := Nominal(dt, p.movementVelocity);
    match p.direction
    case Left =>
      LeftContactIsFirstProbe(p, tilemaps);
      StopsAtObstruction(d, LeftRay(p, tilemaps), k);
    case Right =>
      RightContactIsFirstProbe(p, tilemaps);
      StopsAtObstruction(d, RightRay(p, tilemaps), k);
  }

  /** Standing on a floor at row 32 and walking right at 20 pixels a second
      towards a wall from column 37, the actor covers exactly the five clear
      columns 32..36 in one second and stops at the wall. */
  lemma WalksFivePixelsIntoWall()
    ensures MoveHorizontally(Player(Right, 0.0, "m", 20.0, Walking(0.0), 0.0, 0.0),
                             map["m" := (x, y, w, h) => x >= 37 || y >= 32], 1000.0).x == 5.0
  {
    var p := Player(Right, 0.0, "m", 20.0, Walking(0.0), 0.0, 0.0);
    var tilemaps: Tilemaps := map["m" := (x, y, w, h) => x >= 37 || y >= 32];
    BottomContactIsFirstProbe(p, tilemaps);
    StopsAtObstructionAhead(p, tilemaps, 1000.0, 5);
  }

  /** Without a tilemap for its map, no probe ever collides. */
  lemma OpenWorldLeftClear(p: Player, tilemaps: Tilemaps, d: real)
    requires p.mapName !in tilemaps
    ensures ClearFrom(LeftRay(p, tilemaps), 0, d)
  {
  }

  lemma OpenWorldRightClear(p: Player, tilemaps: Tilemaps, d: real)
    requires p.mapName !in tilemaps
    ensures ClearFrom(RightRay(p, tilemaps), 0, d)
  {
  }

  lemma OpenWorldBottomClear(p: Player, tilemaps: Tilemaps, d: real)
    requires p.mapName !in tilemaps
    ensures ClearFrom(BottomRay(p, tilemaps), 0, d)
  {
  }

  /** Without a tilemap for its map the actor is always airborne, so it
      ignores the keyboard. */
  lemma OpenWorldIgnoresKeys(p: Player, t: Tick, tilemaps: Tilemaps, cfg: Config)
    requires p.mapName !in tilemaps
    ensures Update(p, t, tilemaps, cfg).walk == p.walk
    ensures Update(p, t, tilemaps, cfg).movementVelocity == p.movementVelocity
    ensures Update(p, t, tilemaps, cfg).direction == p.direction
  {
  }

  /** Without a tilemap for its map the actor drifts at half its walking
      displacement towards the side it faces. */
  lemma OpenWorldMove(p: Player, tilemaps: Tilemaps, dt: real)
    requires p.mapName !in tilemaps
    ensures MoveHorizontally(p, tilemaps, dt).x ==
              (if p.direction == Left then p.x - Nominal(dt, p.movementVelocity) * 0.5
               else p.x + Nominal(dt, p.movementVelocity) * 0.5)
  {
    var d := Nominal(dt, p.movementVelocity);
    assert !HasCollisionOnBottom(p, tilemaps);
    match p.direction
    case Left =>
      OpenWorldLeftClear(p, tilemaps, d);
      FullStepWhenClear(p, tilemaps, dt);
    case Right =>
      OpenWorldRightClear(p, tilemaps, d);
      FullStepWhenClear(p, tilemaps, dt);
  }

  lemma OpenWorldDrift(p: Player, t: Tick, tilemaps: Tilemaps, cfg: Config)
    requires p.mapName !in tilemaps
    ensures Update(p, t, tilemaps, cfg).x ==
              (if p.direction == Left then p.x - Nominal(SinceUpdate(t), p.movementVelocity) * 0.5
               else p.x + Nominal(SinceUpdate(t), p.movementVelocity) * 0.5)
  {
    var dt := SinceUpdate(t);
    var m := MoveHorizontally(p, tilemaps, dt);
    assert Update(p, t, tilemaps, cfg).x == m.x by {
      assert Intent(p, t, tilemaps, cfg) == p;
    }
    OpenWorldMove(p, tilemaps, dt);
  }

  /** Without a tilemap for its map the actor falls the full nominal height of
      the fall velocity it had before the tick. */
  lemma OpenWorldFall(p: Player, t: Tick, tilemaps: Tilemaps, cfg: Config)
    requires p.mapName !in tilemaps
    ensures Update(p, t, tilemaps, cfg).y == p.y + Nominal(SinceUpdate(t), p.fallVelocity)
  {
    var dt := SinceUpdate(t);
    assert Intent(p, t, tilemaps, cfg) == p;
    var m := MoveHorizontally(p, tilemaps, dt);
    assert m.fallVelocity == p.fallVelocity && m.y == p.y && m.mapName == p.mapName;
    OpenWorldBottomClear(m, tilemaps, Nominal(dt, m.fallVelocity));
    FullDistanceWhenClear(Nominal(dt, m.fallVelocity), BottomRay(m, tilemaps));
    assert Update(p, t, tilemaps, cfg) == Fall(m, tilemaps, dt, cfg);
  }

  // ---------------------------------------------------------------------
  // Invariants across ticks

  /** What every reachable actor state satisfies: the fall velocity is within
      its maximum, and the walking velocity is zero when idle and the walking
      constant while walking. */
  ghost predicate Valid(p: Player, cfg: Config) {
    && p.fallVelocity <= cfg.maxFallVelocity
    && (p.walk.Idle? ==> p.movementVelocity == 0.0)
    && (p.walk.Walking? ==> p.movementVelocity == cfg.walkVelocity)
  }

  lemma InitValid(cfg: Config)
    requires cfg.baseFallVelocity <= cfg.maxFallVelocity
    ensures Valid(Init(cfg), cfg)
  {
  }

  lemma UpdatePreservesValid(p: Player, t: Tick, tilemaps: Tilemaps, cfg: Config)
    requires cfg.baseFallVelocity <= cfg.maxFallVelocity
    requires Valid(p, cfg)
    ensures Valid(Update(p, t, tilemaps, cfg), cfg)
  {
  }

  /** A walk never starts after the tick that observes it, so the walk-cycle
      column drawn at that tick is one of the five frames. */
  lemma FrameAfterTick(p: Player, t: Tick, tilemaps: Tilemaps, cfg: Config)
    requires p.walk.Walking? ==> p.walk.since <= t.now
    requires 0.0 < cfg.walkSpeed
    ensures Update(p, t, tilemaps, cfg).walk.Walking? ==>
              Update(p, t, tilemaps, cfg).walk.since <= t.now
    ensures 0 <= SourceX(Update(p, t, tilemaps, cfg), t.now, cfg.walkSpeed) < CycleFrames * Width
  {
  }
}
