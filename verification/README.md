# Teleport-Tower player movement, in Dafny

This project models the movement and animation core of the `Player` actor of
Teleport-Tower, a 2D tile-based platformer (`src/classes/Player.ts`). Every
simulation tick moves the actor through four phases:

1. **Walk intent.** Only a grounded actor reads the keyboard. With no key held
   at all it stops and its walk ends. Otherwise the most recently pressed of
   `a`, `d`, `arrowleft` and `arrowright` sets the facing side and the walking
   velocity, and starts a walk if none was under way.
2. **Horizontal move.** The actor moves towards the side it faces. It does not
   move when that side is already blocked, and it moves half the distance
   while airborne.
3. **Fall velocity.** It is reset to its base value on ground. In the air it
   accelerates, clamped to a maximum.
4. **Fall.** An airborne actor falls.

Collisions are never resolved by a closed-form sweep. A stepping loop advances
a whole-pixel offset from 0 and queries a thin probe rectangle, inset by one
pixel, at each offset. It grants the nominal displacement
`sinceUpdate * velocity / 1000` when the offset reaches it first. Otherwise it
grants the number of clear pixels before the first collision. The sprite-sheet
frame comes from the actor's state and the clock: a walk-cycle column and a
row for the facing side and walking state.

Modules:

- `Collision` holds `Math.round`, the tilemap registry and the rectangle
  query.
- `Probe` holds the stepping loop. It has a recursive reference definition
  `Distance`, the `while` loop `MovableDistance` as the source writes it, and
  the specification `StopsBeforeObstruction`.
- `Keys` holds the movement-key choice.
- `Movement` holds the actor record and the phases of a tick.
- `Animation` holds the sheet offsets, including JavaScript's truncating `%`.
- `MovementProperties` holds the tick-level lemmas.
- `RealArith` holds small facts about multiplication and division of reals.

Positions, velocities and timestamps are `real`. `Math.round` is the exact
`floor(v + 1/2)`. The tilemap of a map is an uninterpreted predicate
`solid(x, y, width, height)`. The tuning constants imported from
`src/constants/*` become a `Config` record:

- `baseFallVelocity`
- `fallAcceleration`
- `maxFallVelocity`
- `walkVelocity` (the source's `movementVelocity` constant)
- `walkSpeed`

The global `state` becomes a `Tick` of `now`, `updatedAt` and `heldKeys`.
`walkedAt: number | null` becomes `Walk = Idle | Walking(since)`.

Behaviour of the code that the model keeps as written:

- **Walk reset.** A walk ends only when `heldKeys` is empty (lines 62-65).
  Holding only other keys keeps the walk and the walking velocity
  (`MovementProperties.OtherKeysKeepIntent`).
- **Ground check timing.** The fall phase checks for ground after `x` has
  moved (line 98, `MovementProperties.AfterWalk`).
- **Fall distance.** The actor falls at the fall velocity it had before this
  tick's acceleration (line 102 precedes line 104).
- **Fall-velocity update.** It is `if v < max then min(v + a, max) else max`
  (lines 103-108). A velocity above the maximum is lowered to it (line 107),
  so an airborne fall velocity never decreases only when it starts at or below
  the maximum.
- **Ground probe height.** The ground probe is zero pixels tall (line 190).
- **Probe rounding.** The probes add the whole-pixel offset before rounding
  (lines 119, 133, 147). Rounding commutes with a whole-pixel shift
  (`Collision.RoundShift`), so each `Ray` rounds its origin once and then
  steps in whole pixels.

## Model

| member | source | states |
|---|---|---|
| Collision.Round | src/classes/Player.ts:190 | The rounded value is within half a pixel of the input, with halves rounded up, as `Math.round` does |
| Collision.RoundShift | src/classes/Player.ts:119 | Rounding commutes with a shift by a whole number of pixels, which is why the probe offset may be added before rounding |
| Collision.HasCollisionInRectangle | src/classes/Player.ts:178-187 | With no tilemap registered for the map, the query is false. Otherwise the map's tilemap decides |
| Probe.LoopExit | src/classes/Player.ts:115-121 | When the loop leaves after a clear prefix, because the offset reached d or the offset collides, the reference distance is d or that offset |
| Probe.SumOfOnes | src/classes/Player.ts:120 | The sum of a list of ones, one pushed per clear pixel, is its length |
| Probe.Hit | src/classes/Player.ts:119 | A probe into a map with no tilemap never collides |
| Probe.StopsBeforeObstructionUnique | src/classes/Player.ts:115-122 | A displacement and a probe admit at most one correct outcome of the stepping loop |
| Probe.DistanceFrom | src/classes/Player.ts:115-123 | Resumed at offset y, the loop returns d once y reaches d. Otherwise its result lies between y and d |
| Probe.DistanceFromStops | src/classes/Player.ts:115-123 | Resumed after a clear prefix, the loop returns either d with every offset short of d clear, or the first colliding whole offset below d |
| Probe.Distance | src/classes/Player.ts:112-124 | A nominal displacement d <= 0 is returned as is. For d >= 0 the result lies in [0, d] |
| Probe.DistanceStops | src/classes/Player.ts:115-122 | Stop-before-obstruction: the result is d with every offset below d clear, or a whole k < d with offsets 0..k-1 clear and offset k colliding |
| Probe.MovableDistance | src/classes/Player.ts:126-138 | The loop that pushes one pixel per clear step and sums them on a collision returns the reference distance and stops before the obstruction |
| Probe.FullDistanceWhenClear | src/classes/Player.ts:130-131 | When no whole offset below d collides, the full d is granted |
| Probe.StopsAtObstruction | src/classes/Player.ts:133-134 | When the first colliding offset is k < d, the distance is exactly k: at the obstruction's boundary, not one short and not one into it |
| Probe.StopsFivePixelsShort | src/classes/Player.ts:115-122 | A downward probe from row 0, with every row from 5 down solid and 20 pixels of nominal displacement, stops after exactly 5 pixels |
| Keys.Reverse | src/classes/Player.ts:67 | The reversed list has the same length and holds the elements in the opposite order |
| Keys.FindMovementKey | src/classes/Player.ts:67 | The result is the first of the four movement keys in the list. It is absent exactly when the list holds none of them |
| Keys.LastMovementKey | src/classes/Player.ts:67 | The result is the last movement key in press order. It is absent exactly when none is held |
| Keys.Steer | src/classes/Player.ts:73-82 | `a` and `arrowleft` face left, `d` and `arrowright` face right, and any other key keeps the facing side |
| Movement.Init | src/classes/Player.ts:20-28 | A new actor is idle, has zero walking velocity and the base fall velocity, faces right on map "main", and has its top edge one body height above the origin |
| Movement.Nominal | src/classes/Player.ts:116 | The nominal displacement `sinceUpdate * velocity / 1000` is non-negative for non-negative time and velocity, equals the velocity over one second and is zero for no time or no velocity |
| Movement.BottomRayQuery | src/classes/Player.ts:119 | The ground probe at offset i is the query at `(round(x + 1), round(y + height + i), width - 2, 0)` |
| Movement.LeftRayQuery | src/classes/Player.ts:133 | The leftward probe at offset i is the query at `(round(x - i), round(y + 1), 0, height - 2)` |
| Movement.RightRayQuery | src/classes/Player.ts:147 | The rightward probe at offset i is the query at `(round(x + width + i), round(y + 1), 0, height - 2)` |
| Movement.HasCollisionOnBottom | src/classes/Player.ts:189-191 | Without a tilemap the actor is never grounded |
| Movement.HasCollisionOnLeft | src/classes/Player.ts:193-195 | Without a tilemap the left side is never blocked |
| Movement.HasCollisionOnRight | src/classes/Player.ts:197-199 | Without a tilemap the right side is never blocked |
| Movement.BottomContactIsFirstProbe | src/classes/Player.ts:189-191 | The grounded check is the ground probe at offset 0: `round(x) + 1` is the same column as `round(x + 1)` |
| Movement.LeftContactIsFirstProbe | src/classes/Player.ts:193-195 | The left-blocked check is the leftward probe at offset 0 |
| Movement.RightContactIsFirstProbe | src/classes/Player.ts:197-199 | The right-blocked check is the rightward probe at offset 0 |
| Movement.FallableHeight | src/classes/Player.ts:112-124 | With a non-negative nominal fall, the height granted lies between 0 and the nominal fall |
| Movement.FallableHeightStops | src/classes/Player.ts:115-122 | The fall stops on the first solid row beneath the bottom edge, or covers the full nominal fall when every row short of it is clear |
| Movement.LeftMovableWidth | src/classes/Player.ts:126-138 | With a non-negative nominal walk, the width granted to the left lies between 0 and the nominal walk |
| Movement.LeftMovableWidthStops | src/classes/Player.ts:129-136 | Walking left stops at the first solid column past the left edge |
| Movement.RightMovableWidth | src/classes/Player.ts:140-152 | With a non-negative nominal walk, the width granted to the right lies between 0 and the nominal walk |
| Movement.RightMovableWidthStops | src/classes/Player.ts:143-150 | Walking right stops at the first solid column past the right edge |
| Movement.Intent | src/classes/Player.ts:61-85 | The intent phase never changes position, fall velocity or map |
| Movement.Damped | src/classes/Player.ts:89 | The full width is granted on ground and half of it in the air |
| Movement.MoveHorizontally | src/classes/Player.ts:86-97 | Only `x` changes. A blocked facing side means no move. Otherwise, when the nominal displacement is non-negative, the actor moves towards its facing side by at most that displacement |
| Movement.Accelerate | src/classes/Player.ts:103-108 | Below the maximum the new fall velocity is the old one plus the nominal acceleration when that stays within the maximum, and the maximum otherwise. At or above the maximum it becomes the maximum. It never exceeds the maximum, and with non-negative elapsed time and acceleration it does not lower a velocity at or below the maximum |
| Movement.Fall | src/classes/Player.ts:98-109 | Only `y` and the fall velocity change. On ground the actor stays put and its fall velocity resets. In the air it falls between 0 and its pre-acceleration nominal distance, and its fall velocity becomes the accelerated, clamped value, which with non-negative elapsed time and acceleration does not lower a velocity at or below the maximum |
| Movement.FallStopsBeforeGround | src/classes/Player.ts:102 | In the air the fall covers the probed height, which stops on the ground and not in it |
| Movement.Update | src/classes/Player.ts:59-110 | Only the intent phase sets the facing side, walking velocity and walk state. The map never changes |
| MovementProperties.FallVelocityBounded | src/classes/Player.ts:98-109 | After any tick the fall velocity is at most the maximum, given a base velocity within it |
| MovementProperties.LandingResetsFall | src/classes/Player.ts:98-100 | Ground under the actor after its horizontal move resets the fall velocity and keeps `y` |
| MovementProperties.AirborneFallAccelerates | src/classes/Player.ts:103-105 | In the air after the horizontal move, with non-negative elapsed time and acceleration, a tick does not lower a fall velocity at or below the maximum |
| MovementProperties.FallKeepsVelocityUp | src/classes/Player.ts:101-108 | In the air, with non-negative elapsed time and acceleration, the fall phase alone does not lower a fall velocity at or below the maximum |
| MovementProperties.AirborneFallDistance | src/classes/Player.ts:102 | In the air the actor falls at most the nominal distance of the fall velocity it had before the tick |
| MovementProperties.IdleReset | src/classes/Player.ts:61-65 | Grounded with no key held, the actor stops, its walk ends and it keeps its facing side |
| MovementProperties.AirborneKeepsIntent | src/classes/Player.ts:61 | In the air the keyboard is ignored: facing side, walking velocity and walk state carry over |
| MovementProperties.OtherKeysKeepIntent | src/classes/Player.ts:66-68 | Grounded and holding only non-movement keys, the actor keeps its facing side, walking velocity and walk |
| MovementProperties.LastMovementKeySteers | src/classes/Player.ts:67-83 | Grounded, the last movement key held sets the facing side, and the walking velocity becomes the walking constant. A walk starts now if none was under way and otherwise keeps its start |
| MovementProperties.WalkEndsIff | src/classes/Player.ts:61-65 | A walk under way ends if and only if the actor is grounded with no key held at all |
| MovementProperties.WalkBeginsIff | src/classes/Player.ts:67-71 | An idle actor starts a walk if and only if it is grounded holding some movement key. The walk then starts at the current time |
| MovementProperties.FullStepWhenClear | src/classes/Player.ts:86-97 | With the facing side open and every probe offset clear, the actor moves the full nominal displacement on ground and half of it in the air |
| MovementProperties.StopsAtObstructionAhead | src/classes/Player.ts:86-97 | An actor walking at an obstruction first hit at offset k below the nominal displacement moves exactly k pixels towards its facing side on ground and k / 2 in the air |
| MovementProperties.WalksFivePixelsIntoWall | src/classes/Player.ts:86-97 | Standing on a floor and walking right at 20 pixels a second towards a wall 5 pixels past its right edge, the actor moves exactly 5 pixels in one second |
| MovementProperties.OpenWorldLeftClear | src/classes/Player.ts:178-187 | Without a tilemap every leftward probe offset is clear |
| MovementProperties.OpenWorldRightClear | src/classes/Player.ts:178-187 | Without a tilemap every rightward probe offset is clear |
| MovementProperties.OpenWorldBottomClear | src/classes/Player.ts:178-187 | Without a tilemap every ground probe offset is clear |
| MovementProperties.OpenWorldIgnoresKeys | src/classes/Player.ts:61 | Without a tilemap the actor is always airborne, so the keyboard never changes its walk, walking velocity or facing side |
| MovementProperties.OpenWorldMove | src/classes/Player.ts:86-97 | Without a tilemap the horizontal move is exactly half the nominal displacement towards the facing side |
| MovementProperties.OpenWorldDrift | src/classes/Player.ts:59-110 | Without a tilemap a whole tick moves `x` by half the nominal displacement towards the facing side |
| MovementProperties.OpenWorldFall | src/classes/Player.ts:101-102 | Without a tilemap a whole tick moves `y` by the full nominal fall of the velocity held before the tick |
| MovementProperties.InitValid | src/classes/Player.ts:20-28 | A new actor satisfies the state invariant: fall velocity within its maximum, zero walking velocity when idle, the walking constant while walking |
| MovementProperties.UpdatePreservesValid | src/classes/Player.ts:59-110 | Every tick preserves that invariant |
| MovementProperties.FrameAfterTick | src/classes/Player.ts:69-71 | A walk never starts after the tick that observes it, so the column drawn at that tick is one of the five frames |
| Animation.Trunc | src/classes/Player.ts:158 | Truncation towards zero: below a non-negative input by less than 1, above a negative one by less than 1 |
| Animation.Remainder | src/classes/Player.ts:158 | JavaScript's `%` of a non-negative dividend by a positive divisor lies in [0, divisor) |
| Animation.RemainderOfSplit | src/classes/Player.ts:158 | The remainder of m whole divisors plus r in [0, b) is r |
| Animation.RemainderPeriodic | src/classes/Player.ts:158 | Adding one divisor to a non-negative dividend leaves the remainder unchanged |
| Animation.SourceX | src/classes/Player.ts:154-161 | The column offset is 0 when idle. With a positive `walkSpeed` and a walk that started at or before `now`, it is a whole frame width in [0, 5 * width) |
| Animation.SourceXCycle | src/classes/Player.ts:154-161 | m whole cycles, k whole frames and less than one more frame into a walk, column k is drawn |
| Animation.SourceXPeriodic | src/classes/Player.ts:154-161 | While walking, with a positive `walkSpeed` and `now` at or after the walk's start, the column repeats with period 5 * walkSpeed |
| Animation.SourceY | src/classes/Player.ts:163-176 | The row offset is a whole frame height in row 0, 1, 4 or 5. The row is odd exactly when walking and at least 4 exactly when facing left |
| Animation.SourceYDistinguishes | src/classes/Player.ts:163-176 | Two actors share a row exactly when they face the same side and are both walking or both idle |

## Left out

- `render` with `drawImage`, the camera offsets and the scale factor (lines 49-57): drawing side effects with no checkable logic.
- `getHeight`, `getX`, `getY` and `isOnMap` (lines 33-47): plain accessors of fields the model exposes directly.
- The `definables` registry and its `instanceof Tilemap` test (lines 179-182) become a map from map name to tilemap predicate. A missing registry, a missing entry and an entry that is not a tilemap all appear as a name without an entry, which the source treats alike.
- `Tilemap.hasCollisionInRectangle` is not part of this model. It is an uninterpreted predicate on four integers.
- The constructor's `nanoid()` identifier and the `Definable` base class (lines 29-31): identity bookkeeping with no effect on movement.
- The global `state` object becomes the explicit `Tick` input, and the clock is the `now` field.
- IEEE-754 doubles are modelled as exact reals. `Math.round` and `Math.floor` are exact, and rounding error and NaN are not modelled.
- `src/constants/*` is not part of this model. The five constants are fields of `Config`, and the results hold for every value of them that meets the stated preconditions.
- `src/functions/getSumOfNumbers.ts` is not part of this model. The call is modelled by `Probe.Sum` as the sum of its argument, a list of ones (`Probe.SumOfOnes`).
- `src/classes/AudioSource.ts`: a wrapper around an audio library, driven by its callbacks, with no movement logic.
- `src/functions/define/defineImageSources.ts`: registers image sources, with no logic.
- Animation.SourceX: requires a non-zero `walkSpeed` while walking. With zero the source divides by zero and draws column NaN, which exact reals cannot express.
- Probe.MovableDistance: one loop parametrised by a `Ray` stands for the three copies in `getFallableHeight`, `getLeftMovableWidth` and `getRightMovableWidth`, which differ only in the probe rectangle and in the velocity behind the nominal displacement `d` (`fallVelocity` at line 116, `movementVelocity` at lines 130 and 144). The loop takes both as parameters.
