/** Sprite-sheet frame selection.

    The sheet has one column per walk-cycle frame (five of them) and one row per
    combination of facing side and walking state. Both offsets are derived from
    the actor's state and the current time alone.
 */
module Animation {
  import opened Keys
  import opened Movement
  import opened RealArith

  /** Number of frames in one walk cycle. */
  const CycleFrames: int := 5

  /** Truncation towards zero. */
  function Trunc(v: real): (r: int)
    ensures 0.0 <= v ==> r as real <= v < r as real + 1.0
    ensures v < 0.0 ==> r as real - 1.0 < v <= r as real
  {
    if v >= 0.0 then v.Floor else -((-v).Floor)
  }

  /** The `%` of JavaScript numbers: the remainder of truncating division,
      which carries the sign of the dividend. A non-negative dividend leaves a
      remainder in [0, b). */
  function Remainder(a: real, b: real): (r: real)
    requires b != 0.0
    ensures 0.0 <= a && 0.0 < b ==> 0.0 <= r < b
  {
    var q := Trunc(a / b) as real;
    assert 0.0 <= a && 0.0 < b ==> 0.0 <= a - b * q < b by {
      if 0.0 <= a && 0.0 < b {
        QuotientBetween(a, b, 0.0, a / b + 1.0) by {
          DivLowerBound(a, b, a / b);
          DivUpperBound(a, b, a / b + 1.0);
        }
        DivLowerBound(a, b, q);
        DivUpperBound(a, b, q + 1.0);
        BelowNext(a, q, b);
      }
    }
    a - b * q
  }

  /** The remainder of `m` whole divisors plus `r` in [0, b) is `r`. */
  lemma RemainderOfSplit(a: real, b: real, m: nat, r: real)
    requires 0.0 < b && 0.0 <= r < b
    requires a == m as real * b + r
    ensures Remainder(a, b) == r
  {
    FloorOfQuotient(a, b, m);
    assert Trunc(a / b) == m;
  }

  /** Shifting a non-negative dividend by one divisor leaves the remainder alone. */
  lemma RemainderPeriodic(a: real, b: real)
    requires 0.0 <= a && 0.0 < b
    ensures Remainder(a + b, b) == Remainder(a, b)
  {
    var q := Trunc(a / b);
    var r := Remainder(a, b);
    assert 0.0 <= a / b;
    assert a == q as real * b + r;
    RemainderOfSplit(a + b, b, q + 1, r);
  }

  /** Horizontal sheet offset: the walk-cycle column times the frame width,
      where each column lasts `walkSpeed` milliseconds; column 0 when idle. */
  function SourceX(p: Player, now: real, walkSpeed: real): (r: int)
    requires p.walk.Walking? ==> walkSpeed != 0.0
    ensures p.walk.Idle? ==> r == 0
    ensures p.walk.Walking? && 0.0 < walkSpeed && p.walk.since <= now ==>
              0 <= r < CycleFrames * Width && r % Width == 0
  {
    match p.walk
    case Idle => 0
    case Walking(since) =>
      var totalDuration := walkSpeed * 5.0;
      var column := (Remainder(now - since, totalDuration) / walkSpeed).Floor;
      assert 0.0 < walkSpeed && since <= now ==> 0 <= column < CycleFrames by {
        if 0.0 < walkSpeed && since <= now {
          QuotientBetween(Remainder(now - since, totalDuration), walkSpeed, 0.0, 5.0);
        }
      }
      column * Width
  }

  /** The walk cycle in full: `m` whole cycles, `k` whole frames and `u` more
      milliseconds after the walk began, column `k` is shown. */
  lemma SourceXCycle(p: Player, walkSpeed: real, m: nat, k: int, u: real)
    requires p.walk.Walking? && 0.0 < walkSpeed
    requires 0 <= k < CycleFrames && 0.0 <= u < walkSpeed
    ensures SourceX(p, p.walk.since + (m * CycleFrames + k) as real * walkSpeed + u, walkSpeed)
            == k * Width
  {
    var total := walkSpeed * 5.0;
    var within := k as real * walkSpeed + u;
    var elapsed := m as real * total + within;
    assert p.walk.since + (m * CycleFrames + k) as real * walkSpeed + u - p.walk.since == elapsed;
    WithinMultiple(k as real, u, walkSpeed, 5.0);
    RemainderOfSplit(elapsed, total, m, within);
    FloorOfQuotient(within, walkSpeed, k);
  }

  /** Once walking, the column repeats every full cycle. */
  lemma SourceXPeriodic(p: Player, now: real, walkSpeed: real)
    requires p.walk.Walking? && 0.0 < walkSpeed && p.walk.since <= now
    ensures SourceX(p, now + 5.0 * walkSpeed, walkSpeed)
            == SourceX(p, now, walkSpeed)
  {
    var total := walkSpeed * 5.0;
    assert now + 5.0 * walkSpeed - p.walk.since == (now - p.walk.since) + total;
    RemainderPeriodic(now - p.walk.since, total);
  }

  /** Vertical sheet offset: the row of the facing side and walking state,
      times the frame height. Rows 0 and 4 are standing right and left, rows 1
      and 5 walking right and left. */
  function SourceY(p: Player): (r: int)
    ensures r % Height == 0 && r / Height in {0, 1, 4, 5}
    ensures (r / Height) % 2 == 1 <==> p.walk.Walking?
    ensures r / Height >= 4 <==> p.direction == Left
  {
    if p.walk.Walking? then
      match p.direction
      case Left => Height * 5
      case Right => Height
    else if p.direction == Left then Height * 4
    else 0
  }

  /** The row identifies the facing side and the walking state, and nothing else. */
  lemma SourceYDistinguishes(p: Player, q: Player)
    ensures SourceY(p) == SourceY(q) <==>
              p.direction == q.direction && p.walk.Walking? == q.walk.Walking?
  {
  }
}
