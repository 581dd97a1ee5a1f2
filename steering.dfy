/**
 * The ground enemies' shared horizontal AI (the skeleton and the witch run the
 * same rules with different tuning): turning towards the player, and the speed
 * update that chases to a stand-off distance.
 */
module Steering {
  import opened Numerics

  /** A facing: 1 is right, -1 is left. */
  type Dir = d: int | d == 1 || d == -1 witness 1

  /** Turning: a clear horizontal offset (more than 2 px) faces its sign; otherwise the facing is kept. */
  function Face(facing: Dir, dx: real): (f: Dir)
    ensures AbsR(dx) > 2.0 ==> (f == 1 <==> dx > 0.0)
    ensures AbsR(dx) <= 2.0 ==> f == facing
  {
    if AbsR(dx) > 2.0 then Sign(dx) else facing
  }

  /** Half-width of the dead zone around the stand-off distance. */
  const Slack: real := 24.0

  /** One actor's chase tuning. */
  datatype Tuning = Tuning(standOff: real, maxSpeed: real, accel: real, friction: real, triggerRange: real) {
    predicate Valid()
    {
      Slack < standOff && 0.0 < accel && 0.0 < maxSpeed && 0.0 <= friction <= 1.0
    }
  }

  /** The speed the chase aims for: close in beyond the stand-off band, back off inside it, else stop. */
  function Desired(t: Tuning, dx: real): real
  {
    var dist := AbsR(dx);
    if dist > t.standOff + Slack then t.maxSpeed * Sign(dx) as real
    else if dist < t.standOff - Slack then -t.maxSpeed * Sign(dx) as real
    else 0.0
  }

  /** One chase step: friction when no speed is wanted, else one `accel` nudge towards it, capped at `maxSpeed`. */
  function Chase(t: Tuning, vx: real, dx: real): real
  {
    var desired := Desired(t, dx);
    if desired == 0.0 then vx * t.friction
    else
      var v := vx + t.accel * Sign(desired - vx) as real;
      if AbsR(v) > t.maxSpeed then t.maxSpeed * Sign(v) as real else v
  }

  /**
   * The new horizontal speed: stopped while dying, damped while hurt or busy
   * (swinging, casting), chasing within range, else friction.
   */
  function Steer(t: Tuning, vx: real, dx: real, dying: bool, hurt: bool, busy: bool): real
  {
    if dying then 0.0
    else if hurt then vx * 0.85
    else if busy then vx * 0.70
    else if AbsR(dx) < t.triggerRange then Chase(t, vx, dx)
    else vx * t.friction
  }

  /** Scaling by a factor in [0, 1] never grows a speed. */
  lemma Damped(vx: real, k: real, cap: real)
    requires AbsR(vx) <= cap && 0.0 <= k <= 1.0
    ensures AbsR(vx * k) <= cap
  {
    if vx > 0.0 {
      MulLe(0.0, k, vx);
      MulLe(k, 1.0, vx);
      assert 0.0 <= k * vx <= vx;
    } else if vx < 0.0 {
      MulLe(0.0, k, -vx);
      MulLe(k, 1.0, -vx);
      assert 0.0 <= k * -vx <= -vx;
    }
  }

  /** Steering never pushes an actor past its top speed. */
  lemma SteerBounded(t: Tuning, vx: real, dx: real, dying: bool, hurt: bool, busy: bool)
    requires t.Valid() && AbsR(vx) <= t.maxSpeed
    ensures AbsR(Steer(t, vx, dx, dying, hurt, busy)) <= t.maxSpeed
  {
    if dying {
    } else if hurt {
      Damped(vx, 0.85, t.maxSpeed);
    } else if busy {
      Damped(vx, 0.70, t.maxSpeed);
    } else if AbsR(dx) >= t.triggerRange || Desired(t, dx) == 0.0 {
      Damped(vx, t.friction, t.maxSpeed);
    }
  }

  /**
   * Chasing: beyond the stand-off band (and within range) an actor below top
   * speed towards the player speeds up towards it; inside the band it backs away.
   */
  lemma ChaseDirection(t: Tuning, vx: real, dx: real)
    requires t.Valid() && AbsR(dx) < t.triggerRange
    ensures var r := Steer(t, vx, dx, false, false, false);
      (dx > t.standOff + Slack && vx < t.maxSpeed ==> vx < r <= t.maxSpeed) &&
      (dx < -(t.standOff + Slack) && vx > -t.maxSpeed ==> -t.maxSpeed <= r < vx) &&
      (0.0 < dx < t.standOff - Slack && vx > -t.maxSpeed ==> -t.maxSpeed <= r < vx) &&
      (-(t.standOff - Slack) < dx < 0.0 && vx < t.maxSpeed ==> vx < r <= t.maxSpeed)
  {
  }
}
