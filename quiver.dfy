/**
 * `Quiver`: a fixed number of arrows, each spent arrow reloading on its own countdown.
 * The countdowns live in a FIFO queue that `Tick` rotates in place; the queue's meaning
 * is the value `ReloadQueue.Reload`, whose properties are proved there.
 */
module Quiver {
  import opened Numerics
  import RQ = ReloadQueue

  class Quiver {
    const maxAmmo: int
    const cooldownTicks: int
    var available: int
    /** Ticks remaining for each arrow being reloaded, oldest first. */
    var reloading: seq<int>

    function State(): RQ.Reload
      reads this
    {
      RQ.Reload(available, reloading)
    }

    /**
     * Every arrow is either in hand or reloading; the hand is never negative once it
     * started non-negative; with a positive cooldown every pending countdown is positive.
     */
    predicate Valid()
      reads this
    {
      RQ.Conserved(State(), maxAmmo) &&
      (0 <= maxAmmo ==> 0 <= available) &&
      (1 <= cooldownTicks ==> forall t :: t in reloading ==> t >= 1)
    }

    /** A fresh quiver is full and has nothing reloading. */
    constructor(maxAmmo: int, cooldownTicks: int)
      ensures this.maxAmmo == maxAmmo && this.cooldownTicks == cooldownTicks
      ensures Ammo() == maxAmmo && reloading == []
      ensures Valid()
    {
      this.maxAmmo := maxAmmo;
      this.cooldownTicks := cooldownTicks;
      available := maxAmmo;
      reloading := [];
    }

    /**
     * Takes each of the `n` countdowns off the front once, lowers it by one, and either
     * hands its arrow back (capped at `maxAmmo`) or puts it back at the end of the queue.
     */
    method Tick()
      requires Valid()
      modifies this
      ensures Valid()
      ensures State() == RQ.Tick(old(State()), maxAmmo)
    {
      ghost var q0 := reloading;
      ghost var a0 := available;
      var n := |reloading|;
      var i := 0;
      while i < n
        invariant 0 <= i <= n == |q0|
        invariant reloading == q0[i..] + RQ.Survivors(q0[..i])
        invariant available == Min(a0 + RQ.Ready(q0[..i]), maxAmmo)
      {
        RQ.RotateStep(q0, i, reloading);
        var t := reloading[0] - 1;
        reloading := reloading[1..];
        if t <= 0 {
          available := Min(available + 1, maxAmmo);
        } else {
          reloading := reloading + [t];
        }
        i := i + 1;
      }
      assert q0[..n] == q0;
      RQ.TickConserves(old(State()), maxAmmo);
    }

    /** An arrow can be fired exactly when consuming one would succeed. */
    predicate CanFire()
      reads this
      ensures CanFire() <==> RQ.Consume(State(), cooldownTicks).1
    {
      available > 0
    }

    /** Spends one arrow if there is one and starts its cooldown at the back of the queue. */
    method TryConsume() returns (ok: bool)
      requires Valid()
      modifies this
      ensures Valid()
      ensures (State(), ok) == RQ.Consume(old(State()), cooldownTicks)
    {
      if available <= 0 {
        return false;
      }
      available := available - 1;
      reloading := reloading + [cooldownTicks];
      return true;
    }

    /** The arrows in hand, never more than the capacity. */
    function Ammo(): (n: int)
      reads this
      ensures Valid() ==> n + |reloading| == maxAmmo
      ensures Valid() && 0 <= maxAmmo ==> 0 <= n <= maxAmmo
    {
      available
    }
  }
}
