/**
 * `InfQuiver`: the reload queue of `Quiver` behind a pause guard. While the game is
 * paused neither ticking nor consuming changes anything.
 */
module InfQuiver {
  import opened Numerics
  import RQ = ReloadQueue
  import GS = GameState

  class InfQuiver {
    const maxAmmo: int
    const cooldownTicks: int
    var available: int
    /** Ticks remaining for each arrow being reloaded, oldest first. */
    var reloading: seq<int>

    function State(): RQ.Reload
      reads this
    {
      RQ.Reload(available, reloading)
    }

    predicate Valid()
      reads this
    {
      RQ.Conserved(State(), maxAmmo) &&
      (0 <= maxAmmo ==> 0 <= available) &&
      (1 <= cooldownTicks ==> forall t :: t in reloading ==> t >= 1)
    }

    /** A fresh quiver is full and has nothing reloading (defaults 5 arrows, 30 ticks). */
    constructor(maxAmmo: int, cooldownTicks: int)
      ensures this.maxAmmo == maxAmmo && this.cooldownTicks == cooldownTicks
      ensures Ammo() == maxAmmo && reloading == []
      ensures Valid()
    {
      this.maxAmmo := maxAmmo;
      this.cooldownTicks := cooldownTicks;
      available := maxAmmo;
      reloading := [];
    }

    /** Like `Quiver.Tick`, but a paused game leaves every countdown where it is. */
    method Tick(gameState: GS.GameState)
      requires Valid()
      modifies this
      ensures Valid()
      ensures gameState.paused ==> State() == old(State())
      ensures !gameState.paused ==> State() == RQ.Tick(old(State()), maxAmmo)
    {
      if gameState.paused {
        return;
      }
      RunTimers();
    }

    /** The unpaused body of `Tick`: one pass of decrements over the queue, rotating it in place. */
    method RunTimers()
      requires Valid()
      modifies this
      ensures Valid()
      ensures State() == RQ.Tick(old(State()), maxAmmo)
    {
      ghost var q0 := reloading;
      ghost var a0 := available;
      var n := |reloading|;
      var i := 0;
      while i < n
        invariant 0 <= i <= n == |q0|
        invariant reloading == q0[i..] + RQ.Survivors(q0[..i])
        invariant available == Min(a0 + RQ.Ready(q0[..i]), maxAmmo)
      {
        RQ.RotateStep(q0, i, reloading);
        var t := reloading[0] - 1;
        reloading := reloading[1..];
        if t <= 0 {
          available := Min(available + 1, maxAmmo);
        } else {
          reloading := reloading + [t];
        }
        i := i + 1;
      }
      assert q0[..n] == q0;
      RQ.TickConserves(old(State()), maxAmmo);
    }

    predicate CanFire()
      reads this
      ensures CanFire() <==> RQ.Consume(State(), cooldownTicks).1
    {
      available > 0
    }

    /** Refuses while paused; otherwise spends one arrow as `Quiver.TryConsume` does. */
    method TryConsume(gameState: GS.GameState) returns (ok: bool)
      requires Valid()
      modifies this
      ensures Valid()
      ensures gameState.paused ==> !ok && State() == old(State())
      ensures !gameState.paused ==> (State(), ok) == RQ.Consume(old(State()), cooldownTicks)
    {
      if gameState.paused {
        return false;
      }
      if available <= 0 {
        return false;
      }
      available := available - 1;
      reloading := reloading + [cooldownTicks];
      return true;
    }

    function Ammo(): (n: int)
      reads this
      ensures Valid() ==> n + |reloading| == maxAmmo
      ensures Valid() && 0 <= maxAmmo ==> 0 <= n <= maxAmmo
    {
      available
    }
  }
}
