/**
 * `PickupQuiver`: a clamped arrow counter with no timed reload. Only pickups
 * (`AddAmmo`) and the explicit setter raise it; firing lowers it by one.
 */
module PickupQuiver {
  import opened Numerics
  import GS = GameState

  class PickupQuiver {
    const maxAmmo: int
    var available: int

    predicate Valid()
      reads this
    {
      0 <= available <= maxAmmo
    }

    /**
     * Starts with `initialAmmo` clamped to `[0, maxAmmo]`; a negative capacity makes
     * that clamp throw, so it is excluded.
     */
    constructor(maxAmmo: int, initialAmmo: int)
      requires 0 <= maxAmmo
      ensures this.maxAmmo == maxAmmo
      ensures available == CoerceIn(initialAmmo, 0, maxAmmo)
      ensures Valid()
    {
      this.maxAmmo := maxAmmo;
      available := CoerceIn(initialAmmo, 0, maxAmmo);
    }

    /** The default arguments: a capacity of 10, and the initial ammo defaults to the capacity, so it starts full. */
    constructor Default()
      ensures maxAmmo == 10 && available == maxAmmo
      ensures Valid()
    {
      maxAmmo := 10;
      available := 10;
    }

    function Ammo(): (n: int)
      reads this
      ensures Valid() ==> 0 <= n <= maxAmmo
    {
      available
    }

    function Capacity(): (n: int)
      reads this
      ensures Valid() ==> 0 <= available <= n
    {
      maxAmmo
    }

    predicate CanFire()
      reads this
      ensures CanFire() <==> available >= 1
    {
      available > 0
    }

    /** Refuses while paused or empty; otherwise spends exactly one arrow. */
    method TryConsume(gameState: GS.GameState) returns (ok: bool)
      requires Valid()
      modifies this
      ensures Valid()
      ensures ok <==> !gameState.paused && old(available) > 0
      ensures available == if ok then old(available) - 1 else old(available)
    {
      if gameState.paused {
        return false;
      }
      if available <= 0 {
        return false;
      }
      available := available - 1;
      return true;
    }

    /**
     * Adds what fits of a pickup: nothing when full, otherwise the request floored at
     * zero and capped by the free room. Returns the number added.
     */
    method AddAmmo(amount: int) returns (added: int)
      requires Valid()
      modifies this
      ensures Valid()
      ensures old(available) == maxAmmo ==> added == 0
      ensures old(available) < maxAmmo ==> added == Min(Max(amount, 0), maxAmmo - old(available))
      ensures 0 <= added && available == old(available) + added
    {
      var room := maxAmmo - available;
      if room <= 0 {
        return 0;
      }
      added := Min(Max(amount, 0), room);
      available := available + added;
    }

    /** Sets the count, clamped to `[0, maxAmmo]`. */
    method SetAmmoUnsafe(value: int)
      requires Valid()
      modifies this
      ensures Valid()
      ensures available == CoerceIn(value, 0, maxAmmo)
    {
      available := CoerceIn(value, 0, maxAmmo);
    }
  }
}
