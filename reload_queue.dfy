/**
 * The reload queue shared by `Quiver` and `InfQuiver`: `available` arrows in hand and
 * one countdown per arrow that is reloading. A tick decrements every countdown, in
 * queue order; a countdown that reaches zero or less hands its arrow back.
 */
module ReloadQueue {
  import opened Numerics

  datatype Reload = Reload(available: int, queue: seq<int>)

  /** The countdowns still running after one decrement, in their original order. */
  function Survivors(q: seq<int>): (r: seq<int>)
    ensures |r| <= |q|
    ensures forall t :: t in r ==> t >= 1
  {
    if q == [] then []
    else if q[0] - 1 <= 0 then Survivors(q[1..])
    else [q[0] - 1] + Survivors(q[1..])
  }

  /** How many countdowns finish on one decrement. */
  function Ready(q: seq<int>): (n: nat)
    ensures n <= |q|
  {
    if q == [] then 0
    else (if q[0] - 1 <= 0 then 1 else 0) + Ready(q[1..])
  }

  /** Every countdown either survives or hands back its arrow. */
  lemma {:induction false} SurvivorsPlusReady(q: seq<int>)
    ensures |Survivors(q)| + Ready(q) == |q|
  {
    if q != [] {
      SurvivorsPlusReady(q[1..]);
    }
  }

  lemma {:induction false} SurvivorsAppend(a: seq<int>, b: seq<int>)
    ensures Survivors(a + b) == Survivors(a) + Survivors(b)
    ensures Ready(a + b) == Ready(a) + Ready(b)
  {
    if a == [] {
      assert a + b == b;
    } else {
      assert (a + b)[0] == a[0] && (a + b)[1..] == a[1..] + b;
      SurvivorsAppend(a[1..], b);
    }
  }

  /**
   * One step of the in-place rotation that implements a tick: with the first `i`
   * countdowns already processed, the queue is the unprocessed suffix followed by the
   * survivors so far; taking the front countdown and, if it survives, putting it back at
   * the end keeps that shape for `i + 1`.
   */
  lemma RotateStep(q0: seq<int>, i: int, r: seq<int>)
    requires 0 <= i < |q0| && r == q0[i..] + Survivors(q0[..i])
    ensures r != [] && r[0] == q0[i]
    ensures r[0] - 1 <= 0 ==>
      r[1..] == q0[i + 1..] + Survivors(q0[..i + 1]) && Ready(q0[..i + 1]) == Ready(q0[..i]) + 1
    ensures r[0] - 1 > 0 ==>
      r[1..] + [r[0] - 1] == q0[i + 1..] + Survivors(q0[..i + 1]) && Ready(q0[..i + 1]) == Ready(q0[..i])
  {
    assert q0[..i + 1] == q0[..i] + [q0[i]];
    SurvivorsAppend(q0[..i], [q0[i]]);
    assert [q0[i]][1..] == [];
    assert q0[i..] == [q0[i]] + q0[i + 1..];
    assert r[1..] == q0[i + 1..] + Survivors(q0[..i]);
  }

  /**
   * One `tick()`: each finished countdown adds one arrow, capped at `maxAmmo`.
   * While `available <= maxAmmo` the step-by-step cap equals one cap at the end.
   */
  function Tick(s: Reload, maxAmmo: int): Reload
  {
    Reload(Min(s.available + Ready(s.queue), maxAmmo), Survivors(s.queue))
  }

  /** One `tryConsume()`: an arrow leaves the hand and its cooldown joins the back of the queue. */
  function Consume(s: Reload, cooldownTicks: int): (r: (Reload, bool))
    ensures r.1 <==> s.available > 0
    ensures r.1 ==> r.0 == Reload(s.available - 1, s.queue + [cooldownTicks])
    ensures !r.1 ==> r.0 == s
  {
    if s.available <= 0 then (s, false)
    else (Reload(s.available - 1, s.queue + [cooldownTicks]), true)
  }

  /** Arrows in hand plus arrows reloading is the capacity. */
  predicate Conserved(s: Reload, maxAmmo: int) { s.available + |s.queue| == maxAmmo }

  /** Ticking and consuming both keep the arrow count; ticking never loses an arrow to the cap. */
  lemma TickConserves(s: Reload, maxAmmo: int)
    requires Conserved(s, maxAmmo)
    ensures Conserved(Tick(s, maxAmmo), maxAmmo)
    ensures Tick(s, maxAmmo).available == s.available + Ready(s.queue)
  {
    SurvivorsPlusReady(s.queue);
  }

  lemma ConsumeConserves(s: Reload, maxAmmo: int, cooldownTicks: int)
    requires Conserved(s, maxAmmo)
    ensures Conserved(Consume(s, cooldownTicks).0, maxAmmo)
  {
  }

  /** The state after `k` ticks. */
  function Ticks(s: Reload, maxAmmo: int, k: nat): Reload
  {
    if k == 0 then s else Tick(Ticks(s, maxAmmo, k - 1), maxAmmo)
  }

  /** The countdowns still running after `k` decrements: those above `k`, lowered by `k`. */
  function Decayed(q: seq<int>, k: int): (r: seq<int>)
  {
    if q == [] then []
    else if q[0] > k then [q[0] - k] + Decayed(q[1..], k)
    else Decayed(q[1..], k)
  }

  /** How many countdowns are at most `k`. */
  function AtMost(q: seq<int>, k: int): nat
  {
    if q == [] then 0
    else (if q[0] <= k then 1 else 0) + AtMost(q[1..], k)
  }

  lemma {:induction false} DecayStep(q: seq<int>, k: nat)
    ensures Survivors(Decayed(q, k)) == Decayed(q, k + 1)
    ensures Ready(Decayed(q, k)) == AtMost(q, k + 1) - AtMost(q, k)
  {
    if q != [] {
      DecayStep(q[1..], k);
      if q[0] > k {
        assert Decayed(q, k) == [q[0] - k] + Decayed(q[1..], k);
        assert Decayed(q, k)[1..] == Decayed(q[1..], k);
      }
    }
  }

  lemma {:induction false} DecayedZero(q: seq<int>)
    requires forall t :: t in q ==> t >= 1
    ensures Decayed(q, 0) == q && AtMost(q, 0) == 0
  {
    if q != [] {
      assert q[0] in q && forall t :: t in q[1..] ==> t in q;
      DecayedZero(q[1..]);
      assert q == [q[0]] + q[1..];
    }
  }

  /**
   * After `k` ticks exactly the arrows whose countdown was at most `k` are back in hand,
   * and every other countdown has dropped by `k`: a countdown of `c >= 1` returns its
   * arrow on tick `c` and not before.
   */
  lemma {:induction false} TicksClosedForm(s: Reload, maxAmmo: int, k: nat)
    requires Conserved(s, maxAmmo) && forall t :: t in s.queue ==> t >= 1
    ensures Ticks(s, maxAmmo, k) == Reload(s.available + AtMost(s.queue, k), Decayed(s.queue, k))
    ensures Conserved(Ticks(s, maxAmmo, k), maxAmmo)
  {
    if k == 0 {
      DecayedZero(s.queue);
    } else {
      TicksClosedForm(s, maxAmmo, k - 1);
      var p := Ticks(s, maxAmmo, k - 1);
      TickConserves(p, maxAmmo);
      DecayStep(s.queue, k - 1);
    }
  }

  /**
   * The arrow just consumed comes back exactly `cooldownTicks` ticks later: after one
   * tick fewer its countdown still sits, at 1, at the back of the queue and the hand
   * holds only the arrows returned by older countdowns; one tick more hands it back.
   */
  lemma ConsumedArrowReturns(s: Reload, maxAmmo: int, cooldownTicks: int)
    requires Conserved(s, maxAmmo) && forall t :: t in s.queue ==> t >= 1
    requires s.available > 0 && cooldownTicks >= 1
    ensures var c := Consume(s, cooldownTicks).0;
      Ticks(c, maxAmmo, cooldownTicks - 1).queue == Decayed(s.queue, cooldownTicks - 1) + [1] &&
      Ticks(c, maxAmmo, cooldownTicks - 1).available == s.available - 1 + AtMost(s.queue, cooldownTicks - 1) &&
      Ticks(c, maxAmmo, cooldownTicks).queue == Decayed(s.queue, cooldownTicks) &&
      Ticks(c, maxAmmo, cooldownTicks).available == s.available + AtMost(s.queue, cooldownTicks)
  {
    var c := Consume(s, cooldownTicks).0;
    TicksClosedForm(c, maxAmmo, cooldownTicks - 1);
    TicksClosedForm(c, maxAmmo, cooldownTicks);
    DecayedAppendOne(s.queue, cooldownTicks, cooldownTicks - 1);
    DecayedAppendOne(s.queue, cooldownTicks, cooldownTicks);
  }

  lemma {:induction false} DecayedAppendOne(q: seq<int>, t: int, k: int)
    ensures Decayed(q + [t], k) == Decayed(q, k) + (if t > k then [t - k] else [])
    ensures AtMost(q + [t], k) == AtMost(q, k) + (if t <= k then 1 else 0)
  {
    if q == [] {
      assert [t][1..] == [];
    } else {
      assert (q + [t])[1..] == q[1..] + [t];
      DecayedAppendOne(q[1..], t, k);
    }
  }
}
