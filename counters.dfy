/** The per-tick counter rules of BaseEntity.entityBaseTick and checkBlockCollision:
    fire ticks, no-damage ticks, the portal-residency counter and the age counters. */
module Counters {

  /** The value of inPortalTicks at which the portal-enter event fires. */
  const PortalTrigger: int := 80

  /** checkBlockCollision: touching a portal raises a counter below 80 to 80 and
      increments it otherwise; no portal contact resets it. */
  function NextPortalTicks(c: int, touching: bool): (r: int)
    ensures !touching ==> r == 0
    ensures touching ==> r >= PortalTrigger && r >= c && (c >= PortalTrigger ==> r == c + 1)
    ensures touching ==> (r == PortalTrigger <==> c < PortalTrigger)
  {
    if touching then (if c < PortalTrigger then PortalTrigger else c + 1) else 0
  }

  /** The counter after each tick of an uninterrupted stay in a portal, starting from `c0`:
      the first contact sets it, and every later tick adds one. */
  function Dwell(c0: int, n: nat): (s: seq<int>)
    ensures |s| == n
    ensures forall i :: 0 <= i < n ==> s[i] == NextPortalTicks(c0, true) + i
    decreases n
  {
    if n == 0 then [] else [NextPortalTicks(c0, true)] + Dwell(NextPortalTicks(c0, true), n - 1)
  }

  /** During an uninterrupted stay the counter strictly increases and is never below 80. */
  lemma DwellIncreasing(c0: int, n: nat, i: nat, j: nat)
    requires i < j < n
    ensures PortalTrigger <= Dwell(c0, n)[i] < Dwell(c0, n)[j]
  {
  }

  /** The event condition `inPortalTicks == 80` holds at most once per stay. */
  lemma PortalFiresAtMostOnce(c0: int, n: nat, i: nat, j: nat)
    requires i < j < n
    ensures !(Dwell(c0, n)[i] == PortalTrigger && Dwell(c0, n)[j] == PortalTrigger)
  {
    DwellIncreasing(c0, n, i, j);
  }

  /** Entering from outside (counter 0, as no contact leaves it) fires on the first tick of contact. */
  lemma PortalFiresOnEntry(n: nat)
    requires n > 0
    ensures Dwell(0, n)[0] == PortalTrigger
  {
  }

  /** The fire step of entityBaseTick on (fireTicks, ON_FIRE flag). `showsFlame` is
      "not a player, or a player who is not a spectator". */
  function FireStep(ft: int, onFire: bool, tickDiff: int, fireProof: bool, showsFlame: bool): (r: (int, bool))
    ensures ft <= 0 ==> r == (ft, onFire)
    ensures ft > 0 ==> r.0 >= 0
    ensures ft > 0 && fireProof ==> r.0 == (if ft - 4 * tickDiff > 0 then ft - 4 * tickDiff else 0)
    ensures ft > 0 && !fireProof ==> r.0 == (if ft - tickDiff > 0 then ft - tickDiff else 0)
    ensures ft > 0 && r.0 == 0 ==> !r.1
    ensures ft > 0 && r.0 > 0 ==> r.1 == (onFire || (!fireProof && showsFlame))
  {
    if ft <= 0 then (ft, onFire)
    else
      var n := if fireProof then (if ft - 4 * tickDiff < 0 then 0 else ft - 4 * tickDiff) else ft - tickDiff;
      if n <= 0 then (0, false)
      else (n, if !fireProof && showsFlame then true else onFire)
  }

  /** Whether the fire step attacks with FIRE_TICK damage (before lowering the counter). */
  predicate FireDamageDue(ft: int, tickDiff: int, fireProof: bool, fireResistant: bool) {
    ft > 0 && !fireProof && !fireResistant && (ft % 20 == 0 || tickDiff > 20)
  }

  /** noDamageTicks decreases by tickDiff, clamped at 0; a non-positive value is left alone. */
  function NoDamageStep(n: int, tickDiff: int): (r: int)
    ensures n > 0 ==> r >= 0 && r == (if n - tickDiff > 0 then n - tickDiff else 0)
    ensures n <= 0 ==> r == n
  {
    if n > 0 then (if n - tickDiff < 0 then 0 else n - tickDiff) else n
  }

  /** setOnFire(seconds): fireTicks becomes the larger of itself and 20 * seconds. */
  function Ignite(ft: int, seconds: int): (r: int)
    ensures r >= ft && r >= 20 * seconds && (r == ft || r == 20 * seconds)
  {
    if seconds * 20 > ft then seconds * 20 else ft
  }

  /** The counters entityBaseTick updates. */
  datatype TickCounters = TickCounters(fireTicks: int, onFire: bool, noDamageTicks: int,
                                       inPortalTicks: int, age: int, ticksLived: int)

  /** With a positive tick difference, a burning entity's fire counter strictly drops,
      four times as fast when it is fire-proof (until it reaches 0). */
  lemma FireBurnsDown(ft: int, onFire: bool, tickDiff: int, fireProof: bool, showsFlame: bool)
    requires ft > 0 && tickDiff > 0
    ensures FireStep(ft, onFire, tickDiff, fireProof, showsFlame).0 < ft
    ensures fireProof && ft > 4 * tickDiff ==> ft - FireStep(ft, onFire, tickDiff, fireProof, showsFlame).0 == 4 * tickDiff
  {
  }
}
