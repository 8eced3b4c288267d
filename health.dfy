/** Damage sources, listener verdicts and the health rules of BaseEntity
    (setHealth, attack's fire-resistance guard, fall). */
module Health {

  datatype DamageCause = Fire | FireTick | Lava | Void | Fall | Custom | Lightning | OtherCause(id: nat)

  /** An EntityDamageEvent as this core reads it: its cause, its final damage and the value of
      its ABSORPTION modifier (both computed by the event class, outside this model). */
  datatype DamageSource = DamageSource(cause: DamageCause, finalDamage: real, absorptionDelta: real)

  /** `new EntityDamageEvent(this, cause, amount)` as raised by the entity itself, read as an
      event whose final damage is its base amount and whose absorption modifier is 0; the
      event class that computes both is not part of this model. */
  function BaseDamage(cause: DamageCause, amount: real): DamageSource
  {
    DamageSource(cause, amount, 0.0)
  }

  /** The verdicts of the event listeners, one fixed policy per kind of event:
      which damage causes are cancelled, and whether regain, vehicle-enter,
      vehicle-exit and portal-enter events are cancelled. */
  datatype Listeners = Listeners(vetoedDamage: set<DamageCause>, vetoesRegain: bool,
                                 vetoesEnter: bool, vetoesExit: bool, vetoesPortal: bool)

  /** `Math.max(0, x)`. */
  function Max0(x: real): (r: real)
    ensures r >= 0.0 && r >= x && (r == 0.0 || r == x)
  {
    if x < 0.0 then 0.0 else x
  }

  /** The causes that fire resistance blocks in `attack`. */
  predicate IsFireCause(c: DamageCause) {
    c == Fire || c == FireTick || c == Lava
  }

  /** The health `setHealth(h)` leaves, given the current health and getMaxHealth(). */
  function SetHealthResult(cur: real, h: real, max: int): (r: real)
    ensures cur >= 0.0 && max >= 0 ==> r >= 0.0
  {
    if cur == h then cur
    else if h < 1.0 then (if cur > 0.0 then 0.0 else cur)
    else if h <= max as real || h < cur then h
    else max as real
  }

  /** The four outcomes of setHealth, by case. */
  lemma SetHealthOutcomes(cur: real, h: real, max: int)
    ensures h == cur ==> SetHealthResult(cur, h, max) == cur
    ensures h != cur && h < 1.0 ==> SetHealthResult(cur, h, max) == (if cur > 0.0 then 0.0 else cur)
    ensures h != cur && h >= 1.0 && (h <= max as real || h < cur) ==> SetHealthResult(cur, h, max) == h
    ensures h != cur && h >= 1.0 && h > max as real && h >= cur ==> SetHealthResult(cur, h, max) == max as real
  {
  }

  /** Starting within [0, max], setHealth stays within [0, max]. */
  lemma SetHealthClamped(cur: real, h: real, max: int)
    requires 0.0 <= cur <= max as real
    ensures 0.0 <= SetHealthResult(cur, h, max) <= max as real
  {
  }

  /** The clamp is not an invariant: health already above the maximum (a health boost that
      ran out) survives a `setHealth` to any smaller value of at least 1, even one that is
      still above the maximum. */
  lemma SetHealthKeepsExcess(cur: real, h: real, max: int)
    requires 1.0 <= h < cur
    ensures SetHealthResult(cur, h, max) == h
    ensures h > max as real ==> SetHealthResult(cur, h, max) > max as real
  {
  }

  /** A second death transition is a no-op: once dead, health below 1 leaves health alone. */
  lemma DeathIsIdempotent(cur: real, h: real, h': real, max: int)
    requires cur > 0.0 && h < 1.0 && h' < 1.0 && h != cur
    ensures SetHealthResult(cur, h, max) == 0.0
    ensures SetHealthResult(SetHealthResult(cur, h, max), h', max) == 0.0
  {
  }

  /** Non-negative damage never raises health, whatever the maximum. */
  lemma DamageNeverHeals(cur: real, d: real, max: int)
    requires cur >= 0.0 && d >= 0.0
    ensures SetHealthResult(cur, cur - d, max) <= cur
  {
  }

  /** `floor(fallDistance - 3 - jumpBoost)`, the damage of a fall. */
  function FallDamage(fallDistance: real, jumpBoost: int): (d: int)
    ensures d as real <= fallDistance - 3.0 - jumpBoost as real < d as real + 1.0
  {
    (fallDistance - 3.0 - jumpBoost as real).Floor
  }

  /** A five-block fall without jump boost deals 2 damage. */
  lemma FallOfFiveBlocks()
    ensures FallDamage(5.0, 0) == 2
  {
  }
}
