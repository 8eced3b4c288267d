/** The bookkeeping of BaseEntity: its effect table, health, tick counters, viewer set
    and mount linkage, as one class whose methods update fields in place. */
module Entities {
  import opened Common
  import opened Effects
  import opened Health
  import opened Counters
  import opened Viewing
  import opened Linkage

  /** What an entity's tick sees of the world: the blocks it collides with, and for a
      player whether it is in creative mode and whether it is a spectator. */
  datatype Surroundings = Surroundings(collisions: seq<BlockState>, creative: bool, spectator: bool)

  /** The part of an entity's state a base tick of a living entity changes or reads. */
  datatype Snapshot = Snapshot(effects: EffectTable, counters: TickCounters, health: real, position: Vec3)

  /** What a base tick of a living entity does, apart from the linkage, when the foreign
      callbacks (onEntityCollide of the blocks touched, applyEffect of the effects that tick)
      are left out: the effect table and the counters advance, health never rises, the portal
      trigger fires when the counter is exactly at its threshold and the event is not
      cancelled, and `hasUpdate` says "a non-player below the void threshold, or still burning
      with a visible flame". */
  ghost predicate BaseTicked(s: Snapshot, t: Snapshot, tickDiff: int, ev: Listeners, env: Surroundings,
                             isPlayer: bool, fireProof: bool, hasUpdate: bool, portalEntered: bool)
  {
    var showsFlame := !isPlayer || !env.spectator;
    && t.effects == TickEffects(s.effects, tickDiff)
    && (t.counters.fireTicks, t.counters.onFire)
         == FireStep(s.counters.fireTicks, s.counters.onFire, tickDiff, fireProof, showsFlame)
    && t.counters.noDamageTicks == NoDamageStep(s.counters.noDamageTicks, tickDiff)
    && t.counters.inPortalTicks == NextPortalTicks(s.counters.inPortalTicks, PortalBlock in env.collisions)
    && t.counters.age == s.counters.age + tickDiff && t.counters.ticksLived == s.counters.ticksLived + tickDiff
    && t.health <= s.health
    && (portalEntered <==> t.counters.inPortalTicks == PortalTrigger && !ev.vetoesPortal)
    && (hasUpdate <==>
          (!isPlayer && s.position.y <= -16.0)
          || (s.counters.fireTicks > 0 && t.counters.fireTicks > 0 && !fireProof && showsFlame))
  }

  class Entity {
    /** `isPlayer` (an instance of CloudPlayer), `fireProof`, whether it is Rideable, whether
        it is a Vehicle (the target of the casts in mount and dismount), getHeight() and the
        base maximum health (setMaxHealth). */
    const isPlayer: bool
    const fireProof: bool
    const rideable: bool
    const isVehicle: bool
    const height: real
    const maxHealth: int

    // vitals
    var health: real
    var absorption: real
    var lastDamageCause: Option<DamageSource>
    var deadTicks: int

    // effects, and the EFFECT_COLOR / EFFECT_AMBIENT data values derived from them
    var effects: EffectTable
    var effectColor: int
    var effectAmbient: int

    // counters; `onFire` is the ON_FIRE data flag
    var fireTicks: int
    var onFire: bool
    var noDamageTicks: int
    var inPortalTicks: int
    var lastUpdate: int
    var age: int
    var ticksLived: int

    // life cycle
    var justCreated: bool
    var closed: bool

    // viewing: position, current chunk, `hasSpawned`, and the packets sent so far
    var position: Vec3
    var chunk: Option<ChunkPos>
    var viewers: set<PlayerId>
    ghost var inbox: Inbox

    // mount linkage; `moving` is the MOVING data flag
    var vehicle: Entity?
    var passengers: seq<Entity>
    var seat: Vec3
    var moving: bool

    /** The colour data agree with the effect table. */
    ghost predicate EffectsShown()
      reads this`effects, this`effectColor, this`effectAmbient
    {
      effectColor == PackedColor(effects) && effectAmbient == AmbientByte(effects)
    }

    /** The invariant every method keeps. Because onMount and onDismount add and remove the
        vehicle itself, every element of `passengers` is the entity itself. */
    ghost predicate Valid()
      reads this`effects, this`health, this`passengers
    {
      && WellKeyed(effects)
      && maxHealth >= 0
      && health >= 0.0
      && (forall i :: 0 <= i < |passengers| ==> passengers[i] == this)
    }

    twostate predicate SameLinkage()
      reads this`vehicle, this`passengers, this`seat, this`moving
    {
      vehicle == old(vehicle) && passengers == old(passengers) && seat == old(seat) && moving == old(moving)
    }

    /** BaseEntity(type, location) followed by init: health 20, just created, in the chunk
        loaded at the location (if any), last updated at the server's current tick. */
    constructor (isPlayer: bool, fireProof: bool, rideable: bool, isVehicle: bool, height: real, maxHealth: nat,
                 position: Vec3, loadedChunk: bool, currentTick: int)
      ensures Valid() && EffectsShown()
      ensures health == 20.0 && effects == map[] && viewers == {} && passengers == [] && vehicle == null
      ensures justCreated && !closed && lastUpdate == currentTick
      ensures chunk == if loadedChunk then Some(ChunkOf(position)) else None
    {
      this.isPlayer := isPlayer;
      this.fireProof := fireProof;
      this.rideable := rideable;
      this.isVehicle := isVehicle;
      this.height := height;
      this.maxHealth := maxHealth;
      health := 20.0;
      absorption := 0.0;
      lastDamageCause := None;
      deadTicks := 0;
      effects := map[];
      effectColor, effectAmbient := 0, 0;
      fireTicks, onFire, noDamageTicks, inPortalTicks := 0, false, 0, 0;
      lastUpdate, age, ticksLived := currentTick, 0, 0;
      justCreated, closed := true, false;
      this.position := position;
      chunk := if loadedChunk then Some(ChunkOf(position)) else None;
      viewers := {};
      inbox := map[];
      vehicle, passengers, seat, moving := null, [], Zero, false;
    }

    // -------------------------------------------------------------------------
    // Read-only queries
    // -------------------------------------------------------------------------

    /** getMaxHealth. */
    function MaxHealth(): (r: int)
      reads this`effects
      ensures r == MaxHealthWith(maxHealth, effects)
    {
      MaxHealthWith(maxHealth, effects)
    }

    predicate IsAlive()
      reads this`health
    {
      health > 0.0
    }

    /** isControlling: `passengers.indexOf(e) == 0`. */
    predicate IsControlling(e: Entity)
      reads this`passengers
      ensures IsControlling(e) <==> |passengers| > 0 && passengers[0] == e
    {
      IndexOf(passengers, e) == 0
    }

    /** getPassenger: the first passenger, or null. */
    function GetPassenger(): (r: Entity?)
      reads this`passengers
      ensures r == null <==> |passengers| == 0
      ensures r != null ==> r == passengers[0] && IsControlling(r)
    {
      if |passengers| == 0 then null else passengers[0]
    }

    // -------------------------------------------------------------------------
    // Effects
    // -------------------------------------------------------------------------

    /** recalculateEffectColor: refreshes EFFECT_COLOR and EFFECT_AMBIENT from the table. */
    method RecalculateEffectColor()
      modifies this`effectColor, this`effectAmbient
      ensures EffectsShown()
    {
      var color, ambient := ComputeEffectColor(effects);
      effectColor, effectAmbient := color, ambient;
    }

    /** removeEffect: deletes one kind, if present, and refreshes the colour. */
    method RemoveEffect(k: EffectKind)
      requires Valid() && EffectsShown()
      modifies this`effects, this`effectColor, this`effectAmbient
      ensures Valid() && EffectsShown()
      ensures effects == old(effects) - {k}
      ensures k !in old(effects) ==> effectColor == old(effectColor) && effectAmbient == old(effectAmbient)
    {
      if k in effects {
        effects := effects - {k};
        RecalculateEffectColor();
      }
    }

    /** removeAllEffects: removes every kind in turn. */
    method RemoveAllEffects()
      requires Valid() && EffectsShown()
      modifies this`effects, this`effectColor, this`effectAmbient
      ensures Valid() && EffectsShown()
      ensures effects == map[] && effectColor == 0 && effectAmbient == 0
    {
      var todo := effects.Keys;
      while todo != {}
        invariant Valid() && EffectsShown()
        invariant effects.Keys == todo
        decreases todo
      {
        var k :| k in todo;
        RemoveEffect(k);
        todo := todo - {k};
      }
    }

    /** One iteration of the effect loop of entityBaseTick: the duration of kind `k` drops by
        `tickDiff`, and the effect is removed when it reaches zero or below. */
    method DecayEffect(k: EffectKind, tickDiff: int)
      requires Valid() && EffectsShown() && k in effects
      modifies this`effects, this`effectColor, this`effectAmbient
      ensures Valid() && EffectsShown()
      ensures effects == DecayStep(old(effects), k, tickDiff)
    {
      var d := effects[k].duration - tickDiff;
      DurationIrrelevant(effects, k, d);
      effects := effects[k := effects[k].(duration := d)];
      if d <= 0 {
        RemoveEffect(k);
      }
    }

    /** The whole effect loop: the table becomes TickEffects of the old table. */
    method DecayEffects(tickDiff: int)
      requires Valid() && EffectsShown()
      modifies this`effects, this`effectColor, this`effectAmbient
      ensures Valid() && EffectsShown()
      ensures effects == TickEffects(old(effects), tickDiff)
    {
      var todo := effects.Keys;
      while todo != {}
        invariant Valid() && EffectsShown()
        invariant todo <= old(effects).Keys
        invariant effects == PartlyTicked(old(effects), todo, tickDiff)
        decreases todo
      {
        var k :| k in todo;
        PartlyTickedStep(old(effects), todo, k, tickDiff);
        DecayEffect(k, tickDiff);
        todo := todo - {k};
      }
      PartlyTickedDone(old(effects), tickDiff);
    }

    /** addEffect: `None` (a null argument) changes nothing; otherwise the effect replaces any
        effect of its kind, the colour is refreshed, and a health boost raises health by
        4 * (amplifier + 1) through setHealth, under the new maximum (so it never kills). */
    method AddEffect(e: Option<Effect>, ev: Listeners)
      requires Valid() && EffectsShown()
      modifies this`effects, this`effectColor, this`effectAmbient
      modifies this`health, this`vehicle, this`passengers, this`seat, this`moving
      ensures Valid() && EffectsShown()
      ensures e.None? ==> effects == old(effects) && effectColor == old(effectColor) && effectAmbient == old(effectAmbient)
      ensures e.Some? ==> effects == old(effects)[e.value.kind := e.value]
      ensures e.Some? && e.value.kind == HealthBoost ==>
        health == SetHealthResult(old(health), old(health) + 4.0 * (e.value.amplifier + 1) as real, MaxHealth())
      ensures !(e.Some? && e.value.kind == HealthBoost) ==> health == old(health)
      ensures SameLinkage()
    {
      if e.None? {
        return;
      }
      var eff := e.value;
      effects := effects[eff.kind := eff];
      RecalculateEffectColor();
      if eff.kind == HealthBoost {
        SetHealth(health + 4.0 * (eff.amplifier + 1) as real, ev);
      }
    }

    // -------------------------------------------------------------------------
    // Health
    // -------------------------------------------------------------------------

    /** The linkage after kill's passenger loop, which (the passengers all being the entity
        itself) dismounts the entity from its own vehicle when it has one, has a passenger,
        is a Vehicle and the exit event is not cancelled. */
    twostate predicate KilledLinkage(ev: Listeners)
      reads this`vehicle, this`passengers, this`seat, this`moving
    {
      if old(vehicle) != null && |old(passengers)| > 0 && isVehicle && !ev.vetoesExit then
        vehicle == null && passengers == old(passengers)[1..] && seat == Zero && moving
      else SameLinkage()
    }

    /** Whether setHealth(h) on the current health ends in kill. */
    predicate Kills(h: real)
      reads this`health
    {
      h != health && h < 1.0 && health > 0.0
    }

    /** setHealth: health becomes SetHealthResult; dropping a living entity below 1 kills it. */
    method SetHealth(h: real, ev: Listeners)
      requires Valid()
      modifies this`health, this`vehicle, this`passengers, this`seat, this`moving
      ensures Valid()
      ensures health == SetHealthResult(old(health), h, MaxHealth())
      ensures old(Kills(h)) ==> KilledLinkage(ev)
      ensures !old(Kills(h)) ==> SameLinkage()
    {
      if health == h {
        return;
      }
      if h < 1.0 {
        if IsAlive() {
          Kill(ev);
        }
      } else if h <= MaxHealth() as real || h < health {
        health := h;
      } else {
        health := MaxHealth() as real;
      }
    }

    /** kill: health 0, then every passenger (a snapshot of the list) dismounts from this entity. */
    method Kill(ev: Listeners)
      requires Valid()
      modifies this`health, this`vehicle, this`passengers, this`seat, this`moving
      ensures Valid()
      ensures health == 0.0 && KilledLinkage(ev)
    {
      health := 0.0;
      var snapshot := passengers;
      var i := 0;
      while i < |snapshot|
        invariant 0 <= i <= |snapshot|
        invariant Valid() && health == 0.0
        invariant forall j :: 0 <= j < |snapshot| ==> snapshot[j] == this
        invariant i == 0 ==> SameLinkage()
        invariant 0 < i ==> KilledLinkage(ev)
      {
        var _ := snapshot[i].Dismount(this, ev);
        i := i + 1;
      }
    }

    /** setAbsorption. */
    method SetAbsorption(a: real)
      modifies this`absorption
      ensures absorption == a
    {
      if a != absorption {
        absorption := a;
      }
    }

    /** attack(event): fire-type damage under fire resistance and cancelled events are
        refused; otherwise absorption is adjusted, the cause recorded and the final damage
        subtracted through setHealth. */
    method Attack(src: DamageSource, ev: Listeners) returns (r: bool)
      requires Valid()
      modifies this`absorption, this`lastDamageCause
      modifies this`health, this`vehicle, this`passengers, this`seat, this`moving
      ensures Valid()
      ensures r <==> !(FireResistance in effects && IsFireCause(src.cause)) && src.cause !in ev.vetoedDamage
      ensures !r ==> health == old(health) && absorption == old(absorption)
                     && lastDamageCause == old(lastDamageCause) && SameLinkage()
      ensures r ==> health == SetHealthResult(old(health), old(health) - src.finalDamage, MaxHealth())
      ensures r ==> lastDamageCause == Some(src)
      ensures r ==> absorption == if old(absorption) > 0.0 then Max0(old(absorption) + src.absorptionDelta) else old(absorption)
      ensures r && old(Kills(health - src.finalDamage)) ==> KilledLinkage(ev)
      ensures !(r && old(Kills(health - src.finalDamage))) ==> SameLinkage()
    {
      if FireResistance in effects && (src.cause == Fire || src.cause == FireTick || src.cause == Lava) {
        return false;
      }
      if src.cause in ev.vetoedDamage {
        return false;
      }
      if absorption > 0.0 {
        SetAbsorption(Max0(absorption + src.absorptionDelta));
      }
      lastDamageCause := Some(src);
      SetHealth(health - src.finalDamage, ev);
      return true;
    }

    /** heal(event): a cancelled regain event changes nothing; otherwise setHealth(health + amount). */
    method Heal(amount: real, ev: Listeners)
      requires Valid()
      modifies this`health, this`vehicle, this`passengers, this`seat, this`moving
      ensures Valid()
      ensures ev.vetoesRegain ==> health == old(health)
      ensures !ev.vetoesRegain ==> health == SetHealthResult(old(health), old(health) + amount, MaxHealth())
      ensures !ev.vetoesRegain && old(Kills(health + amount)) ==> KilledLinkage(ev)
      ensures !(!ev.vetoesRegain && old(Kills(health + amount))) ==> SameLinkage()
    {
      if ev.vetoesRegain {
        return;
      }
      SetHealth(health + amount, ev);
    }

    /** fall: no damage under slow falling, nor for a player when the FALL_DAMAGE game rule is
        off; otherwise a positive `floor(d - 3 - jumpBoost)` is dealt as FALL damage. */
    method Fall(fallDistance: real, ev: Listeners, fallDamageRule: bool) returns (damaged: bool)
      requires Valid()
      modifies this`absorption, this`lastDamageCause
      modifies this`health, this`vehicle, this`passengers, this`seat, this`moving
      ensures Valid()
      ensures damaged <==> SlowFalling !in effects && !(isPlayer && !fallDamageRule)
                           && FallDamage(fallDistance, JumpBoostBonus(effects)) > 0
                           && DamageCause.Fall !in ev.vetoedDamage
      ensures damaged ==> health == SetHealthResult(old(health),
        old(health) - FallDamage(fallDistance, JumpBoostBonus(effects)) as real, MaxHealth())
      ensures damaged ==> lastDamageCause == Some(BaseDamage(DamageCause.Fall, FallDamage(fallDistance, JumpBoostBonus(effects)) as real))
      ensures !damaged ==> health == old(health) && absorption == old(absorption)
                           && lastDamageCause == old(lastDamageCause) && SameLinkage()
    {
      damaged := false;
      if SlowFalling in effects {
        return;
      }
      if isPlayer && !fallDamageRule {
        return;
      }
      var damage := FallDamage(fallDistance, JumpBoostBonus(effects));
      if damage > 0 {
        damaged := Attack(BaseDamage(DamageCause.Fall, damage as real), ev);
      }
    }

    // -------------------------------------------------------------------------
    // Mount linkage
    // -------------------------------------------------------------------------

    /** onMount(p), called on the vehicle: `p` must already name this entity as its vehicle;
        then the vehicle appends ITSELF (not `p`) to its passenger list and seats `p` at
        three quarters of the vehicle's height. */
    method OnMount(p: Entity) returns (r: Outcome<()>)
      requires Valid()
      modifies this`passengers, p`seat
      ensures Valid()
      ensures old(p.vehicle) != this ==> r == Thrown(IllegalArgument) && passengers == old(passengers) && p.seat == old(p.seat)
      ensures old(p.vehicle) == this ==>
        r == Normal(()) && passengers == old(passengers) + [this] && p.seat == Vec3(0.0, height * 0.75, 0.0)
    {
      if p.vehicle != this {
        return Thrown(IllegalArgument);
      }
      passengers := passengers + [this];
      p.seat := Vec3(0.0, height * 0.75, 0.0);
      return Normal(());
    }

    /** onDismount(p), called on the vehicle: `p` must no longer name this entity as its
        vehicle, and the vehicle must be able to remove ITSELF from its passenger list;
        then `p`'s seat is reset. */
    method OnDismount(p: Entity) returns (r: Outcome<()>)
      requires Valid()
      modifies this`passengers, p`seat
      ensures Valid()
      ensures old(p.vehicle) == this || this !in old(passengers) ==>
        r == Thrown(IllegalArgument) && passengers == old(passengers) && p.seat == old(p.seat)
      ensures old(p.vehicle) != this && this in old(passengers) ==>
        r == Normal(()) && passengers == RemoveFirst(old(passengers), this) && passengers == old(passengers)[1..]
        && p.seat == Zero
    {
      if p.vehicle == this {
        return Thrown(IllegalArgument);
      }
      if this !in passengers {
        return Thrown(IllegalArgument);
      }
      RemoveFirstAtIndex(passengers, this);
      passengers := RemoveFirst(passengers, this);
      p.seat := Zero;
      return Normal(());
    }

    /** dismount(v): false without a vehicle; the exit event casts `v` to Vehicle, which
        throws for an entity that is not one; false when the exit event is cancelled; otherwise
        the vehicle field is cleared, `v.onDismount(this)` runs (and may throw), the seat is
        reset and the MOVING flag set. The argument is never compared with `vehicle`. */
    method Dismount(v: Entity, ev: Listeners) returns (r: Outcome<bool>)
      requires Valid() && v.Valid()
      modifies this`vehicle, this`seat, this`moving, v`passengers
      ensures Valid() && v.Valid()
      ensures old(vehicle) == null || (v.isVehicle && ev.vetoesExit) ==>
        r == Normal(false) && SameLinkage() && v.passengers == old(v.passengers)
      ensures old(vehicle) != null && !v.isVehicle ==>
        r == Thrown(ClassCast) && SameLinkage() && v.passengers == old(v.passengers)
      ensures old(vehicle) != null && v.isVehicle && !ev.vetoesExit ==> vehicle == null
      ensures old(vehicle) != null && v.isVehicle && !ev.vetoesExit ==>
        (r == Normal(true) <==> |old(v.passengers)| > 0) && (r != Normal(true) ==> r == Thrown(IllegalArgument))
      ensures r == Normal(true) ==> v.passengers == old(v.passengers)[1..] && seat == Zero && moving
      ensures r.Thrown? ==> v.passengers == old(v.passengers) && seat == old(seat) && moving == old(moving)
    {
      if vehicle == null {
        return Normal(false);
      }
      if !v.isVehicle {
        return Thrown(ClassCast);
      }
      if ev.vetoesExit {
        return Normal(false);
      }
      vehicle := null;
      assert v in v.passengers <==> |v.passengers| > 0 by {
        if |v.passengers| > 0 {
          assert v.passengers[0] == v;
        }
      }
      var o := v.OnDismount(this);
      if o.Thrown? {
        return Thrown(o.exception);
      }
      seat := Zero;
      moving := true;
      return Normal(true);
    }

    /** mount(target): a null target throws; a current vehicle is asked to dismount first
        (`this.vehicle.dismount(this)`, which casts this entity to Vehicle and whose refusal
        makes mount return false); the enter event casts the target to Vehicle; a cancelled
        enter event returns false; otherwise the vehicle field is set and `target.onMount(this)`
        runs. */
    method Mount(target: Entity?, ev: Listeners) returns (r: Outcome<bool>)
      requires Valid() && (target != null ==> target.Valid()) && (vehicle != null ==> vehicle.Valid())
      modifies this`vehicle, this`seat, this`passengers
      modifies (if target == null then {} else {target})`passengers
      modifies (if vehicle == null then {} else {vehicle})`vehicle, (if vehicle == null then {} else {vehicle})`seat
      modifies (if vehicle == null then {} else {vehicle})`moving
      ensures Valid() && (target != null ==> target.Valid()) && (old(vehicle) != null ==> old(vehicle).Valid())
      ensures target == null ==> r == Thrown(NullDereference) && SameLinkage()
      ensures target != null && old(vehicle) != null && (old(vehicle.vehicle) == null || (isVehicle && ev.vetoesExit)) ==>
        r == Normal(false) && SameLinkage() && old(vehicle).SameLinkage()
      ensures target != null && old(vehicle) != null && old(vehicle.vehicle) != null && !isVehicle ==>
        r == Thrown(ClassCast) && SameLinkage() && old(vehicle).SameLinkage()
      ensures (target != null && old(vehicle) != null && old(vehicle.vehicle) != null && isVehicle && !ev.vetoesExit
               && |old(passengers)| == 0) ==> r == Thrown(IllegalArgument)
      ensures target != null && old(vehicle) == null && !target.isVehicle ==> r == Thrown(ClassCast) && SameLinkage()
      ensures r == Normal(true) <==>
        target != null && target.isVehicle && !ev.vetoesEnter
        && (old(vehicle) != null ==> old(vehicle.vehicle) != null && isVehicle && !ev.vetoesExit && |old(passengers)| > 0)
      ensures r == Normal(true) ==>
        vehicle == target && |target.passengers| > 0 && target.passengers[|target.passengers| - 1] == target
      ensures r == Normal(false) && old(vehicle) != this ==> vehicle == old(vehicle)
    {
      if target == null {
        return Thrown(NullDereference);
      }
      if vehicle != null {
        var w := vehicle;
        var d := w.Dismount(this, ev);
        if d.Thrown? || !d.value {
          return d;
        }
      }
      r := Board(target, ev);
    }

    /** The part of mount after the dismount: the enter event (whose cast of the target to
        Vehicle may throw), then the linkage. */
    method Board(target: Entity, ev: Listeners) returns (r: Outcome<bool>)
      requires Valid() && target.Valid()
      modifies this`vehicle, this`seat, target`passengers
      ensures Valid() && target.Valid()
      ensures r == Normal(true) || r == Normal(false) || r == Thrown(ClassCast)
      ensures r == Thrown(ClassCast) <==> !target.isVehicle
      ensures r == Normal(true) <==> target.isVehicle && !ev.vetoesEnter
      ensures !target.isVehicle || ev.vetoesEnter ==> SameLinkage() && target.SameLinkage()
      ensures target.isVehicle && !ev.vetoesEnter ==>
        vehicle == target && target.passengers == old(target.passengers) + [target] && seat == Vec3(0.0, target.height * 0.75, 0.0)
    {
      if !target.isVehicle {
        return Thrown(ClassCast);
      }
      if ev.vetoesEnter {
        return Normal(false);
      }
      vehicle := target;
      var o := target.OnMount(this);
      r := match o
        case Thrown(x) => Thrown(x)
        case Normal(_) => Normal(true);
    }

    // -------------------------------------------------------------------------
    // Fire
    // -------------------------------------------------------------------------

    /** setOnFire(seconds): fireTicks never drops, and becomes at least 20 * seconds. */
    method SetOnFire(seconds: int)
      modifies this`fireTicks
      ensures fireTicks == Ignite(old(fireTicks), seconds)
    {
      var ticks := seconds * 20;
      if ticks > fireTicks {
        fireTicks := ticks;
      }
    }

    /** extinguish: no fire ticks left and the ON_FIRE flag cleared. */
    method Extinguish()
      modifies this`fireTicks, this`onFire
      ensures fireTicks == 0 && !onFire
    {
      fireTicks := 0;
      onFire := false;
    }

    /** The fire part of entityBaseTick: fire-proof entities burn down four times as fast;
        others take FIRE_TICK damage every 20 ticks (or on a long tick) unless fire-resistant.
        `showsFlame` says whether the entity may display the ON_FIRE flag. */
    method BurnTick(tickDiff: int, ev: Listeners, showsFlame: bool) returns (hasUpdate: bool)
      requires Valid()
      modifies this`fireTicks, this`onFire, this`absorption, this`lastDamageCause
      modifies this`health, this`vehicle, this`passengers, this`seat, this`moving
      ensures Valid()
      ensures (fireTicks, onFire) == FireStep(old(fireTicks), old(onFire), tickDiff, fireProof, showsFlame)
      ensures hasUpdate <==> old(fireTicks) > 0 && fireTicks > 0 && !fireProof && showsFlame
      ensures !FireDamageDue(old(fireTicks), tickDiff, fireProof, FireResistance in effects) ==>
        health == old(health) && absorption == old(absorption) && lastDamageCause == old(lastDamageCause) && SameLinkage()
      ensures health <= old(health)
    {
      hasUpdate := false;
      if fireTicks > 0 {
        if fireProof {
          fireTicks := fireTicks - 4 * tickDiff;
          if fireTicks < 0 {
            fireTicks := 0;
          }
        } else {
          if FireResistance !in effects && (fireTicks % 20 == 0 || tickDiff > 20) {
            DamageNeverHeals(health, 1.0, MaxHealth());
            var _ := Attack(BaseDamage(FireTick, 1.0), ev);
          }
          fireTicks := fireTicks - tickDiff;
        }
        if fireTicks <= 0 {
          Extinguish();
        } else if !fireProof && showsFlame {
          onFire := true;
          hasUpdate := true;
        }
      }
    }

    // -------------------------------------------------------------------------
    // Viewers
    // -------------------------------------------------------------------------

    /** spawnTo(p): dereferences the chunk (a null chunk throws); a player that does not have
        the chunk in view, or already views the entity, is left alone; otherwise it becomes a
        viewer and is sent the AddEntity packet (and the rider link when mounted). */
    method SpawnTo(p: PlayerId, inView: set<PlayerId>) returns (r: Outcome<()>)
      modifies this`viewers, this`inbox
      ensures chunk.None? ==> r == Thrown(NullDereference) && viewers == old(viewers) && inbox == old(inbox)
      ensures chunk.Some? ==> r == Normal(())
      ensures chunk.Some? && (p !in inView || p in old(viewers)) ==> viewers == old(viewers) && inbox == old(inbox)
      ensures chunk.Some? && p in inView && p !in old(viewers) ==>
        && viewers == old(viewers) + {p}
        && inbox == old(inbox)[p := Received(old(inbox), p) + SpawnPackets(PassengerLinks(|passengers|), vehicle != null)]
    {
      if chunk.None? {
        return Thrown(NullDereference);
      }
      if p !in inView || p in viewers {
        return Normal(());
      }
      viewers := viewers + {p};
      inbox := inbox[p := Received(inbox, p) + SpawnPackets(PassengerLinks(|passengers|), vehicle != null)];
      return Normal(());
    }

    /** despawnFrom(p): only a current viewer is removed, and sent a RemoveEntity packet. */
    method DespawnFrom(p: PlayerId)
      modifies this`viewers, this`inbox
      ensures p in old(viewers) ==>
        viewers == old(viewers) - {p} && inbox == old(inbox)[p := Received(old(inbox), p) + [RemoveEntity]]
      ensures p !in old(viewers) ==> viewers == old(viewers) && inbox == old(inbox)
    {
      if p in viewers {
        viewers := viewers - {p};
        inbox := inbox[p := Received(inbox, p) + [RemoveEntity]];
      }
    }

    /** despawnFromAll: every viewer is despawned, one RemoveEntity packet each. */
    method DespawnFromAll()
      modifies this`viewers, this`inbox
      ensures viewers == {} && Delivered(old(inbox), inbox, old(viewers), [RemoveEntity])
    {
      var todo := viewers;
      while todo != {}
        invariant todo <= old(viewers) && viewers == todo
        invariant Delivered(old(inbox), inbox, old(viewers) - todo, [RemoveEntity])
        decreases todo
      {
        var p :| p in todo;
        DespawnFrom(p);
        todo := todo - {p};
      }
    }

    /** respawnToAll: spawnTo for every viewer (a no-op for a player that already views the
        entity, but a throw with a null chunk), then the viewer set is cleared without any
        packet being sent. */
    method RespawnToAll(inView: set<PlayerId>) returns (r: Outcome<()>)
      modifies this`viewers, this`inbox
      ensures chunk.None? && old(viewers) != {} ==> r == Thrown(NullDereference) && viewers == old(viewers)
      ensures !(chunk.None? && old(viewers) != {}) ==> r == Normal(()) && viewers == {}
      ensures inbox == old(inbox)
    {
      var todo := viewers;
      while todo != {}
        invariant todo <= viewers && viewers == old(viewers) && inbox == old(inbox)
        invariant chunk.None? ==> todo == old(viewers)
        decreases todo
      {
        var p :| p in todo;
        var o := SpawnTo(p, inView);
        if o.Thrown? {
          return o;
        }
        todo := todo - {p};
      }
      viewers := {};
      return Normal(());
    }

    /** The first loop of checkChunks: viewers that do not load the new chunk are despawned;
        the returned loaders are those that do not view the entity yet. */
    method DropViewersOutside(loaders: set<PlayerId>) returns (rest: set<PlayerId>)
      modifies this`viewers, this`inbox
      ensures viewers == old(viewers) * loaders && rest == loaders - old(viewers)
      ensures Delivered(old(inbox), inbox, old(viewers) - loaders, [RemoveEntity])
    {
      rest := loaders;
      var todo := viewers;
      while todo != {}
        invariant todo <= old(viewers)
        invariant viewers == todo + (old(viewers) - todo) * loaders
        invariant rest == loaders - (old(viewers) - todo)
        invariant Delivered(old(inbox), inbox, (old(viewers) - todo) - loaders, [RemoveEntity])
        decreases todo
      {
        var p :| p in todo;
        if p !in loaders {
          DespawnFrom(p);
        } else {
          rest := rest - {p};
        }
        todo := todo - {p};
      }
    }

    /** The second loop of checkChunks: spawnTo for every remaining loader. */
    method SpawnToEach(loaders: set<PlayerId>, inView: set<PlayerId>)
      requires chunk.Some? && loaders !! viewers
      modifies this`viewers, this`inbox
      ensures viewers == old(viewers) + loaders * inView
      ensures Delivered(old(inbox), inbox, loaders * inView, SpawnPackets(PassengerLinks(|passengers|), vehicle != null))
    {
      var todo := loaders;
      while todo != {}
        invariant todo <= loaders
        invariant viewers == old(viewers) + (loaders - todo) * inView
        invariant Delivered(old(inbox), inbox, (loaders - todo) * inView, SpawnPackets(PassengerLinks(|passengers|), vehicle != null))
        decreases todo
      {
        var p :| p in todo;
        var _ := SpawnTo(p, inView);
        todo := todo - {p};
      }
    }

    /** checkChunks, given the player loaders of the chunk now loaded at the entity's position
        (`None` when that chunk is not loaded) and the players that have it in view. Nothing
        happens while the entity stays in its chunk. Otherwise the new chunk is taken (a null
        one ends the method), and unless the entity was just created, viewers that do not load
        the new chunk are despawned and in-view loaders not yet viewing are spawned to. */
    method CheckChunks(loaded: Option<set<PlayerId>>, inView: set<PlayerId>)
      modifies this`chunk, this`viewers, this`inbox
      ensures old(chunk) == Some(ChunkOf(position)) ==> chunk == old(chunk) && viewers == old(viewers) && inbox == old(inbox)
      ensures old(chunk) != Some(ChunkOf(position)) && loaded.None? ==>
        chunk == None && viewers == old(viewers) && inbox == old(inbox)
      ensures old(chunk) != Some(ChunkOf(position)) && loaded.Some? ==> chunk == Some(ChunkOf(position))
      ensures old(chunk) != Some(ChunkOf(position)) && loaded.Some? && justCreated ==>
        viewers == old(viewers) && inbox == old(inbox)
      ensures old(chunk) != Some(ChunkOf(position)) && loaded.Some? && !justCreated ==>
        && viewers == Reconciled(old(viewers), loaded.value, inView)
        && forall q :: Received(inbox, q) == Received(old(inbox), q) + ChunkChangePackets(q, old(viewers), loaded.value, inView, PassengerLinks(|passengers|), vehicle != null)
    {
      var c := ChunkOf(position);
      if chunk == Some(c) {
        return;
      }
      if loaded.None? {
        chunk := None;
        return;
      }
      chunk := Some(c);
      if !justCreated {
        ghost var mid := inbox;
        var rest := DropViewersOutside(loaded.value);
        ghost var mid2 := inbox;
        SpawnToEach(rest, inView);
        assert viewers == Reconciled(old(viewers), loaded.value, inView);
        forall q ensures Received(inbox, q) == Received(old(inbox), q) + ChunkChangePackets(q, old(viewers), loaded.value, inView, PassengerLinks(|passengers|), vehicle != null) {
          assert Received(mid2, q) == Received(mid, q) + (if q in old(viewers) - loaded.value then [RemoveEntity] else []);
        }
      }
    }

    /** close: the first call marks the entity closed and despawns it from every viewer;
        later calls change nothing. */
    method Close()
      modifies this`closed, this`viewers, this`inbox
      ensures closed
      ensures old(closed) ==> viewers == old(viewers) && inbox == old(inbox)
      ensures !old(closed) ==> viewers == {} && Delivered(old(inbox), inbox, old(viewers), [RemoveEntity])
    {
      if !closed {
        closed := true;
        DespawnFromAll();
      }
    }

    // -------------------------------------------------------------------------
    // Ticking
    // -------------------------------------------------------------------------

    /** checkBlockCollision, as far as the portal counter goes: a portal among the colliding
        blocks raises the counter, none resets it. The callbacks of the other blocks
        (onEntityCollide, addVelocityToEntity) do not run in this model. */
    method CheckBlockCollision(collisions: seq<BlockState>)
      modifies this`inPortalTicks
      ensures inPortalTicks == NextPortalTicks(old(inPortalTicks), PortalBlock in collisions)
    {
      var portal := false;
      var i := 0;
      while i < |collisions|
        invariant 0 <= i <= |collisions|
        invariant portal <==> PortalBlock in collisions[..i]
      {
        assert collisions[..i + 1] == collisions[..i] + [collisions[i]];
        if collisions[i] == PortalBlock {
          portal := true;
        }
        i := i + 1;
      }
      assert collisions[..i] == collisions;
      if portal {
        if inPortalTicks < PortalTrigger {
          inPortalTicks := PortalTrigger;
        } else {
          inPortalTicks := inPortalTicks + 1;
        }
      } else {
        inPortalTicks := 0;
      }
    }

    /** The counters entityBaseTick updates, as one value. */
    function Counters(): TickCounters
      reads this`fireTicks, this`onFire, this`noDamageTicks, this`inPortalTicks, this`age, this`ticksLived
    {
      TickCounters(fireTicks, onFire, noDamageTicks, inPortalTicks, age, ticksLived)
    }

    /** The state a base tick is specified over. */
    ghost function State(): Snapshot
      reads this`effects, this`fireTicks, this`onFire, this`noDamageTicks, this`inPortalTicks, this`age
      reads this`ticksLived, this`health, this`position
    {
      Snapshot(effects, Counters(), health, position)
    }

    /** entityBaseTick(tickDiff). A dead entity loses its effects and viewers (and, unless it
        is a player, is closed). A living one whose vehicle is dead but rideable mounts that
        vehicle again (which may throw); then the effects tick, the portal counter is updated
        from the colliding blocks, a void fall is attacked (a creative player is spared), the
        fire and no-damage counters run down, the portal trigger is decided and the age grows.
        The seat updates of updatePassengers and of the remount, which in the source go through
        setPosition and checkChunks, are not modelled; that is why viewers and packets stay.
        The ghost parameter `before` names the state at the call, for the caller's benefit. */
    method EntityBaseTick(tickDiff: int, ev: Listeners, env: Surroundings, ghost before: Snapshot)
      returns (r: Outcome<bool>, portalEntered: bool)
      requires Valid() && EffectsShown() && (vehicle != null ==> vehicle.Valid()) && before == State()
      modifies this`justCreated, this`effects, this`effectColor, this`effectAmbient, this`viewers, this`inbox
      modifies this`closed, this`inPortalTicks, this`fireTicks, this`onFire, this`noDamageTicks, this`age
      modifies this`ticksLived, this`absorption, this`lastDamageCause
      modifies this`health, this`vehicle, this`passengers, this`seat, this`moving
      modifies (if vehicle == null then {} else {vehicle})`vehicle, (if vehicle == null then {} else {vehicle})`seat
      modifies (if vehicle == null then {} else {vehicle})`moving, (if vehicle == null then {} else {vehicle})`passengers
      ensures Valid() && EffectsShown() && !justCreated
      ensures !old(IsAlive()) ==>
        && r == Normal(false) && !portalEntered
        && effects == map[] && viewers == {} && Delivered(old(inbox), inbox, old(viewers), [RemoveEntity])
        && closed == (old(closed) || !isPlayer) && health == old(health) && Counters() == old(Counters())
      ensures r.Thrown? ==> old(IsAlive()) && old(vehicle) != null && !old(vehicle.IsAlive()) && old(vehicle.rideable)
      ensures old(IsAlive()) && r.Normal? ==> BaseTicked(before, State(), tickDiff, ev, env, isPlayer, fireProof, r.value, portalEntered)
      ensures old(IsAlive()) ==> unchanged(this`viewers, this`inbox, this`closed)
    {
      if !IsAlive() {
        Expire();
        return Normal(false), false;
      }
      r, portalEntered := LiveTick(tickDiff, ev, env);
    }

    /** The living branch of entityBaseTick: the remount, then the effect and counter steps. */
    method LiveTick(tickDiff: int, ev: Listeners, env: Surroundings) returns (r: Outcome<bool>, portalEntered: bool)
      requires Valid() && EffectsShown() && IsAlive() && (vehicle != null ==> vehicle.Valid())
      modifies this`justCreated, this`effects, this`effectColor, this`effectAmbient, this`inPortalTicks
      modifies this`fireTicks, this`onFire, this`noDamageTicks, this`age, this`ticksLived
      modifies this`absorption, this`lastDamageCause
      modifies this`health, this`vehicle, this`passengers, this`seat, this`moving
      modifies (if vehicle == null then {} else {vehicle})`vehicle, (if vehicle == null then {} else {vehicle})`seat
      modifies (if vehicle == null then {} else {vehicle})`moving, (if vehicle == null then {} else {vehicle})`passengers
      ensures Valid() && EffectsShown() && !justCreated
      ensures r.Thrown? ==> old(vehicle) != null && !old(vehicle.IsAlive()) && old(vehicle.rideable)
      ensures r.Normal? ==> BaseTicked(old(State()), State(), tickDiff, ev, env, isPlayer, fireProof, r.value, portalEntered)
    {
      justCreated := false;
      var m := Remount(ev);
      if m.Thrown? {
        return Thrown(m.exception), false;
      }
      var hasUpdate;
      hasUpdate, portalEntered := AdvanceAlive(tickDiff, ev, env);
      return Normal(hasUpdate), portalEntered;
    }

    /** The dead branch of entityBaseTick: all effects removed, despawned from every viewer,
        and closed unless the entity is a player. */
    method Expire()
      requires Valid() && EffectsShown()
      modifies this`justCreated, this`effects, this`effectColor, this`effectAmbient, this`viewers, this`inbox, this`closed
      ensures Valid() && EffectsShown() && !justCreated
      ensures effects == map[] && viewers == {} && Delivered(old(inbox), inbox, old(viewers), [RemoveEntity])
      ensures closed == (old(closed) || !isPlayer)
    {
      justCreated := false;
      RemoveAllEffects();
      DespawnFromAll();
      if !isPlayer {
        Close();
      }
    }

    /** The remount step of entityBaseTick: an entity whose vehicle is dead but rideable
        mounts that vehicle again, which may throw; otherwise the linkage stays. The seat
        update the mount makes through setPosition is not modelled, so the position stays. */
    method Remount(ev: Listeners) returns (r: Outcome<()>)
      requires Valid() && (vehicle != null ==> vehicle.Valid())
      modifies this`vehicle, this`seat, this`passengers
      modifies (if vehicle == null then {} else {vehicle})`vehicle, (if vehicle == null then {} else {vehicle})`seat
      modifies (if vehicle == null then {} else {vehicle})`moving, (if vehicle == null then {} else {vehicle})`passengers
      ensures Valid()
      ensures State() == old(State())
      ensures r.Thrown? ==> old(vehicle) != null && !old(vehicle.IsAlive()) && old(vehicle.rideable)
      ensures !(old(vehicle) != null && !old(vehicle.IsAlive()) && old(vehicle.rideable)) ==> r == Normal(()) && SameLinkage()
    {
      if vehicle != null && !vehicle.IsAlive() && vehicle.rideable {
        var m := Mount(vehicle, ev);
        if m.Thrown? {
          return Thrown(m.exception);
        }
      }
      return Normal(());
    }

    /** The steps of entityBaseTick after the remount, for a living entity. */
    method AdvanceAlive(tickDiff: int, ev: Listeners, env: Surroundings) returns (hasUpdate: bool, portalEntered: bool)
      requires Valid() && EffectsShown() && IsAlive()
      modifies this`effects, this`effectColor, this`effectAmbient, this`inPortalTicks
      modifies this`fireTicks, this`onFire, this`noDamageTicks, this`age, this`ticksLived
      modifies this`absorption, this`lastDamageCause
      modifies this`health, this`vehicle, this`passengers, this`seat, this`moving
      ensures Valid() && EffectsShown()
      ensures BaseTicked(old(State()), State(), tickDiff, ev, env, isPlayer, fireProof, hasUpdate, portalEntered)
    {
      DecayEffects(tickDiff);
      hasUpdate, portalEntered := AdvanceCounters(tickDiff, ev, env);
    }

    /** The counter steps of entityBaseTick, after the effects have ticked. */
    method AdvanceCounters(tickDiff: int, ev: Listeners, env: Surroundings) returns (hasUpdate: bool, portalEntered: bool)
      requires Valid() && IsAlive()
      modifies this`inPortalTicks
      modifies this`fireTicks, this`onFire, this`noDamageTicks, this`age, this`ticksLived
      modifies this`absorption, this`lastDamageCause
      modifies this`health, this`vehicle, this`passengers, this`seat, this`moving
      ensures Valid()
      ensures (fireTicks, onFire) == FireStep(old(fireTicks), old(onFire), tickDiff, fireProof, !isPlayer || !env.spectator)
      ensures noDamageTicks == NoDamageStep(old(noDamageTicks), tickDiff)
      ensures inPortalTicks == NextPortalTicks(old(inPortalTicks), PortalBlock in env.collisions)
      ensures age == old(age) + tickDiff && ticksLived == old(ticksLived) + tickDiff
      ensures health <= old(health)
      ensures portalEntered <==> inPortalTicks == PortalTrigger && !ev.vetoesPortal
      ensures hasUpdate <==>
            (!isPlayer && position.y <= -16.0)
            || (old(fireTicks) > 0 && fireTicks > 0 && !fireProof && (!isPlayer || !env.spectator))
    {
      CheckBlockCollision(env.collisions);
      hasUpdate := Hazards(tickDiff, ev, env);
      RunDown(tickDiff);
      portalEntered := inPortalTicks == PortalTrigger && !ev.vetoesPortal;
    }

    /** The void check and the fire step of entityBaseTick. */
    method Hazards(tickDiff: int, ev: Listeners, env: Surroundings) returns (hasUpdate: bool)
      requires Valid() && IsAlive()
      modifies this`fireTicks, this`onFire, this`absorption, this`lastDamageCause
      modifies this`health, this`vehicle, this`passengers, this`seat, this`moving
      ensures Valid()
      ensures (fireTicks, onFire) == FireStep(old(fireTicks), old(onFire), tickDiff, fireProof, !isPlayer || !env.spectator)
      ensures health <= old(health)
      ensures hasUpdate <==>
            (!isPlayer && position.y <= -16.0)
            || (old(fireTicks) > 0 && fireTicks > 0 && !fireProof && (!isPlayer || !env.spectator))
    {
      hasUpdate := VoidCheck(ev, env);
      var burning := BurnTick(tickDiff, ev, !isPlayer || !env.spectator);
      hasUpdate := hasUpdate || burning;
    }

    /** The no-damage counter runs down (clamped at 0) and the age grows. */
    method RunDown(tickDiff: int)
      modifies this`noDamageTicks, this`age, this`ticksLived
      ensures noDamageTicks == NoDamageStep(old(noDamageTicks), tickDiff)
      ensures age == old(age) + tickDiff && ticksLived == old(ticksLived) + tickDiff
    {
      if noDamageTicks > 0 {
        noDamageTicks := noDamageTicks - tickDiff;
        if noDamageTicks < 0 {
          noDamageTicks := 0;
        }
      }
      age := age + tickDiff;
      ticksLived := ticksLived + tickDiff;
    }

    /** The void check of entityBaseTick: a living entity at or below y = -16 takes 10 VOID
        damage (a creative player excepted); for a non-player the tick reports an update. */
    method VoidCheck(ev: Listeners, env: Surroundings) returns (hasUpdate: bool)
      requires Valid()
      modifies this`absorption, this`lastDamageCause
      modifies this`health, this`vehicle, this`passengers, this`seat, this`moving
      ensures Valid()
      ensures hasUpdate <==> !isPlayer && position.y <= -16.0 && old(IsAlive())
      ensures health <= old(health)
      ensures !(position.y <= -16.0 && old(IsAlive())) || (isPlayer && env.creative) ==>
        health == old(health) && SameLinkage()
    {
      hasUpdate := false;
      if position.y <= -16.0 && IsAlive() {
        DamageNeverHeals(health, 10.0, MaxHealth());
        if isPlayer {
          if !env.creative {
            var _ := Attack(BaseDamage(Void, 10.0), ev);
          }
        } else {
          var _ := Attack(BaseDamage(Void, 10.0), ev);
          hasUpdate := true;
        }
      }
    }

    /** onUpdate(currentTick): a closed entity does nothing; a dead one counts its dead ticks
        and, from the tenth on, despawns (and closes unless it is a player), reporting whether
        it still needs updates; a living one ticks by the time since its last update, if any
        has passed. */
    method OnUpdate(currentTick: int, ev: Listeners, env: Surroundings) returns (r: Outcome<bool>, portalEntered: bool)
      requires Valid() && EffectsShown() && (vehicle != null ==> vehicle.Valid())
      modifies this`deadTicks, this`lastUpdate
      modifies this`justCreated, this`effects, this`effectColor, this`effectAmbient, this`viewers, this`inbox
      modifies this`closed, this`inPortalTicks, this`fireTicks, this`onFire, this`noDamageTicks, this`age
      modifies this`ticksLived, this`absorption, this`lastDamageCause
      modifies this`health, this`vehicle, this`passengers, this`seat, this`moving
      modifies (if vehicle == null then {} else {vehicle})`vehicle, (if vehicle == null then {} else {vehicle})`seat
      modifies (if vehicle == null then {} else {vehicle})`moving, (if vehicle == null then {} else {vehicle})`passengers
      ensures Valid() && EffectsShown()
      ensures old(closed) ==> r == Normal(false) && !portalEntered && unchanged(this) && (old(vehicle) != null ==> unchanged(old(vehicle)))
      ensures !old(closed) && !old(IsAlive()) ==>
        && deadTicks == old(deadTicks) + 1 && r == Normal(deadTicks < 10) && !portalEntered
        && health == old(health) && effects == old(effects)
        && (deadTicks >= 10 ==> viewers == {} && closed == !isPlayer
                                && Delivered(old(inbox), inbox, old(viewers), [RemoveEntity]))
        && (deadTicks < 10 ==> viewers == old(viewers) && inbox == old(inbox) && !closed)
      ensures !old(closed) && old(IsAlive()) && currentTick - old(lastUpdate) <= 0 ==>
        r == Normal(false) && !portalEntered && unchanged(this) && (old(vehicle) != null ==> unchanged(old(vehicle)))
      ensures !old(closed) && old(IsAlive()) && currentTick - old(lastUpdate) > 0 ==> lastUpdate == currentTick
      ensures !old(closed) && old(IsAlive()) && currentTick - old(lastUpdate) > 0 && r.Normal? ==>
        BaseTicked(old(State()), State(), currentTick - old(lastUpdate), ev, env, isPlayer, fireProof, r.value, portalEntered)
    {
      if closed {
        return Normal(false), false;
      }
      if !IsAlive() {
        deadTicks := deadTicks + 1;
        if deadTicks >= 10 {
          DespawnFromAll();
          if !isPlayer {
            Close();
          }
        }
        return Normal(deadTicks < 10), false;
      }
      var tickDiff := currentTick - lastUpdate;
      if tickDiff <= 0 {
        return Normal(false), false;
      }
      r, portalEntered := TickSince(currentTick, ev, env);
    }

    /** The living branch of onUpdate once time has passed: the update time is stamped and
        the base tick runs over the elapsed ticks. */
    method TickSince(currentTick: int, ev: Listeners, env: Surroundings) returns (r: Outcome<bool>, portalEntered: bool)
      requires Valid() && EffectsShown() && (vehicle != null ==> vehicle.Valid())
      requires IsAlive() && currentTick - lastUpdate > 0
      modifies this`lastUpdate
      modifies this`justCreated, this`effects, this`effectColor, this`effectAmbient, this`viewers, this`inbox
      modifies this`closed, this`inPortalTicks, this`fireTicks, this`onFire, this`noDamageTicks, this`age
      modifies this`ticksLived, this`absorption, this`lastDamageCause
      modifies this`health, this`vehicle, this`passengers, this`seat, this`moving
      modifies (if vehicle == null then {} else {vehicle})`vehicle, (if vehicle == null then {} else {vehicle})`seat
      modifies (if vehicle == null then {} else {vehicle})`moving, (if vehicle == null then {} else {vehicle})`passengers
      ensures Valid() && EffectsShown() && lastUpdate == currentTick
      ensures r.Normal? ==>
        BaseTicked(old(State()), State(), currentTick - old(lastUpdate), ev, env, isPlayer, fireProof, r.value, portalEntered)
    {
      var tickDiff := currentTick - lastUpdate;
      lastUpdate := currentTick;
      r, portalEntered := EntityBaseTick(tickDiff, ev, env, old(State()));
    }
  }
}
