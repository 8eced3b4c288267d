# Entity bookkeeping and the destination portal builder

This project is a Dafny model of two pieces of a Bedrock-edition game server.

**`BaseEntity`**, the base class of every entity in a world, modelled as the class
`Entities.Entity`. Its fields are updated in place by these operations:

- effects: the status-effect table, with adding, removing and ticking effects, and the
  overlay colour and ambient byte derived from the table;
- health: `setHealth`, `kill`, `attack`, `heal`, `fall`, and the health-boost bonus to the
  maximum;
- ticking: the `onUpdate` state machine (closed, dead with a grace period of ten ticks,
  alive) and the counter steps of `entityBaseTick`, which cover fire, no-damage ticks, the
  void threshold, the portal-residency counter with its trigger at 80, and age;
- viewers: the set of players the entity has been spawned to, and the spawn and despawn
  packets each player receives;
- mounting: vehicle and passengers;
- `close`.

**`BlockBehaviorNetherPortal.spawnPortal`**, the builder of a destination nether portal. It
is modelled as the method `Portal.SpawnPortal`, which works on a level whose blocks are a
mutable map from (x, y, z, layer) to a block state. The method:

- clears a 5×3×4 box on two layers;
- lays 8 obsidian base blocks;
- raises an obsidian frame around 6 portal blocks in the plane z+1.

The model is proved against a cell-by-cell layout. The proofs cover the exact final contents
of every written cell and show that nothing else changes.

The model is organised by module:

- `Common`: shared vocabulary. It has `Option`, the three unchecked exceptions the modelled
  code raises (a null argument, a failed `checkArgument`, a failed `(Vehicle)` cast), `Outcome` (returns or throws), `Vec3` and `BlockState`.
- `Effects`: the effect table as a map from kind to effect, and the weighted colour
  average (`Total`, `PackedColor`, `AmbientByte`), which does not depend on visiting order.
- `Health`: damage causes, listener verdicts (`Listeners`, one fixed policy per kind of
  event), the `setHealth` rule and fall damage.
- `Counters`: the step functions of the tick counters. It also has the dwell sequence of
  the portal counter.
- `Linkage`: the passenger list operations (`indexOf`, `remove`) and the entity-link list.
- `Viewing`: chunk coordinates, the per-player packet log (`Inbox`) and the viewer
  reconciliation of `checkChunks`.
- `Entities`: the entity class.
- `Portal`: the level and the portal builder.

How the model represents the environment:

- Event listeners are a parameter: a `Listeners` value says which events are cancelled.
- The blocks an entity collides with during a tick, and its player's game mode, are a
  parameter: `Surroundings`.
- The loaders of a chunk and the players that have it in view are parameters.
- The current server tick is a parameter of `onUpdate`.
- Packets a player receives are recorded in the ghost field `inbox`.
- Floats are modelled as `real`, without rounding.

The code differs from a natural reading of its intent in several places. The model follows
the code:

- `onMount` appends the vehicle itself to its passenger list, and `onDismount` removes the
  vehicle itself (BaseEntity.java:1178, :1186). So every element of a passenger list is the
  entity that owns it. `Entities.Entity.Valid` states this, and the model claims no
  vehicle/passenger consistency.
- `dismount(v)` never compares `v` with its own vehicle.
- `mount(target)` and `dismount(v)` cast their argument to `Vehicle` when they build the
  enter and exit events (BaseEntity.java:1131, :1155). An entity that is not a Vehicle makes
  them throw ClassCastException (`Common.ClassCast`). Through `this.vehicle.dismount(this)`,
  `mount` casts the mounting entity itself too. `Entities.Entity.isVehicle` says which
  entities pass the cast.
- `mount` dismounts through `this.vehicle.dismount(this)`. That call works on the old
  vehicle's own vehicle field, not on the mounting entity's.
- A living entity whose vehicle is dead but `Rideable` mounts that vehicle again
  (BaseEntity.java:933-935). It is not dismounted from it. The remount may throw.
- Health is not clamped to the maximum as an invariant: `setHealth` keeps a value above the
  maximum when it is lower than the current health (`Health.SetHealthKeepsExcess`), for
  example after a health boost has expired.
- The portal counter is raised straight to 80 on the first tick of contact. So the
  portal-enter event fires on the first tick an entity touches a portal, not after 80 ticks
  of dwelling (`Counters.PortalFiresOnEntry`). It fires at most once per uninterrupted stay
  (`Counters.PortalFiresAtMostOnce`).
- `respawnToAll` calls `spawnTo` only for players that are already viewers, so it never
  sends anything. It then clears the viewer set.
- The viewer set is a subset of the chunk's loaders only right after `checkChunks` has
  reconciled it. It is not an invariant.

## Model

| member | source | states |
|---|---|---|
| Effects.TotalRemove | src/main/java/org/cloudburstmc/server/entity/BaseEntity.java:543-554 | an accumulator's sum over a set of kinds is any one kind's term plus the sum over the rest, so the colour sums do not depend on the order the map is iterated in |
| Effects.WeightCount | src/main/java/org/cloudburstmc/server/entity/BaseEntity.java:543-556 | the weight count is never negative, and it is positive exactly when some visited effect is visible, so `count > 0` means "a visible effect exists" |
| Effects.TruncDivBracket | src/main/java/org/cloudburstmc/server/entity/BaseEntity.java:557-559 | Java's truncating int division brackets a non-negative dividend, and for a negative dividend it is the negated quotient of the negation |
| Effects.Channel8 | src/main/java/org/cloudburstmc/server/entity/BaseEntity.java:557-559 | `(sum / count) & 0xff` lies in 0..255 for every sum, negative ones included |
| Effects.Channel8Average | src/main/java/org/cloudburstmc/server/entity/BaseEntity.java:557-559 | for sums of 8-bit channel values the mask changes nothing: the channel is the floor of the weighted average |
| Effects.PackedColor | src/main/java/org/cloudburstmc/server/entity/BaseEntity.java:556-566 | the EFFECT_COLOR value of a table is a 24-bit value, 0 ≤ rgb < 2^24 |
| Effects.AmbientByte | src/main/java/org/cloudburstmc/server/entity/BaseEntity.java:562-565 | EFFECT_AMBIENT is 0 or 1 |
| Effects.NoVisibleEffect | src/main/java/org/cloudburstmc/server/entity/BaseEntity.java:539-567 | with no visible effect in the table, colour and ambient byte are both 0 |
| Effects.AmbientExactly | src/main/java/org/cloudburstmc/server/entity/BaseEntity.java:539-567 | the ambient byte is 1 if and only if some effect is visible and every visible effect is ambient |
| Effects.InvisibleEffectIgnored | src/main/java/org/cloudburstmc/server/entity/BaseEntity.java:544-553 | adding an invisible effect gives the same colour and ambient byte as having no effect of that kind |
| Effects.DurationIrrelevant | src/main/java/org/cloudburstmc/server/entity/BaseEntity.java:939-950 | lowering an effect's duration in the tick loop leaves colour and ambient byte unchanged |
| Effects.ComputeEffectColor | src/main/java/org/cloudburstmc/server/entity/BaseEntity.java:539-567 | the loop over the table yields exactly the packed colour and ambient byte of the table, over any iteration order, and the colour is below 2^24 |
| Effects.TickEffectsEntries | src/main/java/org/cloudburstmc/server/entity/BaseEntity.java:939-950 | after the effect loop a kind is present if and only if its duration minus tickDiff is positive, and then it holds the old effect with that lowered duration |
| Effects.DecayStep | src/main/java/org/cloudburstmc/server/entity/BaseEntity.java:944-948 | one iteration keeps or removes kind k according to its lowered duration, and leaves every other kind as it was |
| Effects.TickEffectsShrinks | src/main/java/org/cloudburstmc/server/entity/BaseEntity.java:939-950 | a tick never adds a kind and keeps every entry stored under its own kind |
| Effects.MaxHealthWith | src/main/java/org/cloudburstmc/server/entity/BaseEntity.java:815-817 | the maximum equals the base exactly when there is no health boost, and otherwise exceeds it by exactly 4·(amplifier+1) |
| Effects.JumpBoostBonus | src/main/java/org/cloudburstmc/server/entity/BaseEntity.java:1343 | the jump-boost reduction is 0 exactly when there is no jump boost, and never negative |
| Health.Max0 | src/main/java/org/cloudburstmc/server/entity/BaseEntity.java:754 | `Math.max(0, x)` is non-negative, at least x, and one of 0 and x |
| Health.SetHealthResult | src/main/java/org/cloudburstmc/server/entity/BaseEntity.java:781-797 | starting from non-negative health and maximum, setHealth never leaves negative health |
| Health.SetHealthOutcomes | src/main/java/org/cloudburstmc/server/entity/BaseEntity.java:781-797 | the four cases of setHealth: equal value means no change; below 1 gives 0 if alive, else no change; at least 1 and (at most max or lower than current) gives h; anything else gives max |
| Health.SetHealthClamped | src/main/java/org/cloudburstmc/server/entity/BaseEntity.java:781-797 | from health within [0, max], setHealth stays within [0, max] |
| Health.SetHealthKeepsExcess | src/main/java/org/cloudburstmc/server/entity/BaseEntity.java:790-791 | setting health to any value of at least 1 below the current health gives exactly that value, so health above the maximum stays above it |
| Health.DeathIsIdempotent | src/main/java/org/cloudburstmc/server/entity/BaseEntity.java:786-789 | a living entity set below 1 dies with health 0, and a second setHealth below 1 leaves it at 0 |
| Health.DamageNeverHeals | src/main/java/org/cloudburstmc/server/entity/BaseEntity.java:781-797 | setting health to current minus a non-negative damage never raises it, whatever the maximum |
| Health.FallDamage | src/main/java/org/cloudburstmc/server/entity/BaseEntity.java:1343 | the damage is the floor of distance − 3 − jump boost: the greatest integer not above it |
| Health.FallOfFiveBlocks | src/main/java/org/cloudburstmc/server/entity/BaseEntity.java:1343 | a worked instance of FallDamage: a five-block fall without jump boost deals 2 |
| Counters.NextPortalTicks | src/main/java/org/cloudburstmc/server/entity/BaseEntity.java:1726-1734 | no contact resets the counter to 0; contact gives at least 80, increments a counter already at 80 or more, and gives exactly 80 if and only if the counter was below 80 |
| Counters.Dwell | src/main/java/org/cloudburstmc/server/entity/BaseEntity.java:1726-1731 | during an uninterrupted stay in a portal the first contact sets the counter to NextPortalTicks of the start and each later tick adds one |
| Counters.DwellIncreasing | src/main/java/org/cloudburstmc/server/entity/BaseEntity.java:1726-1731 | during an uninterrupted stay in a portal the counter is at least 80 on each tick and strictly increasing |
| Counters.PortalFiresAtMostOnce | src/main/java/org/cloudburstmc/server/entity/BaseEntity.java:994-998 | the trigger condition `inPortalTicks == 80` holds on at most one tick of an uninterrupted stay |
| Counters.PortalFiresOnEntry | src/main/java/org/cloudburstmc/server/entity/BaseEntity.java:1726-1728 | a worked instance of Dwell: entering a portal from outside meets the trigger condition on the first tick of contact |
| Counters.FireStep | src/main/java/org/cloudburstmc/server/entity/BaseEntity.java:967-985 | a burning entity loses 4·tickDiff fire ticks if fire-proof and tickDiff otherwise, clamped at exactly 0, with ON_FIRE cleared at 0 and set while burning with a visible flame; a non-burning one is untouched |
| Counters.NoDamageStep | src/main/java/org/cloudburstmc/server/entity/BaseEntity.java:987-992 | positive no-damage ticks decrease by tickDiff, clamped at 0; a non-positive value is left alone |
| Counters.Ignite | src/main/java/org/cloudburstmc/server/entity/BaseEntity.java:1247-1252 | setOnFire never lowers fire ticks, and the result is the larger of the old value and 20·seconds |
| Counters.FireBurnsDown | src/main/java/org/cloudburstmc/server/entity/BaseEntity.java:967-978 | with a positive tick difference the fire counter strictly drops, by exactly 4·tickDiff when fire-proof and not yet burnt out |
| Linkage.PassengerLinks | src/main/java/org/cloudburstmc/server/entity/BaseEntity.java:657-660 | one link per passenger: RIDER for index 0 and PASSENGER for every other index |
| Linkage.IndexOf | src/main/java/org/cloudburstmc/server/entity/BaseEntity.java:447-449 | indexOf is −1 exactly when the element is absent, and otherwise it is a position holding the element with no earlier occurrence |
| Linkage.RemoveFirst | src/main/java/org/cloudburstmc/server/entity/BaseEntity.java:1186 | `List.remove` shortens the list by one exactly when the element is present |
| Linkage.RemoveFirstAbsent | src/main/java/org/cloudburstmc/server/entity/BaseEntity.java:1186 | `List.remove` leaves a list without the element unchanged |
| Linkage.RemoveFirstAtIndex | src/main/java/org/cloudburstmc/server/entity/BaseEntity.java:1186 | when the element is present, `List.remove` cuts out exactly the position indexOf finds |
| Linkage.RemoveFirstMultiset | src/main/java/org/cloudburstmc/server/entity/BaseEntity.java:1186 | `List.remove` removes exactly one copy of the element from the multiset of elements |
| Viewing.ChunkIndex | src/main/java/org/cloudburstmc/server/entity/BaseEntity.java:1768 | `v >> 4` is the index of the 16-block span containing v, negative v included |
| Viewing.ChunkIndexUnique | src/main/java/org/cloudburstmc/server/entity/BaseEntity.java:1768 | the chunk index is the only integer whose span contains v |
| Viewing.ChunkOf | src/main/java/org/cloudburstmc/server/entity/BaseEntity.java:1768 | the chunk of a position is the chunk whose spans contain the floored x and z |
| Viewing.Reconciled | src/main/java/org/cloudburstmc/server/entity/BaseEntity.java:1777-1790 | every viewer after reconciliation loads the new chunk |
| Viewing.ReconciledFacts | src/main/java/org/cloudburstmc/server/entity/BaseEntity.java:1777-1790 | after reconciliation every viewer is a loader, every in-view loader is a viewer, no viewer that loads the chunk is dropped, and only in-view players are added |
| Entities.Entity.constructor | src/main/java/org/cloudburstmc/server/entity/BaseEntity.java:569-606 | a new entity is valid, just created, not closed, has health 20, no effects, viewers or linkage, is stamped with the current tick, and sits in the loaded chunk at its position, if any |
| Entities.Entity.MaxHealth | src/main/java/org/cloudburstmc/server/entity/BaseEntity.java:815-817 | getMaxHealth is the base maximum with the health-boost bonus of the current table |
| Entities.Entity.IsControlling | src/main/java/org/cloudburstmc/server/entity/BaseEntity.java:447-449 | an entity is controlling if and only if it is the first passenger |
| Entities.Entity.GetPassenger | src/main/java/org/cloudburstmc/server/entity/BaseEntity.java:439-441 | the result is null exactly when there is no passenger, and otherwise it is the first passenger, which is controlling |
| Entities.Entity.RecalculateEffectColor | src/main/java/org/cloudburstmc/server/entity/BaseEntity.java:539-567 | afterwards EFFECT_COLOR and EFFECT_AMBIENT agree with the table |
| Entities.Entity.RemoveEffect | src/main/java/org/cloudburstmc/server/entity/BaseEntity.java:477-485 | the table loses exactly the kind k; every other kind is untouched; an absent kind changes nothing, the colour included; the colour stays in agreement with the table |
| Entities.Entity.RemoveAllEffects | src/main/java/org/cloudburstmc/server/entity/BaseEntity.java:464-469 | the table ends empty, with colour and ambient byte 0 |
| Entities.Entity.DecayEffect | src/main/java/org/cloudburstmc/server/entity/BaseEntity.java:944-948 | one iteration of the effect loop performs DecayStep on the table, and the colour stays in agreement |
| Entities.Entity.DecayEffects | src/main/java/org/cloudburstmc/server/entity/BaseEntity.java:939-950 | the whole effect loop turns the table into TickEffects of the old table, whatever the iteration order |
| Entities.Entity.AddEffect | src/main/java/org/cloudburstmc/server/entity/BaseEntity.java:511-527 | a null effect changes nothing; otherwise the effect replaces any entry of its kind and every other kind is untouched; a health boost raises health through setHealth under the new maximum; linkage unchanged |
| Entities.Entity.SetHealth | src/main/java/org/cloudburstmc/server/entity/BaseEntity.java:781-797 | health becomes SetHealthResult under getMaxHealth; only a death runs kill's dismount, and otherwise the linkage is unchanged |
| Entities.Entity.Kill | src/main/java/org/cloudburstmc/server/entity/BaseEntity.java:1846-1853 | health becomes 0, and the entity (its only possible passenger) leaves its own vehicle when it has one, has a passenger, is a Vehicle and the exit is not cancelled |
| Entities.Entity.SetAbsorption | src/main/java/org/cloudburstmc/server/entity/BaseEntity.java:1258-1264 | absorption becomes the given value |
| Entities.Entity.Attack | src/main/java/org/cloudburstmc/server/entity/BaseEntity.java:741-759 | the result is true if and only if the damage is neither fire-type under fire resistance nor cancelled; a refusal changes nothing; an accepted attack records the cause, adjusts a positive absorption and subtracts the final damage through setHealth |
| Entities.Entity.Heal | src/main/java/org/cloudburstmc/server/entity/BaseEntity.java:765-771 | a cancelled regain changes nothing; otherwise health becomes setHealth of health plus the amount |
| Entities.Entity.Fall | src/main/java/org/cloudburstmc/server/entity/BaseEntity.java:1334-1347 | damage is dealt if and only if there is no slow falling, the game rule does not spare a player, floor(d − 3 − jump boost) is positive and the FALL event is not cancelled; without damage nothing changes |
| Entities.Entity.OnMount | src/main/java/org/cloudburstmc/server/entity/BaseEntity.java:1175-1181 | throws IllegalArgument and changes nothing unless the passenger names this vehicle; otherwise appends the vehicle itself and seats the passenger at 0.75 of the vehicle's height |
| Entities.Entity.OnDismount | src/main/java/org/cloudburstmc/server/entity/BaseEntity.java:1183-1188 | throws IllegalArgument and changes nothing if the passenger still names this vehicle or the vehicle is not in its own list; otherwise removes the vehicle's first entry and resets the passenger's seat |
| Entities.Entity.Dismount | src/main/java/org/cloudburstmc/server/entity/BaseEntity.java:1148-1173 | returns false and changes nothing without a vehicle or when the exit is cancelled; with a vehicle, an argument that is not a Vehicle throws ClassCast and changes nothing; otherwise the vehicle field is cleared and the result is true, with seat zero and MOVING set, exactly when onDismount succeeds |
| Entities.Entity.Mount | src/main/java/org/cloudburstmc/server/entity/BaseEntity.java:1123-1146 | a null target throws; a refused dismount of the current vehicle returns false and changes no linkage, and one that fails the cast of the mounting entity throws ClassCast; a target that is not a Vehicle throws ClassCast; the result is true if and only if the target is a Vehicle and the enter event passes (after any dismount succeeds), and then the vehicle is the target |
| Entities.Entity.Board | src/main/java/org/cloudburstmc/server/entity/BaseEntity.java:1130-1145 | throws ClassCast exactly when the target is not a Vehicle; true if and only if the target is a Vehicle and the enter event is not cancelled; a throw or a cancel changes no linkage, and success sets the vehicle and appends the target to its own passengers |
| Entities.Entity.SetOnFire | src/main/java/org/cloudburstmc/server/entity/BaseEntity.java:1247-1252 | fire ticks become Ignite of the old value, so they never drop |
| Entities.Entity.Extinguish | src/main/java/org/cloudburstmc/server/entity/BaseEntity.java:1284-1287 | fire ticks become 0 and ON_FIRE is cleared |
| Entities.Entity.BurnTick | src/main/java/org/cloudburstmc/server/entity/BaseEntity.java:967-985 | the fire counter and flag follow FireStep; the tick reports an update exactly while still burning with a visible flame; without FIRE_TICK damage due, health and linkage are unchanged; health never rises |
| Entities.Entity.SpawnTo | src/main/java/org/cloudburstmc/server/entity/BaseEntity.java:627-644 | a null chunk throws; a player out of view or already a viewer is left alone; otherwise the player becomes a viewer and is sent the AddEntity packet with the passenger links, and the rider link when mounted |
| Entities.Entity.DespawnFrom | src/main/java/org/cloudburstmc/server/entity/BaseEntity.java:733-739 | only a current viewer is removed and sent one RemoveEntity packet; anyone else is a no-op |
| Entities.Entity.DespawnFromAll | src/main/java/org/cloudburstmc/server/entity/BaseEntity.java:1929-1933 | the viewer set ends empty, and exactly the old viewers were each sent one RemoveEntity packet |
| Entities.Entity.RespawnToAll | src/main/java/org/cloudburstmc/server/entity/BaseEntity.java:1910-1915 | no packet is sent; the viewer set is cleared, except when a null chunk makes the first spawnTo throw |
| Entities.Entity.DropViewersOutside | src/main/java/org/cloudburstmc/server/entity/BaseEntity.java:1778-1785 | viewers that do not load the chunk are despawned, each with one RemoveEntity packet; the loaders left to visit are those not yet viewing |
| Entities.Entity.SpawnToEach | src/main/java/org/cloudburstmc/server/entity/BaseEntity.java:1787-1789 | exactly the in-view remaining loaders become viewers, and each is sent the spawn packets |
| Entities.Entity.CheckChunks | src/main/java/org/cloudburstmc/server/entity/BaseEntity.java:1766-1798 | staying in the same chunk changes nothing; an unloaded new chunk leaves no chunk and the viewers unchanged; otherwise the new chunk is taken, and unless just created the viewers become the reconciliation, with per-player packets exactly as ChunkChangePackets says |
| Entities.Entity.Close | src/main/java/org/cloudburstmc/server/entity/BaseEntity.java:1935-1948 | afterwards closed; a second close changes nothing; the first despawns every viewer, one RemoveEntity packet each |
| Entities.Entity.CheckBlockCollision | src/main/java/org/cloudburstmc/server/entity/BaseEntity.java:1710-1734 | the portal counter becomes NextPortalTicks of the old counter, according to whether some colliding block is a portal (the callbacks of the other blocks left out) |
| Entities.Entity.EntityBaseTick | src/main/java/org/cloudburstmc/server/entity/BaseEntity.java:916-1025 | a dead entity returns false and loses its effects and viewers, and is closed unless a player, with counters and health kept; only a remount can throw; a living tick satisfies BaseTicked (block and effect callbacks left out) and, with the seat updates through setPosition left out, leaves viewers, packets and closed unchanged |
| Entities.Entity.LiveTick | src/main/java/org/cloudburstmc/server/entity/BaseEntity.java:933-1021 | the living branch throws only from remounting a dead rideable vehicle, and a normal end satisfies BaseTicked over the effects, counters and health, with the block and effect callbacks left out |
| Entities.Entity.Expire | src/main/java/org/cloudburstmc/server/entity/BaseEntity.java:925-932 | the dead branch empties the table and the viewer set, with one RemoveEntity packet per old viewer, and closes a non-player |
| Entities.Entity.Remount | src/main/java/org/cloudburstmc/server/entity/BaseEntity.java:933-935 | with the seat update through setPosition left out, effects, counters, health and position are untouched; only a dead rideable vehicle leads to a mount, which is the only way to throw; without one the linkage is unchanged |
| Entities.Entity.AdvanceAlive | src/main/java/org/cloudburstmc/server/entity/BaseEntity.java:939-1021 | with the block and effect callbacks left out, the steps after the remount satisfy BaseTicked: effects tick, counters advance, health never rises, and the trigger and hasUpdate are as specified |
| Entities.Entity.AdvanceCounters | src/main/java/org/cloudburstmc/server/entity/BaseEntity.java:952-1021 | with the block callbacks left out, fire, no-damage, portal and age counters follow their step functions; the portal trigger fires if and only if the counter is exactly 80 and the event is not cancelled; hasUpdate is "void fall of a non-player, or still burning visibly" |
| Entities.Entity.Hazards | src/main/java/org/cloudburstmc/server/entity/BaseEntity.java:956-985 | the fire counter and flag follow FireStep; health never rises; hasUpdate is exactly "void fall of a non-player, or still burning visibly" |
| Entities.Entity.RunDown | src/main/java/org/cloudburstmc/server/entity/BaseEntity.java:987-1021 | no-damage ticks follow NoDamageStep; age and ticks lived grow by tickDiff |
| Entities.Entity.VoidCheck | src/main/java/org/cloudburstmc/server/entity/BaseEntity.java:956-965 | an update is reported exactly for a living non-player at or below y = −16; health never rises; above the threshold, or for a creative player, health and linkage are unchanged |
| Entities.Entity.OnUpdate | src/main/java/org/cloudburstmc/server/entity/BaseEntity.java:1083-1114 | a closed entity returns false and nothing changes; a dead one counts a dead tick, returns deadTicks < 10, and from the tenth is despawned and closed iff not a player; a living one with no elapsed time changes nothing; otherwise lastUpdate becomes the current tick and the base tick runs over the elapsed ticks, satisfying BaseTicked with the block and effect callbacks left out |
| Entities.Entity.TickSince | src/main/java/org/cloudburstmc/server/entity/BaseEntity.java:1099-1107 | the update time is stamped with the current tick, and a normal end satisfies BaseTicked over the ticks since the previous update, with the block and effect callbacks left out |
| Portal.Level.SetBlockAt | src/main/java/org/cloudburstmc/server/block/behavior/BlockBehaviorNetherPortal.java:22-23 | one write changes exactly the named cell on the named layer |
| Portal.Anchor | src/main/java/org/cloudburstmc/server/block/behavior/BlockBehaviorNetherPortal.java:17 | the anchor is the largest integer point not above the position on each axis |
| Portal.SpawnPortal | src/main/java/org/cloudburstmc/server/block/behavior/BlockBehaviorNetherPortal.java:16-68 | the level after the builder is the level before with the layout written at the floored anchor: each written cell holds its layout block and every other cell is as it was |
| Portal.ClearBox | src/main/java/org/cloudburstmc/server/block/behavior/BlockBehaviorNetherPortal.java:19-26 | the three nested loops make both layers of the box x−1..x+3, y+1..y+3, z−1..z+2 air and touch nothing else |
| Portal.LayBase | src/main/java/org/cloudburstmc/server/block/behavior/BlockBehaviorNetherPortal.java:31-42 | the eight base cells become obsidian and nothing else changes |
| Portal.RaiseFrame | src/main/java/org/cloudburstmc/server/block/behavior/BlockBehaviorNetherPortal.java:44-67 | in the plane z+1 the six portal cells become portal blocks, the ten frame cells become obsidian, and nothing else changes |
| Portal.PortalRow | src/main/java/org/cloudburstmc/server/block/behavior/BlockBehaviorNetherPortal.java:46-49 | one frame row is obsidian at both ends with two portal blocks between, and nothing else changes |
| Portal.TopRow | src/main/java/org/cloudburstmc/server/block/behavior/BlockBehaviorNetherPortal.java:63-67 | the top row across x..x+3 becomes obsidian and nothing else changes |
| Portal.ListedBlocks | src/main/java/org/cloudburstmc/server/block/behavior/BlockBehaviorNetherPortal.java:31-67 | the explicitly listed portal, frame and base blocks are exactly the cells the layout predicates describe |
| Portal.PortalCount | src/main/java/org/cloudburstmc/server/block/behavior/BlockBehaviorNetherPortal.java:44-61 | a consistency check of the layout: it lists six portal blocks |
| Portal.FrameCount | src/main/java/org/cloudburstmc/server/block/behavior/BlockBehaviorNetherPortal.java:44-67 | a consistency check of the layout: it lists ten frame blocks |
| Portal.BaseCount | src/main/java/org/cloudburstmc/server/block/behavior/BlockBehaviorNetherPortal.java:31-42 | a consistency check of the layout: it lists eight base blocks |
| Portal.PortalExactlySix | src/main/java/org/cloudburstmc/server/block/behavior/BlockBehaviorNetherPortal.java:44-61 | in a built portal, a written cell is a portal block if and only if it is one of the six cells x+1..x+2, y+1..y+3 at z+1 on layer 0 |
| Portal.FrameIsObsidian | src/main/java/org/cloudburstmc/server/block/behavior/BlockBehaviorNetherPortal.java:44-67 | the columns x and x+3 at y+1..y+3 and the top row x..x+3 at y+4, all at z+1, are obsidian: ten blocks |
| Portal.BaseIsObsidian | src/main/java/org/cloudburstmc/server/block/behavior/BlockBehaviorNetherPortal.java:31-42 | the eight base blocks at height y are obsidian |
| Portal.LayerOneCleared | src/main/java/org/cloudburstmc/server/block/behavior/BlockBehaviorNetherPortal.java:19-26 | every cell of the clearing box is air on layer 1 |
| Portal.UnwrittenCleared | src/main/java/org/cloudburstmc/server/block/behavior/BlockBehaviorNetherPortal.java:19-61 | every cell of the clearing box that is not a frame or portal block is air, on either layer |
| Portal.OutsideUntouched | src/main/java/org/cloudburstmc/server/block/behavior/BlockBehaviorNetherPortal.java:16-68 | no cell outside the clearing box, the base and the top row changes |
| Portal.BuiltUnique | src/main/java/org/cloudburstmc/server/block/behavior/BlockBehaviorNetherPortal.java:16-68 | the level after the builder is completely determined by the level before and the anchor |
| Portal.BuildIdempotent | src/main/java/org/cloudburstmc/server/block/behavior/BlockBehaviorNetherPortal.java:16-68 | building the same portal a second time changes nothing |

`BaseTicked` (entity.dfy) is the specification a living base tick is proved against. It
describes the tick with the foreign callbacks left out: `onEntityCollide` and
`addVelocityToEntity` of every non-portal block the entity touches, and `applyEffect` of the
effects that can tick. Any of them may change health, fire ticks or anything else, so the
clauses below hold only for callbacks that do nothing:

- the table becomes `TickEffects` of the old table;
- fire, no-damage and portal counters follow `FireStep`, `NoDamageStep` and
  `NextPortalTicks`;
- age and ticks lived grow by tickDiff;
- health never rises;
- `portalEntered` holds if and only if the counter is exactly 80 and the portal-enter event
  is not cancelled;
- the returned flag is exactly "a non-player at or below the void threshold, or burning with
  a visible flame after the step".

## Left out

- Physics: `move`, `fastMove`, `checkObstruction` and `onEntityCollision`, the velocity that
  `checkBlockCollision` accumulates from colliding blocks, `updateMovement` and the
  direction helpers. These are floating-point geometry against a world that is not part of
  this model.
- The teleport after an accepted portal-enter event (BaseEntity.java:999-1017): it preloads
  nine chunks asynchronously and then teleports. `portalEntered` models only the decision
  that the event fired and was not cancelled. `moveToNether` and the chunk futures are not
  part of this model.
- Asynchronous chunk loading in `init`, and registration with the level: `level.addEntity`,
  `chunk.addEntity`, `chunk.removeEntity` and `level.removeEntity` in `init`, `checkChunks`
  and `close`. The EntitySpawnEvent and EntityDespawnEvent are left out too. These are calls
  into the level and the event system, which this model does not include.
- NBT loading and saving, Timings, `scheduleUpdate`, synced entity data other than the
  EFFECT_COLOR/EFFECT_AMBIENT values and the ON_FIRE/MOVING flags, and the HEALTH data value
  written by `setHealth`. These are foreign-library bookkeeping.
- Block callbacks: `behavior.onEntityCollide(block, this)` in `checkBlockCollision`
  (BaseEntity.java:1722), called for every non-portal block the entity touches. It is code of
  each block behaviour, outside this core, and can set the entity on fire, damage it or kill
  it. The model runs no such callback.
- Effect callbacks: `effect.add`, `effect.remove` and `effect.applyEffect` for effects that can
  tick. They are effect-specific code outside this core. The `canTick` field is kept but not
  used.
- `updatePassengers` and `updatePassengerPosition`. They move passengers to their seats
  through `setPosition` (BaseEntity.java:1212-1213), and `setPosition` runs `checkChunks`
  (BaseEntity.java:1800-1810). So in Java a living tick with a non-empty passenger list
  (BaseEntity.java:937), the remount, `onMount` (BaseEntity.java:1180) and `dismount`
  (BaseEntity.java:1169) can move the entity, reconcile its viewer set and send spawn and
  despawn packets. None of these position updates is modelled. The model keeps the position
  and the viewers fixed in all of them, and the void check reads the position before the
  update. EntityBaseTick's unchanged viewers and packets, LiveTick's frame (which leaves out
  the viewers and the inbox) and Remount's unchanged `State()` hold only with this left out.
  Since every passenger of a living entity is the entity itself, the dismount branch of
  `updatePassengers` never applies.
- `broadcastLinkPacket` in `mount` and `dismount`, and any packets other than AddEntity, the
  rider link and RemoveEntity. Only the packets of the viewer operations go into `inbox`.
- The farmland trampling at the end of `fall` (BaseEntity.java:1349-1367): it breaks a block
  depending on a random draw and world state.
- `BlockBehaviorNetherPortal.onBreak`, and whatever `setBlockAt` does beyond storing the block,
  such as neighbour updates. `Portal.Level` holds only the block of each cell.
- Effects.ComputeEffectColor: does not wrap the colour sums to 32 bits. A sum that overflows an
  int in Java is modelled as its exact value.
- Entities.Entity.DecayEffects: the Java loop removes entries from the fastutil map it is iterating
  over. The model visits every entry exactly once and removes the expired ones, and does not
  model the entries such an iteration might skip.
- Entities.Entity.RemoveAllEffects: also iterates over the map it removes from. The model
  removes every kind.
- Entities.Entity.SpawnTo: does not model the recursive `this.vehicle.spawnTo(player)` call, so
  the vehicle's own spawn packets are not in the inbox. The entity's own AddEntity packet and
  rider link are modelled.
- Entities.Entity.CheckChunks: `loaders.remove(player)` removes players from the chunk's own
  loader set. The model returns the remaining loaders instead and leaves the chunk's set
  alone.
- Entities.Entity.EntityBaseTick: after a remount, the contract does not state the new
  linkage. It states only that the remount is the one way the tick can throw. Its unchanged
  viewers and packets hold only with the seat updates through `setPosition` left out. Its living
  branch satisfies BaseTicked with the block and effect callbacks left out, the same gap as
  LiveTick.
- Entities.Entity.OnUpdate: `updateMovement` and `data.update` after the base tick are
  not modelled, and the living branch's BaseTicked has the same gap as LiveTick.
- Entities.Entity.Attack: the final damage and the absorption modifier come from the damage
  event, which computes them outside this model. They are inputs.
- Entities.Entity.Fall: the FALL_DAMAGE game rule is an input. The FALL event is taken to
  carry floor(d − 3 − jump boost) as its final damage (see Health.BaseDamage), so the exact
  subtraction of `FallDamage` rests on that reading of the event class.
- Health.BaseDamage: a damage event the entity raises itself (fall, fire tick, void) is read
  as carrying its base amount as final damage and no absorption modifier. EntityDamageEvent
  computes both and is not part of this model. The damage that Fall, BurnTick and VoidCheck
  deal rests on this reading.
- Entities.Entity.CheckBlockCollision: models only the portal counter. The callbacks of the
  other blocks touched (`onEntityCollide`, `addVelocityToEntity`) are not run.
- Entities.Entity.LiveTick: BaseTicked holds with the block callbacks of
  `checkBlockCollision` and the `applyEffect` callbacks left out. A callback that sets the
  entity on fire or damages it would break the fire step and "health never rises".
- Entities.Entity.AdvanceAlive: the same gap as LiveTick. Its fire step and "health never
  rises" assume that no callback runs before them.
- Entities.Entity.AdvanceCounters: the fire counter follows FireStep of its value before the
  tick only because no block callback runs in `checkBlockCollision` first.
- Entities.Entity.TickSince: its BaseTicked has the same gap as LiveTick.
- Entities.Entity.Remount: its "position, effects, counters and health untouched" holds only
  with the seat updates of the mount left out. In Java the mount moves the entity to the
  vehicle's position plus its seat, which can cross a chunk boundary and change its viewers.
- Entities.Entity.Mount: the `setPosition` of the seat update that `onMount` makes is not
  modelled, so the contract says nothing about the mounting entity's position or viewers.
- Entities.Entity.Dismount: `updatePassengerPosition(vehicle)` after the seat reset is not
  modelled, so the contract says nothing about the moved entity's position or viewers.
- Entities.Entity.Kill: one `Listeners` value gives the same verdict to every exit event. Java
  builds and fires a fresh event for each dismount of the passenger snapshot, and the snapshot
  can hold the entity several times, so a listener that cancels the first exit and lets a
  later one pass dismounts the entity in Java but not in the model. Kill also ignores a
  ClassCastException from that dismount, which Java would propagate to kill's caller. The
  failed cast changes nothing, so the state is the same, but setHealth's callers carry on in
  the model.
- Entities.Entity.SetAbsorption: the ABSORPTION attribute that is sent to a player
  (BaseEntity.java:1261-1262) is not modelled. Only the field is.
- Floats are modelled as reals, so the float rounding of `Math.floor`, of
  `getHeight() * 0.75f` and of the health arithmetic is not modelled.
