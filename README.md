# zombies_online: a Dafny model of the game's ECS bookkeeping

zombies_online is a small multiplayer top-down game built on Bevy. Each player
drives a car through a grid city full of zombies, and peers talk over Steam P2P.
This project models the discrete bookkeeping in the game's systems and proves
properties of it:

- **Health ledger** (`Health`): integer health per entity, and the replicated
  `ChangeHealth` deltas applied to the first entity with a matching network id.
  Death tagging and despawn on death follow the schedule PreUpdate → Update →
  PostUpdate.
- **Population and targeting** (`Zombies`):
  - host-only spawning and despawning of zombies around the players;
  - nearest-player aggro events and their handler;
  - corpse requests for dead zombies;
  - the components a new zombie starts with.
- **Symmetric pair lookup** (`Utils`): `query_double` and `query_double_mut`.
- **Car rig and inputs** (`ZoCar`):
  - the four tires and the camera made by `spawn_car`;
  - the `turning` and `drift` systems over the tires;
  - the control flow of `handle_collisions`.
- **City grid** (`ZoWorld`): the 64 × 64 buildings of `spawn_world`.
- **Shared types** (`Ecs`): entities, network ids, instantiation requests, and
  the first-match lookup `iter().find(..)`.

How the ECS is modelled:

- The world is a sequence `order` of entities plus one map per component.
  Every query visits the entities of `order` in that order. Iteration order
  matters here: several systems take the first match, and some stop at the
  first failure with `return`.
- Systems that mutate components in place are methods proved equal to a pure
  function of the old state. The health and aggro systems are
  methods of a `World` class with `modifies this`. `ZoCar.Turning` and
  `ZoCar.Drift` work on an `array<TireEntity>`, the tires in query order, with
  `modifies tires`.
- Systems that only issue deferred commands, send events or call the transport
  are methods that return the list of commands. For the health systems,
  applying that list is a separate function. The zombie despawns and the
  instantiation requests are returned and not applied.
- These are parameters of the model, not computed by it:
  - distances between entities;
  - the random sample point and facing;
  - the shape cast;
  - the lobby-owner query (an `Ownership` that can be unavailable);
  - the keyboard state;
  - the local peer id.
- Float quantities are `real`, the distances compared with the 700 and 100
  thresholds among them. The exceptions are the city grid and the car's width,
  length and tire offsets: they are whole numbers and modelled as `int`.

Behaviours of the code that the model keeps, because it follows the code:

- Health has no outbox of queued deltas. In src/zo/health/mod.rs, `emit_changes` is
  the only place that changes `amount`, one event at a time. `handle_collisions`
  calls `hurt` on a zombie's `Health`, but `hurt` is not defined in the `impl Health`
  block of src/zo/health/mod.rs:34-42 (see
  "Left out").
- `handle_zombie_agro_change` `return`s on the first event that does not
  resolve. It does not drop just that event: the events after it are not applied
  in that run (`Zombies.UnresolvedAbortsBatch`).
- `handle_death` inserts `Dead` again on every frame while `amount <= 0`.
  This is idempotent on the set of tagged entities (`Health.DeathCheckTagsExactly`).
- Nothing keeps the zombie count near a player at or below 20 after a tick:
  another player's spawn can push it over. The model proves only the per-player
  rule that the code implements.

## Model

| member | source | states |
|---|---|---|
| Ecs.IdentityItems | src/zo/health/mod.rs:46 | every item of a `(NetworkIdentity, ..)` query is an entity of the world that has that identity and the other components; there are no more items than entities |
| Ecs.IdentityItemsComplete | src/zo/zombies/mod.rs:152 | every entity with an identity and the queried components appears as an item with its own id |
| Ecs.FirstWithId | src/zo/health/mod.rs:49 | `find` yields nothing exactly when no item carries the id; otherwise it yields an entity whose item carries that id |
| Ecs.FirstWithIdIsFirst | src/zo/zombies/mod.rs:156-158 | the entity found is the one of the earliest item with that id |
| Ecs.Find | src/zo/zombies/mod.rs:156-158 | the linear search returns exactly the first match |
| Utils.QueryDouble | src/utils/mod.rs:20-26 | the given orientation's items when it matches, else the swapped orientation's items when that matches, else none |
| Utils.QueryDoubleMut | src/utils/mod.rs:41-47 | the borrowed pair is `(e1, e2)` or `(e2, e1)`, the first is in the first query and the second in the second; none exactly when neither orientation matches |
| Utils.QueryDoubleGivenOrientation | src/utils/mod.rs:20-22 | when `e1` is in `q1` and `e2` in `q2`, the result is their items, even if the swapped orientation also matches |
| Utils.QueryDoubleSwappedOrientation | src/utils/mod.rs:23-25 | otherwise, when the swapped orientation matches, the result is the swapped items |
| Utils.QueryDoubleNoneIff | src/utils/mod.rs:20-26 | no result exactly when neither orientation matches |
| Utils.QueryDoubleSymmetric | src/utils/mod.rs:20-26 | when at most one orientation matches, swapping the arguments gives the same result |
| Utils.QueryDoubleAsymmetricWhenBothMatch | src/utils/mod.rs:20-26 | when both orientations match with different items, the argument order changes the result |
| Utils.QueryDoubleMutSelectsSamePair | src/utils/mod.rs:20-46 | every lookup is guarded by membership, and the mutable variant selects the same pair as the read-only one |
| Health.AsI32 | src/zo/health/mod.rs:37 | `as i32` keeps the value modulo 2^32 and lands in the i32 range |
| Health.New | src/zo/health/mod.rs:35-41 | `max_amount` and `destroy_on_death` are as given; the amount equals `max` when `max <= i32::MAX` and is negative otherwise |
| Health.ApplyChange | src/zo/health/mod.rs:49-53 | one event keeps the entities, identities, tags and health keys; an event with no match leaves the store as it was |
| Health.Changed | src/zo/health/mod.rs:44-55 | the deltas change only amounts: the entities, identities, tags, maxima and destroy flags are as before |
| Health.ChangedAmount | src/zo/health/mod.rs:44-55 | after a batch, each amount is its initial amount plus the sum of the changes whose id it was the first match for |
| Health.DeltaPermutation | src/zo/health/mod.rs:48-53 | the sum of the changes going to an entity does not depend on the order of the events |
| Health.ChangedOrderIndependent | src/zo/health/mod.rs:44-55 | any reordering of a batch gives the same store |
| Health.ChangedSkipsUnmatched | src/zo/health/mod.rs:49-52 | an event that matches no entity changes nothing, and the events after it are still applied |
| Health.UnmatchedIffNoSuchEntity | src/zo/health/mod.rs:49 | an event has no match exactly when no entity with `Health` carries its id |
| Health.OneChange | src/zo/health/mod.rs:53 | one event adds its change to the amount of the matched entity, without clamping; that entity has the event's id; no other field and no other entity changes |
| Health.HandleDeath | src/zo/health/mod.rs:57-63 | queues `Dead` for exactly the entities whose amount is at most 0 |
| Health.AfterDeathCheck | src/zo/health/mod.rs:57-63 | the death check only adds `Dead` tags; entities, identities and health are kept |
| Health.DeathCheckTagsExactly | src/zo/health/mod.rs:57-63 | after the death check the tagged entities are the old ones plus those at or below 0; nothing else changes; running it twice is running it once |
| Health.HandleDespawn | src/zo/health/mod.rs:65-71 | queues a despawn for exactly the `Dead` entities with `destroy_on_death` |
| Health.Without | src/zo/health/mod.rs:68 | an entity stays in the iteration order exactly when it is not despawned |
| Health.Doomed | src/zo/health/mod.rs:65-71 | the despawned entities are `Dead` entities of the world with `destroy_on_death` |
| Health.AfterDespawn | src/zo/health/mod.rs:65-71 | no despawned entity remains in the order, among the health keys or among the tags |
| Health.DespawnRemovesExactly | src/zo/health/mod.rs:65-71 | exactly the `Dead` entities with `destroy_on_death` leave; the others keep their health, and `Dead` entities without the flag stay tagged |
| Health.AfterFrame | src/zo/health/mod.rs:10-15 | a frame adds no entity and no health; it removes exactly the identities of the entities its despawn step takes |
| Health.DeathTakesOneFrame | src/zo/health/mod.rs:11-14 | an entity driven to 0 or below by an Update delta survives that frame untagged; the next frame's PreUpdate tags it, and that frame's PostUpdate removes it if it has `destroy_on_death` |
| Health.DeadIsPermanent | src/zo/health/mod.rs:57-71 | a tagged entity is still tagged after a frame, or gone |
| Health.ThreeHitsScenario | src/zo/health/mod.rs:44-71 | hits of -30, -40 and -40 on a fresh 100-health entity leave -10; the entity is then tagged and despawned |
| Health.World.EmitChanges | src/zo/health/mod.rs:44-55 | the world after `emit_changes` is the ledger function of the old world and the events |
| Health.World.ReadChange | src/zo/health/mod.rs:48-53 | one iteration of the loop applies exactly one event |
| Health.World.RunHandleDeath | src/zo/health/mod.rs:57-63 | applying the queued `Dead` insertions gives the death-check function of the old world |
| Health.World.RunHandleDespawn | src/zo/health/mod.rs:65-71 | applying the queued despawns gives the despawn function of the old world |
| Health.World.Frame | src/zo/health/mod.rs:10-15 | one frame is death check, then deltas, then despawn |
| Zombies.InRangeOf | src/zo/zombies/mod.rs:72-75 | the zombies in range of a player are exactly those strictly closer than 700 |
| Zombies.Claimed | src/zo/zombies/mod.rs:69-80 | the in-range set holds exactly the zombies strictly within 700 of some player |
| Zombies.Unclaimed | src/zo/zombies/mod.rs:107-111 | the despawned zombies are exactly those not in the in-range set |
| Zombies.CollectInRange | src/zo/zombies/mod.rs:72-75 | the filter loop returns `InRangeOf`: exactly the zombies in range of the player. That definition keeps query order, but the contract states membership only |
| Zombies.CollectUnclaimed | src/zo/zombies/mod.rs:107-111 | the despawn loop returns `Unclaimed`: exactly the zombies outside the in-range set. That definition keeps query order, but the contract states membership only |
| Zombies.SpawnFor | src/zo/zombies/mod.rs:81-104 | at most one instantiation, a "Zombie" at the player's sample point, made exactly when the player has fewer than 20 zombies in range and the shape cast finds nothing |
| Zombies.VisitPlayer | src/zo/zombies/mod.rs:72-104 | one round of the player loop adds the player's zombies in range to the claimed set, then makes that player's instantiation |
| Zombies.Spawns | src/zo/zombies/mod.rs:71-105 | there are at most as many instantiations as players |
| Zombies.HandleSpawningAndDespawning | src/zo/zombies/mod.rs:55-112 | off the host, or when the owner query fails, there is no instantiation and no despawn; on the host the results are the spawn and despawn functions |
| Zombies.DespawnIffOutOfRange | src/zo/zombies/mod.rs:69-111 | a zombie is despawned exactly when it is at least 700 from every player |
| Zombies.NoPlayersDespawnsAll | src/zo/zombies/mod.rs:107-111 | with no players every zombie is despawned |
| Zombies.CappedPlayerKeepsItsZombies | src/zo/zombies/mod.rs:76-83 | zombies near a capped player are claimed before the cap check, so they are not despawned, and that player gets no spawn whatever its sample point and shape cast |
| Zombies.SpawnsComeFromFreeUncappedPlayers | src/zo/zombies/mod.rs:81-104 | each instantiation is a "Zombie" at the sample point of a player with fewer than 20 zombies in range whose shape cast found nothing |
| Zombies.AllCappedSpawnsNothing | src/zo/zombies/mod.rs:81-83 | when every player is capped, nothing is instantiated |
| Zombies.Consider | src/zo/zombies/mod.rs:125-133 | a fold step always has a candidate; it keeps the old best unless the new one is strictly closer, and never gets farther |
| Zombies.Nearest | src/zo/zombies/mod.rs:122-134 | there is a closest player exactly when there are players; it is one of them, with its own distance, and no player is closer |
| Zombies.NearestIsFirstNearest | src/zo/zombies/mod.rs:121-134 | the fold finds a player exactly when there is one; that player is of minimal distance and strictly closer than every earlier player, so ties go to the first |
| Zombies.FirstNearestExtend | src/zo/zombies/mod.rs:125-133 | a new player replaces the first nearest only when strictly closer |
| Zombies.FirstNearestUnique | src/zo/zombies/mod.rs:125-133 | at most one player is the first nearest |
| Zombies.AgroFor | src/zo/zombies/mod.rs:135-146 | at most one event for a zombie; it carries the zombie's id and the id of one of the players |
| Zombies.AgroEvents | src/zo/zombies/mod.rs:121-147 | no more events than zombies, and every event names a zombie of the query |
| Zombies.ZombieAgro | src/zo/zombies/mod.rs:114-148 | the nested loops send exactly `AgroEvents` |
| Zombies.AgroSentIff | src/zo/zombies/mod.rs:135-146 | an event is sent exactly when the first nearest player is not the current target and is closer than 100; it carries the zombie's id and that player's id |
| Zombies.NoPlayersNoAgro | src/zo/zombies/mod.rs:121-137 | with no players no event is sent |
| Zombies.Resolve | src/zo/zombies/mod.rs:156-170 | an event fails to resolve exactly when either id has no entity or the zombie's entity has no `Zombie`; when it resolves, both entities carry the event's ids |
| Zombies.AgroApplied | src/zo/zombies/mod.rs:155-173 | the handler keeps the set of zombies and every speed |
| Zombies.OneAgroChange | src/zo/zombies/mod.rs:155-172 | a resolved event sets only the matched zombie's target, to the first entity with the target id; an unresolved one changes nothing |
| Zombies.UnresolvedAbortsBatch | src/zo/zombies/mod.rs:156-170 | an event with an unknown id, or whose entity has no `Zombie`, ends the handler: no later event of the batch is applied in that run |
| Zombies.World.HandleZombieAgroChange | src/zo/zombies/mod.rs:150-174 | the zombies after the handler are the handler function of the old zombies and the events; identities are untouched |
| Zombies.DeadZombies | src/zo/zombies/mod.rs:248 | the corpse query visits exactly the dead zombies; the order is the order of the world by definition, and the contract states membership only |
| Zombies.CorpseRequests | src/zo/zombies/mod.rs:251-252 | one "ZombieCorpse" request per entity, in order, without a parent, at that entity's transform |
| Zombies.HandleZombieDeath | src/zo/zombies/mod.rs:245-255 | on the owner, one "ZombieCorpse" request per dead zombie at its transform, in query order; otherwise none |
| Zombies.SpawnZombie | src/zo/zombies/mod.rs:213-243 | a new zombie has no target, speed 20000, and `Health::new(100, true)`, that is, 100 of 100 and destroyed on death |
| Zombies.FreshZombieSurvivesDeathCheck | src/zo/zombies/mod.rs:241 | a newly spawned zombie is not tagged by the next death check |
| ZoCar.SpawnCar | src/zo/car/mod.rs:23-69 | the car has power 4000 of 4000 at the origin, four tires in spawn order, and a camera exactly when the identity's owner is the local peer |
| ZoCar.TireAt | src/zo/car/mod.rs:47-53 | every tire sits at a corner (±8, ±16); it is powered exactly when it has a turning radius, exactly when it is at the front |
| ZoCar.TireRoles | src/zo/car/mod.rs:46-54 | tires 0 and 1 are powered front tires with radius 30; tires 2 and 3 are unpowered rear ones without a radius; all have rolling resistance 0.5 and grip 0.7 |
| ZoCar.TireCornersOnce | src/zo/car/mod.rs:47-52 | the offsets are the four corners (±8, ±16) of the 16 by 32 body, each used once |
| ZoCar.Steer | src/zo/car/mod.rs:77-83 | the steering rotation is +r, −r or neutral, and neutral when neither A nor D is held |
| ZoCar.SteerPrecedence | src/zo/car/mod.rs:79-83 | A gives +r whatever D is; D alone gives −r; neither gives 0 |
| ZoCar.Turned | src/zo/car/mod.rs:71-87 | `turning` keeps the number of tires |
| ZoCar.SteeringPrefix | src/zo/car/mod.rs:72-75 | the tires before the first one without a radius all have one |
| ZoCar.TurnedShape | src/zo/car/mod.rs:71-87 | tires before the first one without a radius get the steering rotation; that tire and all later ones are unchanged |
| ZoCar.TurnedStopsAt | src/zo/car/mod.rs:72-75 | steering the radius prefix and stopping at the first tire without a radius is exactly `turning` |
| ZoCar.SpawnedRigSteering | src/zo/car/mod.rs:72-75 | on a rig with the spawned turning radii, whatever the grip, both front tires steer and the run stops at the first rear tire, so a second car's tires later in the order are not updated |
| ZoCar.Turning | src/zo/car/mod.rs:71-87 | the array after `turning` is the turning function of the old array |
| ZoCar.SecondCarDoesNotSteer | src/zo/car/mod.rs:71-86 | with two rigs with the spawned turning radii and a steering key held, whatever the grip, a front tire of the second car is not turned |
| ZoCar.SteeredAllSteersEveryCar | src/zo/car/mod.rs:71-86 | with `continue` in place of `return`, every car's front tires are steered and its rear tires are kept, whatever the grip |
| ZoCar.TurnedIsSteeredAllOnOneCar | src/zo/car/mod.rs:71-86 | on tires where no steering tire follows a rear one, as for one car, the code as written and the `continue` variant agree |
| ZoCar.SteeredAllDriftCommute | src/zo/car/mod.rs:71-95 | the `continue` variant of `turning` also commutes with `drift` |
| ZoCar.TurningEveryCar | src/zo/car/mod.rs:71-86 | the in-place loop with `continue` leaves the tires that `SteeredAll` gives |
| ZoCar.Drifted | src/zo/car/mod.rs:89-97 | `drift` keeps the number of tires |
| ZoCar.GripFor | src/zo/car/mod.rs:91-95 | the grip is 0.2 exactly when ShiftLeft is held, and 0.7 otherwise |
| ZoCar.DriftSetsOnlyGrip | src/zo/car/mod.rs:89-97 | every grip becomes 0.2 with ShiftLeft held and 0.7 otherwise; no other field changes |
| ZoCar.DriftIdempotent | src/zo/car/mod.rs:89-97 | running `drift` twice is running it once |
| ZoCar.TurningDriftCommute | src/zo/car/mod.rs:19 | `turning` and `drift` share a stage without an order; either order gives the same tires |
| ZoCar.Drift | src/zo/car/mod.rs:89-97 | the array after `drift` is the drift function of the old array |
| ZoCar.CheckedPairs | src/zo/car/mod.rs:106-116 | every pair tested is a car and a zombie from a contact that just started, in one orientation or the other |
| ZoCar.HandleCollisions | src/zo/car/mod.rs:99-125 | the loop tests exactly the pairs of `CheckedPairs` |
| ZoCar.NonPairIsSkipped | src/zo/car/mod.rs:107-113 | a collision that is not a car and a zombie is skipped, and later events are still handled |
| ZoCar.StaleContactAborts | src/zo/car/mod.rs:114-116 | the first car and zombie pair whose contact did not just start ends the run: the remaining events are not handled in that run |
| ZoWorld.CellIndex | src/zo/world/mod.rs:10-11 | the spawn position of cell (x, y) lies in 0..4096 and gives back x and y |
| ZoWorld.SpawnWorld | src/zo/world/mod.rs:4-25 | 4096 buildings; the one of cell (x, y), for −32 ≤ x, y < 32, is at its spawn position |
| ZoWorld.BuildingAt | src/zo/world/mod.rs:13-20 | every building is 128 wide, and its centre lies 128 below a multiple of 256 on both axes |
| ZoWorld.BuildingCentre | src/zo/world/mod.rs:5-16 | building (x, y) is centred at (−128 + 256x, −128 + 256y) and is 128 wide |
| ZoWorld.DistinctCentres | src/zo/world/mod.rs:13-16 | distinct cells have distinct centres |
| ZoWorld.NeighbourSpacing | src/zo/world/mod.rs:7-16 | grid neighbours are 256 apart on one axis and aligned on the other |
| ZoWorld.NoOverlap | src/zo/world/mod.rs:5-20 | distinct buildings share no point, and the street between facing edges is at least 128 |
| ZoWorld.OriginInStreet | src/zo/world/mod.rs:8-20 | no building covers the origin, where the car spawns |
| ZoWorld.CentreRange | src/zo/world/mod.rs:10-16 | centres range from −8320 to 7808 on each axis, and both bounds are reached |
| ZoWorld.CellIndexInjective | src/zo/world/mod.rs:10-11 | each cell has its own spawn position, so each cell gets exactly one building |

## Left out

- `amount += change` is unbounded: the model does not capture i32 overflow of the health amount.
- `handle_collisions`: the damage threshold (normalise, dot product, the 100 minimum, `hurt(100)`) is left out. Its float vector maths cannot be modelled, and `hurt` is not defined in the `impl Health` block of src/zo/health/mod.rs:34-42. The model returns the pairs that reach that test.
- Tire forces (rolling resistance, grip, power) in `src/car/tire/mod.rs` are left out: they are float vector forces handed to the physics engine.
- Random sampling in `src/rng/mod.rs` is left out: the annulus sample point and the facing are a parameter, `sample`.
- `zombie_movement`, `zombie_drag` and `look_at_2d` are left out: float forces and `atan2`.
- `src/camera_follow/mod.rs` is not part of this model (a float lerp). Only the camera's scale and rate are kept.
- `src/zo/lobby/mod.rs`, `src/main.rs`, `src/zo/mod.rs` and `src/car/mod.rs` are not part of this model: Steam lobby handling, plugin wiring and a constructor.
- The Steam P2P transport is a parameter: replication of events, `instantiate` and the owner query.
- The shape cast is a parameter, `hit`.
- Sprites and assets are left out.
- The `on_timer` run conditions of `handle_spawning_and_despawning` (100 ms) and `zombie_agro` (500 ms) are left out. The model describes one run.
- Bevy's deferred commands are modelled as lists applied after the system. Event cursors are modelled as the batch of events one run reads.
- Zombies.World.HandleZombieAgroChange: after an early `return`, the unread events stay in Bevy's event buffer and a later run may read them. The model covers one run only and does not follow those events into the next run. ZoCar.HandleCollisions is the same for the collision events after its `return`.
- Each query is modelled with the one iteration order `order`. In Bevy, different queries may visit entities in different archetype orders.
- The `println!` in `handle_zombie_agro_change` is left out: output only.
- The z coordinate of transforms and the radian conversion of the tire angle are left out. The tire rotation is the signed angle in degrees.
- Health.New: the amount for `max > i32::MAX` is stated only as negative. The exact wrapped value is given by Health.AsI32.

## Findings

| source | as written | input that shows it | evidently intended | confidence | as-written member | corrected member |
|---|---|---|---|---|---|---|
| src/zo/car/mod.rs:73-75 | `turning` ends with `return` at the first tire without a turning radius | two cars spawned in order, with the tires iterated in spawn order and A held: iteration reaches the first car's rear tire and returns, so the second car's front tires keep rotation 0 instead of 30 | `continue`: skip the rear tire and steer every car's front tires | medium, not executed | ZoCar.SecondCarDoesNotSteer | ZoCar.TurningEveryCar |

`ZoCar.Turning` and `ZoCar.Turned` keep the code as written, since that is what runs. The corrected variant is `ZoCar.SteeredAll`, implemented in place by `ZoCar.TurningEveryCar`. `ZoCar.SteeredAllSteersEveryCar` proves its intended property. `ZoCar.SteeredAllDriftCommute` shows it keeps the schedule property that `ZoCar.TurningDriftCommute` proves for the code as written. `ZoCar.TurnedIsSteeredAllOnOneCar` shows that the two agree for a single car.
