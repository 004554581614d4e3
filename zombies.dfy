/** Zombie population and targeting: host-only spawn and despawn around the
    players, nearest-player aggro events, the aggro-change handler, corpse
    requests, and the components a spawned zombie starts with. */
module Zombies {
  import opened Ecs
  import Health

  /** The `Zombie` component; `target` is a weak reference to a local entity. */
  datatype Zombie = Zombie(speed: real, target: Option<Entity>)

  /** The replicated aggro event. */
  datatype ZombieAgroChange = ZombieAgroChange(zombieIdentity: NetworkId, targetIdentity: NetworkId)

  const MaxZombies: nat := 20
  const MinRange: real := 400.0
  const Variation: real := 300.0
  const AgroDist: real := 100.0
  const ZombieSpeed: real := 20000.0
  const ZombieMaxHealth: Health.U32 := 100

  /** The distance between the translations of two entities: an input of the model. */
  type Distance = (Entity, Entity) -> real

  /** `z.translation.distance(player.translation) < min_range + variation` */
  predicate InRange(dist: Distance, z: Entity, p: Entity)
  {
    dist(z, p) < MinRange + Variation
  }

  // ---------------------------------------------------------------------------
  // handle_spawning_and_despawning

  /** The vector `in_range` of player `p`: the zombies in range, in query order. */
  function InRangeOf(dist: Distance, p: Entity, zs: seq<Entity>): (r: seq<Entity>)
    ensures forall z :: z in r <==> z in zs && InRange(dist, z, p)
    ensures |r| <= |zs|
    decreases |zs|
  {
    if zs == [] then []
    else
      var z := zs[|zs| - 1];
      assert zs == zs[..|zs| - 1] + [z];
      InRangeOf(dist, p, zs[..|zs| - 1]) + (if InRange(dist, z, p) then [z] else [])
  }

  /** The set `zombies_in_range` once the players `ps` have been visited. */
  function Claimed(dist: Distance, ps: seq<Entity>, zs: seq<Entity>): (r: set<Entity>)
    ensures forall z :: z in r <==> z in zs && exists p :: p in ps && InRange(dist, z, p)
    decreases |ps|
  {
    if ps == [] then {}
    else
      assert ps == ps[..|ps| - 1] + [ps[|ps| - 1]];
      var near := InRangeOf(dist, ps[|ps| - 1], zs);
      Claimed(dist, ps[..|ps| - 1], zs) + (set z | z in near)
  }

  /** The zombies of `zs`, in query order, that are not in `claimed`. */
  function Unclaimed(zs: seq<Entity>, claimed: set<Entity>): (r: seq<Entity>)
    ensures forall z :: z in r <==> z in zs && z !in claimed
    decreases |zs|
  {
    if zs == [] then []
    else
      var z := zs[|zs| - 1];
      assert zs == zs[..|zs| - 1] + [z];
      Unclaimed(zs[..|zs| - 1], claimed) + (if z in claimed then [] else [z])
  }

  /** The instantiation made for player `p`: none when `p` has `MaxZombies` or more
      zombies in range, none when the shape cast at the sampled point hits, else one. */
  function SpawnFor(dist: Distance, zs: seq<Entity>, p: Entity, sample: Entity -> Pose,
                    hit: (real, real) -> bool): (r: seq<Instantiation>)
    ensures |r| <= 1
    ensures r != [] ==> r == [Instantiation(ZombiePath, None, sample(p))]
    ensures r != [] <==> |InRangeOf(dist, p, zs)| < MaxZombies && !hit(sample(p).x, sample(p).y)
  {
    if |InRangeOf(dist, p, zs)| >= MaxZombies then []
    else if hit(sample(p).x, sample(p).y) then []
    else [Instantiation(ZombiePath, None, sample(p))]
  }

  /** The instantiations of one run, player by player. */
  function Spawns(dist: Distance, ps: seq<Entity>, zs: seq<Entity>, sample: Entity -> Pose,
                  hit: (real, real) -> bool): (r: seq<Instantiation>)
    ensures |r| <= |ps|
    decreases |ps|
  {
    if ps == [] then []
    else Spawns(dist, ps[..|ps| - 1], zs, sample, hit) + SpawnFor(dist, zs, ps[|ps| - 1], sample, hit)
  }

  /** `handle_spawning_and_despawning`. `sample(p)` is the point drawn in the annulus
      around player `p` with the drawn facing; `hit(x, y)` is the zero-distance shape
      cast. Returns the "Zombie" instantiations and the despawn commands. */
  method HandleSpawningAndDespawning(owner: Ownership, players: seq<Entity>, zombies: seq<Entity>,
                                     dist: Distance, sample: Entity -> Pose, hit: (real, real) -> bool)
    returns (spawned: seq<Instantiation>, despawned: seq<Entity>)
    ensures !IsHost(owner) ==> spawned == [] && despawned == []
    ensures IsHost(owner) ==> spawned == Spawns(dist, players, zombies, sample, hit)
    ensures IsHost(owner) ==> despawned == Unclaimed(zombies, Claimed(dist, players, zombies))
  {
    spawned, despawned := [], [];
    if !IsHost(owner) {
      return;
    }
    var zombiesInRange: set<Entity> := {};
    for i := 0 to |players|
      invariant zombiesInRange == Claimed(dist, players[..i], zombies)
      invariant spawned == Spawns(dist, players[..i], zombies, sample, hit)
    {
      assert players[..i + 1][..i] == players[..i];
      var spawn;
      zombiesInRange, spawn := VisitPlayer(dist, players[i], zombies, zombiesInRange, sample, hit);
      spawned := spawned + spawn;
    }
    assert players[..|players|] == players;
    despawned := CollectUnclaimed(zombies, zombiesInRange);
  }

  /** The body of the player loop of `handle_spawning_and_despawning`: claim the
      zombies in range, then stop at the cap or at a hit, or make one instantiation. */
  method VisitPlayer(dist: Distance, player: Entity, zombies: seq<Entity>, claimed: set<Entity>,
                     sample: Entity -> Pose, hit: (real, real) -> bool)
    returns (zombiesInRange: set<Entity>, spawned: seq<Instantiation>)
    ensures zombiesInRange == claimed + set z | z in InRangeOf(dist, player, zombies)
    ensures spawned == SpawnFor(dist, zombies, player, sample, hit)
  {
    spawned := [];
    zombiesInRange := claimed;
    var inRange := CollectInRange(dist, player, zombies);
    var count := |inRange|;
    for k := 0 to |inRange|
      invariant zombiesInRange == claimed + set z | z in inRange[..k]
    {
      assert inRange[..k + 1] == inRange[..k] + [inRange[k]];
      zombiesInRange := zombiesInRange + {inRange[k]};
    }
    assert inRange[..|inRange|] == inRange;
    if count >= MaxZombies {
      return;
    }
    var at := sample(player);
    if hit(at.x, at.y) {
      return;
    }
    spawned := [Instantiation(ZombiePath, None, at)];
  }

  /** The `filter(..).collect()` of `handle_spawning_and_despawning` for one player. */
  method CollectInRange(dist: Distance, player: Entity, zombies: seq<Entity>) returns (inRange: seq<Entity>)
    ensures inRange == InRangeOf(dist, player, zombies)
  {
    inRange := [];
    for k := 0 to |zombies|
      invariant inRange == InRangeOf(dist, player, zombies[..k])
    {
      assert zombies[..k + 1][..k] == zombies[..k];
      if dist(zombies[k], player) < MinRange + Variation {
        inRange := inRange + [zombies[k]];
      }
    }
    assert zombies[..|zombies|] == zombies;
  }

  /** The despawn loop of `handle_spawning_and_despawning`. */
  method CollectUnclaimed(zombies: seq<Entity>, claimed: set<Entity>) returns (despawned: seq<Entity>)
    ensures despawned == Unclaimed(zombies, claimed)
  {
    despawned := [];
    for k := 0 to |zombies|
      invariant despawned == Unclaimed(zombies[..k], claimed)
    {
      assert zombies[..k + 1][..k] == zombies[..k];
      if zombies[k] !in claimed {
        despawned := despawned + [zombies[k]];
      }
    }
    assert zombies[..|zombies|] == zombies;
  }

  /** A zombie is despawned exactly when it is at least `min_range + variation`
      away from every player. */
  lemma DespawnIffOutOfRange(dist: Distance, ps: seq<Entity>, zs: seq<Entity>, z: Entity)
    ensures z in Unclaimed(zs, Claimed(dist, ps, zs)) <==>
            z in zs && forall p :: p in ps ==> dist(z, p) >= MinRange + Variation
  {
  }

  /** With no players every zombie is despawned, in query order. */
  lemma {:induction false} NoPlayersDespawnsAll(dist: Distance, zs: seq<Entity>)
    ensures Unclaimed(zs, Claimed(dist, [], zs)) == zs
    decreases |zs|
  {
    if zs != [] {
      NoPlayersDespawnsAll(dist, zs[..|zs| - 1]);
      assert zs == zs[..|zs| - 1] + [zs[|zs| - 1]];
    }
  }

  /** The zombies around a capped player are claimed before the cap is checked,
      so they are not despawned. */
  lemma CappedPlayerKeepsItsZombies(dist: Distance, ps: seq<Entity>, zs: seq<Entity>, p: Entity, z: Entity,
                                    sample: Entity -> Pose, hit: (real, real) -> bool)
    requires p in ps && z in zs && InRange(dist, z, p)
    requires |InRangeOf(dist, p, zs)| >= MaxZombies
    ensures z !in Unclaimed(zs, Claimed(dist, ps, zs))
    ensures SpawnFor(dist, zs, p, sample, hit) == []
  {
  }

  /** Every instantiation comes from a visit of a player that had fewer than
      `MaxZombies` zombies in range and whose sample point the shape cast found free;
      it is a "Zombie" at that point. */
  lemma {:induction false} SpawnsComeFromFreeUncappedPlayers(dist: Distance, ps: seq<Entity>, zs: seq<Entity>,
                                                             sample: Entity -> Pose, hit: (real, real) -> bool)
    ensures forall r :: r in Spawns(dist, ps, zs, sample, hit) ==>
              exists p :: p in ps && |InRangeOf(dist, p, zs)| < MaxZombies && !hit(sample(p).x, sample(p).y)
                          && r == Instantiation(ZombiePath, None, sample(p))
    decreases |ps|
  {
    if ps != [] {
      var pre := ps[..|ps| - 1];
      SpawnsComeFromFreeUncappedPlayers(dist, pre, zs, sample, hit);
      assert ps == pre + [ps[|ps| - 1]];
    }
  }

  /** When every player is capped, nothing is instantiated. */
  lemma {:induction false} AllCappedSpawnsNothing(dist: Distance, ps: seq<Entity>, zs: seq<Entity>,
                                                  sample: Entity -> Pose, hit: (real, real) -> bool)
    requires forall p :: p in ps ==> |InRangeOf(dist, p, zs)| >= MaxZombies
    ensures Spawns(dist, ps, zs, sample, hit) == []
    decreases |ps|
  {
    if ps != [] {
      var pre := ps[..|ps| - 1];
      assert ps == pre + [ps[|ps| - 1]];
      AllCappedSpawnsNothing(dist, pre, zs, sample, hit);
    }
  }

  // ---------------------------------------------------------------------------
  // zombie_agro

  /** An item of `Query<(Entity, &NetworkIdentity, &Transform), With<Player>>`. */
  datatype PlayerItem = PlayerItem(entity: Entity, id: NetworkId)

  /** An item of `Query<(&NetworkIdentity, &Transform, &Zombie)>`, with the zombie's entity. */
  datatype ZombieItem = ZombieItem(entity: Entity, id: NetworkId, zombie: Zombie)

  /** The accumulator `closest`: a distance, a player entity and its network id. */
  datatype Closest = Closest(dist: real, player: Entity, id: NetworkId)

  function Candidate(dist: Distance, z: Entity, p: PlayerItem): Closest
  {
    Closest(dist(z, p.entity), p.entity, p.id)
  }

  /** One step of the fold: take the candidate when there is none yet or when it is strictly closer. */
  function Consider(closest: Option<Closest>, c: Closest): (r: Option<Closest>)
    ensures r.Some? && (r.value == c || r == closest)
    ensures closest.Some? ==> r.value.dist <= closest.value.dist && r.value.dist <= c.dist
    ensures closest.Some? && r.value != closest.value ==> c.dist < closest.value.dist
  {
    match closest
    case Some(best) => if c.dist < best.dist then Some(c) else closest
    case None => Some(c)
  }

  /** The value of `closest` after the loop over the players `ps`. */
  function Nearest(dist: Distance, z: Entity, ps: seq<PlayerItem>): (r: Option<Closest>)
    ensures r.None? <==> ps == []
    ensures r.Some? ==> PlayerItem(r.value.player, r.value.id) in ps && r.value.dist == dist(z, r.value.player)
    ensures r.Some? ==> forall p :: p in ps ==> r.value.dist <= dist(z, p.entity)
    decreases |ps|
  {
    if ps == [] then None
    else Consider(Nearest(dist, z, ps[..|ps| - 1]), Candidate(dist, z, ps[|ps| - 1]))
  }

  /** Player `i` is closest to `z`, and strictly closer than every player before it. */
  ghost predicate FirstNearest(dist: Distance, z: Entity, ps: seq<PlayerItem>, i: int)
  {
    && 0 <= i < |ps|
    && (forall j :: 0 <= j < i ==> dist(z, ps[j].entity) > dist(z, ps[i].entity))
    && (forall j :: i <= j < |ps| ==> dist(z, ps[i].entity) <= dist(z, ps[j].entity))
  }

  /** Adding player `p` after the players `ps[..n]` keeps the first nearest unless `p` is strictly closer. */
  lemma FirstNearestExtend(dist: Distance, z: Entity, ps: seq<PlayerItem>, i: int)
    requires |ps| > 0 && FirstNearest(dist, z, ps[..|ps| - 1], i)
    ensures dist(z, ps[|ps| - 1].entity) < dist(z, ps[i].entity) ==> FirstNearest(dist, z, ps, |ps| - 1)
    ensures dist(z, ps[|ps| - 1].entity) >= dist(z, ps[i].entity) ==> FirstNearest(dist, z, ps, i)
  {
    var n := |ps| - 1;
    assert forall j :: 0 <= j < n ==> ps[..n][j] == ps[j];
  }

  /** The fold finds no player only when there is none; otherwise it finds the
      earliest player of minimal distance (ties go to the first player seen). */
  lemma {:induction false} NearestIsFirstNearest(dist: Distance, z: Entity, ps: seq<PlayerItem>)
    ensures Nearest(dist, z, ps).None? <==> ps == []
    ensures ps != [] ==> exists i :: FirstNearest(dist, z, ps, i) && Nearest(dist, z, ps) == Some(Candidate(dist, z, ps[i]))
    decreases |ps|
  {
    if ps != [] {
      var n := |ps| - 1;
      var pre := ps[..n];
      NearestIsFirstNearest(dist, z, pre);
      assert Nearest(dist, z, ps) == Consider(Nearest(dist, z, pre), Candidate(dist, z, ps[n]));
      if pre == [] {
        assert FirstNearest(dist, z, ps, 0);
      } else {
        var i :| FirstNearest(dist, z, pre, i) && Nearest(dist, z, pre) == Some(Candidate(dist, z, pre[i]));
        FirstNearestExtend(dist, z, ps, i);
      }
    }
  }

  /** At most one player is the first nearest. */
  lemma FirstNearestUnique(dist: Distance, z: Entity, ps: seq<PlayerItem>, i: int, j: int)
    requires FirstNearest(dist, z, ps, i) && FirstNearest(dist, z, ps, j)
    ensures i == j
  {
    assert dist(z, ps[i].entity) == dist(z, ps[j].entity);
  }

  /** The events `zombie_agro` sends for one zombie. */
  function AgroFor(dist: Distance, z: ZombieItem, ps: seq<PlayerItem>): (r: seq<ZombieAgroChange>)
    ensures |r| <= 1
    ensures r != [] ==> r[0].zombieIdentity == z.id && exists p :: p in ps && r[0].targetIdentity == p.id
  {
    match Nearest(dist, z.entity, ps)
    case None => []
    case Some(best) =>
      if z.zombie.target == Some(best.player) then []
      else if best.dist < AgroDist then [ZombieAgroChange(z.id, best.id)]
      else []
  }

  /** The events `zombie_agro` sends for the zombies `zs`, in query order. */
  function AgroEvents(dist: Distance, zs: seq<ZombieItem>, ps: seq<PlayerItem>): (r: seq<ZombieAgroChange>)
    ensures |r| <= |zs|
    ensures forall ev :: ev in r ==> exists z :: z in zs && ev.zombieIdentity == z.id
    decreases |zs|
  {
    if zs == [] then []
    else AgroEvents(dist, zs[..|zs| - 1], ps) + AgroFor(dist, zs[|zs| - 1], ps)
  }

  /** `zombie_agro`: for every zombie, fold the players to the closest one. */
  method ZombieAgro(zombies: seq<ZombieItem>, players: seq<PlayerItem>, dist: Distance)
    returns (sent: seq<ZombieAgroChange>)
    ensures sent == AgroEvents(dist, zombies, players)
  {
    sent := [];
    for i := 0 to |zombies|
      invariant sent == AgroEvents(dist, zombies[..i], players)
    {
      assert zombies[..i + 1][..i] == zombies[..i];
      var z := zombies[i];
      var closest: Option<Closest> := None;
      for j := 0 to |players|
        invariant closest == Nearest(dist, z.entity, players[..j])
      {
        assert players[..j + 1][..j] == players[..j];
        var d := dist(z.entity, players[j].entity);
        match closest {
          case Some(best) =>
            if d < best.dist {
              closest := Some(Closest(d, players[j].entity, players[j].id));
            }
          case None =>
            closest := Some(Closest(d, players[j].entity, players[j].id));
        }
      }
      assert players[..|players|] == players;
      if closest.None? {
        continue;
      }
      var best := closest.value;
      if z.zombie.target == Some(best.player) {
        continue;
      }
      if best.dist < AgroDist {
        sent := sent + [ZombieAgroChange(z.id, best.id)];
      }
    }
    assert zombies[..|zombies|] == zombies;
  }

  /** An event is sent for a zombie exactly when its first nearest player is not
      its current target and is closer than `AgroDist`; the event names the zombie
      and that player. At most one event is sent per zombie. */
  lemma AgroSentIff(dist: Distance, z: ZombieItem, ps: seq<PlayerItem>, ev: ZombieAgroChange)
    ensures |AgroFor(dist, z, ps)| <= 1
    ensures AgroFor(dist, z, ps) == [ev] <==>
            exists i :: && FirstNearest(dist, z.entity, ps, i)
                        && z.zombie.target != Some(ps[i].entity)
                        && dist(z.entity, ps[i].entity) < AgroDist
                        && ev == ZombieAgroChange(z.id, ps[i].id)
  {
    NearestIsFirstNearest(dist, z.entity, ps);
    if ps != [] {
      var i0 :| FirstNearest(dist, z.entity, ps, i0) && Nearest(dist, z.entity, ps) == Some(Candidate(dist, z.entity, ps[i0]));
      forall i | FirstNearest(dist, z.entity, ps, i)
        ensures i == i0
      {
        FirstNearestUnique(dist, z.entity, ps, i, i0);
      }
    }
  }

  /** With no players no event is sent. */
  lemma {:induction false} NoPlayersNoAgro(dist: Distance, zs: seq<ZombieItem>)
    ensures AgroEvents(dist, zs, []) == []
    decreases |zs|
  {
    if zs != [] {
      NoPlayersNoAgro(dist, zs[..|zs| - 1]);
    }
  }

  // ---------------------------------------------------------------------------
  // handle_zombie_agro_change

  /** Resolving an event: the first entity with the zombie's id, the first with the
      target's id, and the zombie's `Zombie` component must all exist. */
  function Resolve(items: seq<(Entity, NetworkId)>, zombie: map<Entity, Zombie>, ev: ZombieAgroChange)
    : (r: Option<(Entity, Entity)>)
    ensures r.Some? ==> r.value.0 in zombie && (r.value.0, ev.zombieIdentity) in items && (r.value.1, ev.targetIdentity) in items
    ensures r.None? <==> FirstWithId(items, ev.zombieIdentity).None? || FirstWithId(items, ev.targetIdentity).None?
                         || FirstWithId(items, ev.zombieIdentity).value !in zombie
  {
    match FirstWithId(items, ev.zombieIdentity)
    case None => None
    case Some(ze) =>
      match FirstWithId(items, ev.targetIdentity)
      case None => None
      case Some(te) => if ze in zombie then Some((ze, te)) else None
  }

  /** The zombies after the handler has read `evs`: the first event that does not
      resolve ends the run, and the events after it are not applied. */
  function AgroApplied(items: seq<(Entity, NetworkId)>, zombie: map<Entity, Zombie>, evs: seq<ZombieAgroChange>)
    : (r: map<Entity, Zombie>)
    ensures r.Keys == zombie.Keys
    ensures forall e :: e in zombie ==> r[e].speed == zombie[e].speed
    decreases |evs|
  {
    if evs == [] then zombie
    else
      match Resolve(items, zombie, evs[0])
      case None => zombie
      case Some((ze, te)) => AgroApplied(items, zombie[ze := zombie[ze].(target := Some(te))], evs[1..])
  }

  /** Whether an event resolves depends only on which entities have a `Zombie`. */
  lemma ResolveDependsOnKeys(items: seq<(Entity, NetworkId)>, z1: map<Entity, Zombie>, z2: map<Entity, Zombie>, ev: ZombieAgroChange)
    requires z1.Keys == z2.Keys
    ensures Resolve(items, z1, ev) == Resolve(items, z2, ev)
  {
  }

  /** One event that resolves sets only that zombie's target, to the first entity
      carrying the target's id; one that does not resolve changes nothing. */
  lemma OneAgroChange(items: seq<(Entity, NetworkId)>, zombie: map<Entity, Zombie>, ev: ZombieAgroChange)
    ensures Resolve(items, zombie, ev).None? ==> AgroApplied(items, zombie, [ev]) == zombie
    ensures Resolve(items, zombie, ev).Some? ==>
              var (ze, te) := Resolve(items, zombie, ev).value;
              && FirstWithId(items, ev.zombieIdentity) == Some(ze)
              && FirstWithId(items, ev.targetIdentity) == Some(te)
              && AgroApplied(items, zombie, [ev])[ze] == zombie[ze].(target := Some(te))
              && forall o :: o in zombie && o != ze ==> AgroApplied(items, zombie, [ev])[o] == zombie[o]
  {
    assert [ev][1..] == [];
  }

  /** An event that does not resolve aborts the batch: nothing after it is applied. */
  lemma {:induction false} UnresolvedAbortsBatch(items: seq<(Entity, NetworkId)>, zombie: map<Entity, Zombie>,
                                                 p: seq<ZombieAgroChange>, ev: ZombieAgroChange, q: seq<ZombieAgroChange>)
    requires Resolve(items, zombie, ev).None?
    ensures AgroApplied(items, zombie, p + [ev] + q) == AgroApplied(items, zombie, p)
    decreases |p|
  {
    if p == [] {
      assert ([ev] + q)[0] == ev;
    } else {
      assert (p + [ev] + q)[0] == p[0];
      assert (p + [ev] + q)[1..] == p[1..] + [ev] + q;
      match Resolve(items, zombie, p[0])
      case None =>
      case Some((ze, te)) =>
        var next := zombie[ze := zombie[ze].(target := Some(te))];
        ResolveDependsOnKeys(items, zombie, next, ev);
        UnresolvedAbortsBatch(items, next, p[1..], ev, q);
    }
  }

  /** The ECS world seen by `handle_zombie_agro_change`. */
  class World {
    var order: seq<Entity>
    var identity: map<Entity, NetworkId>
    var zombie: map<Entity, Zombie>

    constructor (order: seq<Entity>, identity: map<Entity, NetworkId>, zombie: map<Entity, Zombie>)
      ensures this.order == order && this.identity == identity && this.zombie == zombie
    {
      this.order := order;
      this.identity := identity;
      this.zombie := zombie;
    }

    /** The items of `Query<(Entity, &NetworkIdentity)>`. */
    function Identities(): seq<(Entity, NetworkId)>
      reads this
    {
      IdentityItems(order, identity, identity.Keys)
    }

    /** `handle_zombie_agro_change`. */
    method HandleZombieAgroChange(events: seq<ZombieAgroChange>)
      modifies this
      ensures order == old(order) && identity == old(identity)
      ensures zombie == AgroApplied(old(Identities()), old(zombie), events)
    {
      var items := IdentityItems(order, identity, identity.Keys);
      var i := 0;
      while i < |events|
        invariant 0 <= i <= |events|
        invariant order == old(order) && identity == old(identity)
        invariant AgroApplied(items, old(zombie), events) == AgroApplied(items, zombie, events[i..])
      {
        var agro := events[i];
        assert events[i..][0] == agro && events[i..][1..] == events[i + 1..];
        var zombieEntity := Find(items, agro.zombieIdentity);
        if zombieEntity.None? {
          return;
        }
        var target := Find(items, agro.targetIdentity);
        if target.None? {
          return;
        }
        if zombieEntity.value !in zombie {
          return;
        }
        zombie := zombie[zombieEntity.value := zombie[zombieEntity.value].(target := Some(target.value))];
        i := i + 1;
      }
    }
  }

  // ---------------------------------------------------------------------------
  // handle_zombie_death and spawn_zombie

  /** The entities of `Query<&Transform, (With<Zombie>, With<Dead>)>`, in query order. */
  function DeadZombies(order: seq<Entity>, zombie: set<Entity>, dead: set<Entity>): (r: seq<Entity>)
    ensures forall e :: e in r <==> e in order && e in zombie && e in dead
    ensures |r| <= |order|
    decreases |order|
  {
    if order == [] then []
    else
      var e := order[|order| - 1];
      assert order == order[..|order| - 1] + [e];
      DeadZombies(order[..|order| - 1], zombie, dead) + (if e in zombie && e in dead then [e] else [])
  }

  /** One "ZombieCorpse" request per entity of `es`, in order, at its transform. */
  function CorpseRequests(es: seq<Entity>, transform: Entity -> Pose): (r: seq<Instantiation>)
    ensures |r| == |es|
    ensures forall k :: 0 <= k < |r| ==> r[k] == Instantiation(ZombieCorpsePath, None, transform(es[k]))
    decreases |es|
  {
    if es == [] then []
    else CorpseRequests(es[..|es| - 1], transform) + [Instantiation(ZombieCorpsePath, None, transform(es[|es| - 1]))]
  }

  /** `handle_zombie_death`: on the lobby owner, one "ZombieCorpse" request per
      dead zombie, in query order, at that zombie's transform. */
  method HandleZombieDeath(owner: Ownership, order: seq<Entity>, zombie: set<Entity>, dead: set<Entity>,
                           transform: Entity -> Pose)
    returns (requests: seq<Instantiation>)
    ensures !IsHost(owner) ==> requests == []
    ensures IsHost(owner) ==> requests == CorpseRequests(DeadZombies(order, zombie, dead), transform)
  {
    requests := [];
    if IsHost(owner) {
      for m := 0 to |order|
        invariant requests == CorpseRequests(DeadZombies(order[..m], zombie, dead), transform)
      {
        assert order[..m + 1][..m] == order[..m];
        var e := order[m];
        if e in zombie && e in dead {
          ghost var before := DeadZombies(order[..m], zombie, dead);
          assert (before + [e])[..|before|] == before;
          requests := requests + [Instantiation(ZombieCorpsePath, None, transform(e))];
        }
      }
      assert order[..|order|] == order;
    }
  }

  /** The components `spawn_zombie` gives a new zombie (sprite and physics left out). */
  datatype ZombieBundle = ZombieBundle(identity: NetworkId, zombie: Zombie, at: Pose, health: Health.Health)

  /** `spawn_zombie`: no target, speed 20000, and `Health::new(100, true)`. */
  function SpawnZombie(at: Pose, identity: NetworkId): (b: ZombieBundle)
    ensures b.zombie.target == None && b.zombie.speed == ZombieSpeed
    ensures b.identity == identity && b.at == at
    ensures b.health == Health.New(ZombieMaxHealth, true)
    ensures b.health.amount == b.health.maxAmount == 100 && b.health.destroyOnDeath
  {
    ZombieBundle(identity, Zombie(ZombieSpeed, None), at, Health.New(ZombieMaxHealth, true))
  }

  /** A zombie that has just been spawned is not tagged by the next death check. */
  lemma FreshZombieSurvivesDeathCheck(s: Health.Store, e: Entity, at: Pose, identity: NetworkId)
    requires e in s.health && s.health[e] == SpawnZombie(at, identity).health && e !in s.dead
    ensures e !in Health.AfterDeathCheck(s).dead
  {
  }
}
