/** The health ledger: integer health per entity, replicated `ChangeHealth`
    deltas, the `Dead` tag and despawn on death, run once per frame as
    death check (PreUpdate), deltas (Update), despawn (PostUpdate). */
module Health {
  import opened Ecs

  const I32Min: int := -0x8000_0000
  const I32Max: int := 0x7fff_ffff

  type U32 = x: int | 0 <= x <= 0xffff_ffff

  /** Rust's `as i32` on a `u32`: the same 32 bits read as two's complement. */
  function AsI32(v: U32): (r: int)
    ensures I32Min <= r <= I32Max
    ensures (r - v) % 0x1_0000_0000 == 0
  {
    if v <= I32Max then v else v - 0x1_0000_0000
  }

  /** The `Health` component. `amount` is not clamped and may drop below zero. */
  datatype Health = Health(amount: int, maxAmount: U32, destroyOnDeath: bool)

  /** `Health::new`: full health; a maximum above `i32::MAX` wraps to a negative amount. */
  function New(max: U32, destroyOnDeath: bool): (h: Health)
    ensures h.maxAmount == max && h.destroyOnDeath == destroyOnDeath
    ensures max <= I32Max ==> h.amount == max
    ensures max > I32Max ==> h.amount < 0
  {
    Health(AsI32(max), max, destroyOnDeath)
  }

  /** The replicated event: a signed delta for the entity with this network id. */
  datatype ChangeHealth = ChangeHealth(networkId: NetworkId, change: int)

  /** The part of the ECS world the health systems see. Every query visits
      the entities of `order` in that order; `dead` holds the `Dead` tags. */
  datatype Store = Store(order: seq<Entity>, identity: map<Entity, NetworkId>,
                         health: map<Entity, Health>, dead: set<Entity>)

  /** The items of `Query<(&NetworkIdentity, &mut Health)>`. */
  function HealthItems(s: Store): seq<(Entity, NetworkId)>
  {
    IdentityItems(s.order, s.identity, s.health.Keys)
  }

  /** One event of `emit_changes`: add the delta to the first matching entity, if any. */
  function ApplyChange(s: Store, ev: ChangeHealth): (r: Store)
    ensures r.order == s.order && r.identity == s.identity && r.dead == s.dead
    ensures r.health.Keys == s.health.Keys
    ensures FirstWithId(HealthItems(s), ev.networkId).None? ==> r == s
  {
    var items := HealthItems(s);
    match FirstWithId(items, ev.networkId)
    case None => s
    case Some(e) =>
      s.(health := s.health[e := s.health[e].(amount := s.health[e].amount + ev.change)])
  }

  lemma ApplyChangeMatched(s: Store, ev: ChangeHealth, e: Entity)
    requires FirstWithId(HealthItems(s), ev.networkId) == Some(e)
    ensures e in s.health
    ensures ApplyChange(s, ev) == s.(health := s.health[e := s.health[e].(amount := s.health[e].amount + ev.change)])
  {
  }

  lemma ApplyChangeUnmatched(s: Store, ev: ChangeHealth)
    requires FirstWithId(HealthItems(s), ev.networkId) == None
    ensures ApplyChange(s, ev) == s
  {
  }

  /** The store after `emit_changes` has read the events `evs` in order. */
  function Changed(s: Store, evs: seq<ChangeHealth>): (r: Store)
    ensures r.order == s.order && r.identity == s.identity && r.dead == s.dead
    ensures r.health.Keys == s.health.Keys
    ensures forall e :: e in s.health ==>
              r.health[e].maxAmount == s.health[e].maxAmount
              && r.health[e].destroyOnDeath == s.health[e].destroyOnDeath
    decreases |evs|
  {
    if evs == [] then s else ApplyChange(Changed(s, evs[..|evs| - 1]), evs[|evs| - 1])
  }

  lemma ChangedStep(s: Store, evs: seq<ChangeHealth>, i: nat)
    requires i < |evs|
    ensures Changed(s, evs[..i + 1]) == ApplyChange(Changed(s, evs[..i]), evs[i])
  {
    assert evs[..i + 1][..i] == evs[..i];
  }

  /** What one event adds to entity `e`: its delta if `e` is the first match, else nothing. */
  function Contribution(items: seq<(Entity, NetworkId)>, e: Entity, ev: ChangeHealth): int
  {
    if FirstWithId(items, ev.networkId) == Some(e) then ev.change else 0
  }

  /** The sum of the deltas of `evs` that go to `e`. */
  function Delta(items: seq<(Entity, NetworkId)>, e: Entity, evs: seq<ChangeHealth>): int
    decreases |evs|
  {
    if evs == [] then 0
    else Delta(items, e, evs[..|evs| - 1]) + Contribution(items, e, evs[|evs| - 1])
  }

  /** After a batch, each amount is its initial value plus the deltas it was the first match for. */
  lemma {:induction false} ChangedAmount(s: Store, evs: seq<ChangeHealth>, e: Entity)
    requires e in s.health
    ensures Changed(s, evs).health[e].amount == s.health[e].amount + Delta(HealthItems(s), e, evs)
    decreases |evs|
  {
    if evs != [] {
      var p := evs[..|evs| - 1];
      ChangedAmount(s, p, e);
      assert HealthItems(Changed(s, p)) == HealthItems(s);
    }
  }

  lemma {:induction false} DeltaConcat(items: seq<(Entity, NetworkId)>, e: Entity, a: seq<ChangeHealth>, b: seq<ChangeHealth>)
    ensures Delta(items, e, a + b) == Delta(items, e, a) + Delta(items, e, b)
    decreases |b|
  {
    if b == [] {
      assert a + b == a;
    } else {
      var b0 := b[..|b| - 1];
      assert (a + b)[..|a + b| - 1] == a + b0;
      DeltaConcat(items, e, a, b0);
    }
  }

  lemma MultisetCancel(a0: seq<ChangeHealth>, x: ChangeHealth, pre: seq<ChangeHealth>, post: seq<ChangeHealth>)
    requires multiset(a0 + [x]) == multiset(pre + [x] + post)
    ensures multiset(a0) == multiset(pre + post)
  {
    assert multiset(a0 + [x]) == multiset(a0) + multiset{x};
    assert multiset(pre + [x] + post) == multiset(pre + post) + multiset{x};
    forall y
      ensures multiset(a0)[y] == multiset(pre + post)[y]
    {
      assert (multiset(a0) + multiset{x})[y] == (multiset(pre + post) + multiset{x})[y];
    }
  }

  lemma DeltaSplit(items: seq<(Entity, NetworkId)>, e: Entity, pre: seq<ChangeHealth>, x: ChangeHealth, post: seq<ChangeHealth>)
    ensures Delta(items, e, pre + [x] + post) == Delta(items, e, pre + post) + Contribution(items, e, x)
  {
    DeltaConcat(items, e, pre + [x], post);
    DeltaConcat(items, e, pre, [x]);
    DeltaConcat(items, e, pre, post);
    assert [x][..0] == [];
  }

  lemma {:induction false} DeltaPermutation(items: seq<(Entity, NetworkId)>, e: Entity, a: seq<ChangeHealth>, b: seq<ChangeHealth>)
    requires multiset(a) == multiset(b)
    ensures Delta(items, e, a) == Delta(items, e, b)
    decreases |a|
  {
    if a == [] {
      assert |b| == |multiset(b)| == 0;
    } else {
      var x, a0 := a[|a| - 1], a[..|a| - 1];
      assert a == a0 + [x];
      assert x in multiset(b) by { assert x in multiset(a); }
      var i :| 0 <= i < |b| && b[i] == x;
      var pre, post := b[..i], b[i + 1..];
      assert b == pre + [x] + post;
      MultisetCancel(a0, x, pre, post);
      DeltaPermutation(items, e, a0, pre + post);
      DeltaSplit(items, e, pre, x, post);
    }
  }

  /** Two batches that give every entity the same total delta leave the same store. */
  lemma SameDeltasSameStore(s: Store, a: seq<ChangeHealth>, b: seq<ChangeHealth>)
    requires forall e :: e in s.health ==> Delta(HealthItems(s), e, a) == Delta(HealthItems(s), e, b)
    ensures Changed(s, a) == Changed(s, b)
  {
    var ra, rb := Changed(s, a), Changed(s, b);
    forall e | e in s.health
      ensures ra.health[e] == rb.health[e]
    {
      ChangedAmount(s, a, e);
      ChangedAmount(s, b, e);
    }
    assert ra.health == rb.health;
  }

  /** The ledger is commutative: any reordering of a batch gives the same store. */
  lemma ChangedOrderIndependent(s: Store, a: seq<ChangeHealth>, b: seq<ChangeHealth>)
    requires multiset(a) == multiset(b)
    ensures Changed(s, a) == Changed(s, b)
  {
    forall e | e in s.health
      ensures Delta(HealthItems(s), e, a) == Delta(HealthItems(s), e, b)
    {
      DeltaPermutation(HealthItems(s), e, a, b);
    }
    SameDeltasSameStore(s, a, b);
  }

  /** An event whose id matches no entity changes nothing, and the events after it still apply. */
  lemma ChangedSkipsUnmatched(s: Store, p: seq<ChangeHealth>, ev: ChangeHealth, q: seq<ChangeHealth>)
    requires FirstWithId(HealthItems(s), ev.networkId) == None
    ensures Changed(s, p + [ev] + q) == Changed(s, p + q)
  {
    forall e | e in s.health
      ensures Delta(HealthItems(s), e, p + [ev] + q) == Delta(HealthItems(s), e, p + q)
    {
      var items := HealthItems(s);
      DeltaConcat(items, e, p + [ev], q);
      DeltaConcat(items, e, p, [ev]);
      DeltaConcat(items, e, p, q);
      assert [ev][..0] == [];
    }
    SameDeltasSameStore(s, p + [ev] + q, p + q);
  }

  /** An event finds no match exactly when no entity with a `Health` carries its network id. */
  lemma UnmatchedIffNoSuchEntity(s: Store, id: NetworkId)
    ensures FirstWithId(HealthItems(s), id) == None <==>
            forall e :: e in s.order && e in s.identity && e in s.health ==> s.identity[e] != id
  {
    forall e | e in s.order && e in s.identity && e in s.health
      ensures (e, s.identity[e]) in HealthItems(s)
    {
      IdentityItemsComplete(s.order, s.identity, s.health.Keys, e);
    }
  }

  /** One matched event adds exactly its delta to the first match (no clamping to
      `[0, max_amount]`) and leaves every other field and every other entity alone. */
  lemma OneChange(s: Store, ev: ChangeHealth, e: Entity)
    requires FirstWithId(HealthItems(s), ev.networkId) == Some(e)
    ensures e in s.order && e in s.identity && s.identity[e] == ev.networkId && e in s.health
    ensures Changed(s, [ev]).health[e] == s.health[e].(amount := s.health[e].amount + ev.change)
    ensures forall o :: o in s.health && o != e ==> Changed(s, [ev]).health[o] == s.health[o]
    ensures Changed(s, [ev]).health.Keys == s.health.Keys
  {
    assert [ev][..0] == [];
  }

  /** `handle_death`: the entities it queues a `Dead` insertion for, in query order. */
  method HandleDeath(order: seq<Entity>, health: map<Entity, Health>) returns (tagged: seq<Entity>)
    ensures forall e :: e in tagged <==> e in order && e in health && health[e].amount <= 0
  {
    tagged := [];
    for k := 0 to |order|
      invariant forall e :: e in tagged <==> e in order[..k] && e in health && health[e].amount <= 0
    {
      assert order[..k + 1] == order[..k] + [order[k]];
      var e := order[k];
      if e in health && health[e].amount <= 0 {
        tagged := tagged + [e];
      }
    }
    assert order[..|order|] == order;
  }

  /** The store once the `Dead` insertions of `handle_death` are applied. */
  function AfterDeathCheck(s: Store): (r: Store)
    ensures r.order == s.order && r.identity == s.identity && r.health == s.health
    ensures s.dead <= r.dead
  {
    s.(dead := s.dead + set e | e in s.order && e in s.health && s.health[e].amount <= 0)
  }

  /** The death check tags exactly the entities at or below zero, never removes a
      tag, changes nothing else, and running it twice is running it once. */
  lemma DeathCheckTagsExactly(s: Store)
    ensures forall e :: e in AfterDeathCheck(s).dead <==>
              e in s.dead || (e in s.order && e in s.health && s.health[e].amount <= 0)
    ensures AfterDeathCheck(s).(dead := s.dead) == s
    ensures AfterDeathCheck(AfterDeathCheck(s)) == AfterDeathCheck(s)
  {
  }

  /** `handle_despawn`: the `Dead` entities with `destroy_on_death` it queues a despawn for. */
  method HandleDespawn(order: seq<Entity>, health: map<Entity, Health>, dead: set<Entity>)
    returns (gone: seq<Entity>)
    ensures forall e :: e in gone <==>
              e in order && e in health && e in dead && health[e].destroyOnDeath
  {
    gone := [];
    for k := 0 to |order|
      invariant forall e :: e in gone <==>
                  e in order[..k] && e in health && e in dead && health[e].destroyOnDeath
    {
      assert order[..k + 1] == order[..k] + [order[k]];
      var e := order[k];
      if e in health && e in dead && health[e].destroyOnDeath {
        gone := gone + [e];
      }
    }
    assert order[..|order|] == order;
  }

  /** The iteration order with the despawned entities taken out. */
  function Without(order: seq<Entity>, gone: set<Entity>): (r: seq<Entity>)
    ensures forall e :: e in r <==> e in order && e !in gone
    ensures |r| <= |order|
  {
    if order == [] then []
    else (if order[0] in gone then [] else [order[0]]) + Without(order[1..], gone)
  }

  /** Despawning removes an entity with all its components. */
  function Despawn(s: Store, gone: set<Entity>): Store
  {
    Store(Without(s.order, gone), s.identity - gone, s.health - gone, s.dead - gone)
  }

  /** The store once the despawns of `handle_despawn` are applied. */
  function AfterDespawn(s: Store): (r: Store)
    ensures forall e :: e in r.order ==> e in s.order && e !in Doomed(s)
    ensures r.health.Keys == s.health.Keys - Doomed(s)
    ensures r.dead == s.dead - Doomed(s)
  {
    Despawn(s, Doomed(s))
  }

  /** The entities `handle_despawn` despawns: `Dead` and `destroy_on_death`. */
  function Doomed(s: Store): (r: set<Entity>)
    ensures r <= s.dead
    ensures forall e :: e in r ==> e in s.order && e in s.health && s.health[e].destroyOnDeath
  {
    set e | e in s.order && e in s.health && e in s.dead && s.health[e].destroyOnDeath
  }

  /** Exactly the `Dead` entities with `destroy_on_death` leave; every other entity keeps all its components. */
  lemma DespawnRemovesExactly(s: Store)
    ensures forall e :: e in AfterDespawn(s).order <==>
              e in s.order && !(e in s.dead && e in s.health && s.health[e].destroyOnDeath)
    ensures forall e :: e in s.order && e in s.health && !(e in s.dead && s.health[e].destroyOnDeath) ==>
              e in AfterDespawn(s).health && AfterDespawn(s).health[e] == s.health[e]
    ensures forall e :: e in s.order && e in s.dead && e in s.health && !s.health[e].destroyOnDeath ==>
              e in AfterDespawn(s).dead
  {
  }

  /** One frame: `handle_death` in PreUpdate, `emit_changes` in Update, `handle_despawn` in PostUpdate. */
  function AfterFrame(s: Store, evs: seq<ChangeHealth>): (r: Store)
    ensures forall e :: e in r.order ==> e in s.order
    ensures r.health.Keys <= s.health.Keys && r.identity == s.identity - Doomed(Changed(AfterDeathCheck(s), evs))
  {
    AfterDespawn(Changed(AfterDeathCheck(s), evs))
  }

  /** The deltas do not look at the `Dead` tags. */
  lemma {:induction false} ChangedIgnoresDead(s: Store, d: set<Entity>, evs: seq<ChangeHealth>)
    ensures Changed(s.(dead := d), evs) == Changed(s, evs).(dead := d)
    decreases |evs|
  {
    if evs != [] {
      var p := evs[..|evs| - 1];
      ChangedIgnoresDead(s, d, p);
      ApplyChangeIgnoresDead(Changed(s, p), d, evs[|evs| - 1]);
    }
  }

  lemma ApplyChangeIgnoresDead(t: Store, d: set<Entity>, ev: ChangeHealth)
    ensures ApplyChange(t.(dead := d), ev) == ApplyChange(t, ev).(dead := d)
  {
    assert HealthItems(t.(dead := d)) == HealthItems(t);
  }

  /** An entity that an Update delta drives to zero or below survives that frame
      untagged, is tagged in the next frame's PreUpdate whatever that frame's
      deltas are, and is removed by that frame's PostUpdate when it has
      `destroy_on_death`; otherwise it stays as a `Dead` corpse. */
  lemma DeathTakesOneFrame(s: Store, evs: seq<ChangeHealth>, later: seq<ChangeHealth>, e: Entity)
    requires e in s.order && e in s.health && e !in s.dead
    requires s.health[e].amount > 0
    requires Changed(s, evs).health[e].amount <= 0
    ensures e in AfterFrame(s, evs).order && e !in AfterFrame(s, evs).dead
    ensures e in AfterFrame(s, evs).health && AfterFrame(s, evs).health[e].amount <= 0
    ensures s.health[e].destroyOnDeath ==> e !in AfterFrame(AfterFrame(s, evs), later).order
    ensures !s.health[e].destroyOnDeath ==>
              e in AfterFrame(AfterFrame(s, evs), later).order && e in AfterFrame(AfterFrame(s, evs), later).dead
  {
    var t := AfterDeathCheck(s);
    ChangedIgnoresDead(s, t.dead, evs);
    var c := Changed(t, evs);
    assert e !in c.dead;
    var s1 := AfterFrame(s, evs);
    assert s1 == AfterDespawn(c);
    DespawnRemovesExactly(c);
    assert s1.health[e] == c.health[e];
    var t2 := AfterDeathCheck(s1);
    assert e in t2.dead;
    var c2 := Changed(t2, later);
    assert e in c2.dead && e in c2.order && e in c2.health;
    assert c2.health[e].destroyOnDeath == s.health[e].destroyOnDeath;
    DespawnRemovesExactly(c2);
  }

  /** `Dead` is never taken away: a tagged entity is either still tagged or gone after a frame. */
  lemma DeadIsPermanent(s: Store, evs: seq<ChangeHealth>, e: Entity)
    requires e in s.dead && e in s.order
    ensures e in AfterFrame(s, evs).order ==> e in AfterFrame(s, evs).dead
  {
  }

  /** A zombie at full health (100, destroyed on death) hit by -30, -40 and -40 in
      one batch ends at -10 (no clamping), is tagged by the next death check and is
      removed by the despawn that follows it. */
  lemma {:induction false} ThreeHitsScenario(e: Entity, id: NetworkId, evs: seq<ChangeHealth>)
    requires evs == [ChangeHealth(id, -30), ChangeHealth(id, -40), ChangeHealth(id, -40)]
    ensures Changed(Store([e], map[e := id], map[e := New(100, true)], {}), evs).health[e].amount == -10
    ensures e !in AfterDespawn(AfterDeathCheck(Changed(Store([e], map[e := id], map[e := New(100, true)], {}), evs))).order
  {
    var s := Store([e], map[e := id], map[e := New(100, true)], {});
    assert HealthItems(s) == [(e, id)];
    assert FirstWithId(HealthItems(s), id) == Some(e);
    ChangedAmount(s, evs, e);
    assert evs[..2][..1] == evs[..1] && evs[..1][..0] == [];
    assert Delta(HealthItems(s), e, evs[..1]) == -30;
    assert Delta(HealthItems(s), e, evs[..2]) == -70;
    assert Delta(HealthItems(s), e, evs) == -110;
    DespawnRemovesExactly(AfterDeathCheck(Changed(s, evs)));
  }

  /** The ECS world seen by the health systems; the systems update it in place. */
  class World {
    var order: seq<Entity>
    var identity: map<Entity, NetworkId>
    var health: map<Entity, Health>
    var dead: set<Entity>

    function Snapshot(): Store
      reads this
    {
      Store(order, identity, health, dead)
    }

    constructor (order: seq<Entity>, identity: map<Entity, NetworkId>, health: map<Entity, Health>)
      ensures Snapshot() == Store(order, identity, health, {})
    {
      this.order := order;
      this.identity := identity;
      this.health := health;
      this.dead := {};
    }

    /** `emit_changes`: every event read adds its delta to `amount` of the first
        entity with a matching network id and a `Health`; unmatched events are skipped. */
    method EmitChanges(events: seq<ChangeHealth>)
      modifies this
      ensures Snapshot() == Changed(old(Snapshot()), events)
    {
      var items := IdentityItems(order, identity, health.Keys);
      assert events[..0] == [];
      for i := 0 to |events|
        invariant Snapshot() == Changed(old(Snapshot()), events[..i])
        invariant items == HealthItems(Snapshot())
      {
        ChangedStep(old(Snapshot()), events, i);
        ReadChange(items, events[i]);
      }
      assert events[..|events|] == events;
    }

    /** The body of the loop of `emit_changes` for one event. */
    method ReadChange(items: seq<(Entity, NetworkId)>, ev: ChangeHealth)
      requires items == HealthItems(Snapshot())
      modifies this
      ensures Snapshot() == ApplyChange(old(Snapshot()), ev)
    {
      var found := Find(items, ev.networkId);
      if found.Some? {
        var e := found.value;
        ApplyChangeMatched(Snapshot(), ev, e);
        health := health[e := health[e].(amount := health[e].amount + ev.change)];
      } else {
        ApplyChangeUnmatched(Snapshot(), ev);
      }
    }

    /** `handle_death` followed by the application of its commands. */
    method RunHandleDeath()
      modifies this
      ensures Snapshot() == AfterDeathCheck(old(Snapshot()))
    {
      var tagged := HandleDeath(order, health);
      dead := dead + set e | e in tagged;
    }

    /** `handle_despawn` followed by the application of its commands. */
    method RunHandleDespawn()
      modifies this
      ensures Snapshot() == AfterDespawn(old(Snapshot()))
    {
      ghost var s := Snapshot();
      var gone := HandleDespawn(order, health, dead);
      var g := set e | e in gone;
      assert g == Doomed(s);
      order, identity, health, dead := Without(order, g), identity - g, health - g, dead - g;
      assert Snapshot() == Despawn(s, g);
    }

    /** One frame of the schedule `ZOHealthPlugin::build` sets up. */
    method Frame(events: seq<ChangeHealth>)
      modifies this
      ensures Snapshot() == AfterFrame(old(Snapshot()), events)
    {
      RunHandleDeath();
      EmitChanges(events);
      RunHandleDespawn();
    }
  }
}
