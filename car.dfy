/** The player's car: the rig `spawn_car` builds (body, four tires, camera),
    the `turning` and `drift` input systems over the tires, and the control
    flow of `handle_collisions`. */
module ZoCar {
  import opened Ecs
  import Utils

  const TireGrip: real := 0.7
  const DriftGrip: real := 0.2
  const Width: int := 16
  const Length: int := 32
  /** The steering angle of a front tire, in degrees. */
  const TurningRadius: real := 30.0
  const RollingResistance: real := 0.5
  const CarPower: real := 4000.0
  const CameraScale: real := 0.5
  const CameraLerp: real := 4.0

  /** The `Tire` component. */
  datatype Tire = Tire(powered: bool, turningRadius: Option<real>, rollingResistance: real, grip: real)

  /** A child tire as spawned: its offset from the car's centre and its component. */
  datatype TireSpawn = TireSpawn(x: int, y: int, tire: Tire)

  /** The `Car` component. */
  datatype Car = Car(currentPower: real, maxPower: real)

  /** The car entity: its components that the model keeps. */
  datatype CarBody = CarBody(car: Car, at: Pose, width: int, length: int, identity: NetworkId)

  /** The camera spawned for the local car: its zoom and its follow rate. */
  datatype Camera = Camera(scale: real, lerp: real)

  /** The tire `spawn_car` makes in round `i` of its loop. */
  function TireAt(i: int): (t: TireSpawn)
    requires 0 <= i < 4
    ensures (t.x, t.y) in {(8, 16), (-8, 16), (8, -16), (-8, -16)}
    ensures t.tire.powered == t.tire.turningRadius.Some? == (t.y > 0)
  {
    var front := i < 2;
    TireSpawn(Width / 2 * (if i % 2 == 0 then 1 else -1),
              Length / 2 * (if front then 1 else -1),
              Tire(front, if front then Some(TurningRadius) else None, RollingResistance, TireGrip))
  }

  /** `spawn_car`: the body at the origin, its four tires in spawn order, and a
      camera only when the car belongs to the local peer. */
  method SpawnCar(identity: NetworkId, local: PeerId)
    returns (body: CarBody, tires: seq<TireSpawn>, camera: Option<Camera>)
    ensures body == CarBody(Car(CarPower, CarPower), Pose(0.0, 0.0, 0.0), Width, Length, identity)
    ensures |tires| == 4 && forall i :: 0 <= i < 4 ==> tires[i] == TireAt(i)
    ensures camera.Some? <==> identity.owner == local
    ensures camera.Some? ==> camera.value == Camera(CameraScale, CameraLerp)
  {
    body := CarBody(Car(CarPower, CarPower), Pose(0.0, 0.0, 0.0), Width, Length, identity);
    tires := [];
    for i := 0 to 4
      invariant |tires| == i && forall k :: 0 <= k < i ==> tires[k] == TireAt(k)
    {
      var front := i < 2;
      var x := Width / 2 * (if i % 2 == 0 then 1 else -1);
      var y := Length / 2 * (if front then 1 else -1);
      tires := tires + [TireSpawn(x, y, Tire(front, if front then Some(TurningRadius) else None, RollingResistance, TireGrip))];
    }
    camera := if identity.owner == local then Some(Camera(CameraScale, CameraLerp)) else None;
  }

  /** Tires 0 and 1 are the powered, steering front tires; 2 and 3 are the rear
      ones; all share rolling resistance and grip. */
  lemma TireRoles(i: int)
    requires 0 <= i < 4
    ensures TireAt(i).tire.powered <==> i < 2
    ensures TireAt(i).tire.powered ==> TireAt(i).tire.turningRadius == Some(30.0) && TireAt(i).y == 16
    ensures !TireAt(i).tire.powered ==> TireAt(i).tire.turningRadius == None && TireAt(i).y == -16
    ensures TireAt(i).x == (if i % 2 == 0 then 8 else -8)
    ensures TireAt(i).tire.rollingResistance == 0.5 && TireAt(i).tire.grip == 0.7
  {
  }

  /** The four offsets are the four corners of the 16 by 32 body, each used once. */
  lemma TireCornersOnce()
    ensures (set i | 0 <= i < 4 :: (TireAt(i).x, TireAt(i).y)) == {(8, 16), (-8, 16), (8, -16), (-8, -16)}
    ensures forall i, j :: 0 <= i < 4 && 0 <= j < 4 && i != j ==> (TireAt(i).x, TireAt(i).y) != (TireAt(j).x, TireAt(j).y)
  {
    var offsets := set i | 0 <= i < 4 :: (TireAt(i).x, TireAt(i).y);
    assert (TireAt(0).x, TireAt(0).y) == (8, 16);
    assert (TireAt(1).x, TireAt(1).y) == (-8, 16);
    assert (TireAt(2).x, TireAt(2).y) == (8, -16);
    assert (TireAt(3).x, TireAt(3).y) == (-8, -16);
  }

  // ---------------------------------------------------------------------------
  // turning and drift

  /** The keyboard state the input systems read. */
  datatype Keys = Keys(a: bool, d: bool, shiftLeft: bool)

  /** A tire entity as the input systems see it: the rotation of its transform
      (a signed angle about z, in degrees) and its `Tire` component. */
  datatype TireEntity = TireEntity(rotation: real, tire: Tire)

  /** The rotation `turning` gives a tire of radius `r`: A wins over D, and no key is neutral. */
  function Steer(r: real, keys: Keys): (angle: real)
    ensures angle == r || angle == -r || angle == 0.0
    ensures !keys.a && !keys.d ==> angle == 0.0
  {
    if keys.a then r else if keys.d then -r else 0.0
  }

  /** A has precedence over D. */
  lemma SteerPrecedence(r: real, keys: Keys)
    ensures keys.a ==> Steer(r, keys) == r && Steer(r, keys.(d := !keys.d)) == r
    ensures !keys.a && keys.d ==> Steer(r, keys) == -r
    ensures !keys.a && !keys.d ==> Steer(r, keys) == 0.0
  {
  }

  /** The tires after `turning`: tires are steered in iteration order until the
      first one without a turning radius, where the system returns. */
  function Turned(ts: seq<TireEntity>, keys: Keys): (r: seq<TireEntity>)
    ensures |r| == |ts|
  {
    if ts == [] then []
    else
      match ts[0].tire.turningRadius
      case None => ts
      case Some(radius) => [ts[0].(rotation := Steer(radius, keys))] + Turned(ts[1..], keys)
  }

  /** The number of tires before the first one without a turning radius. */
  function SteeringPrefix(ts: seq<TireEntity>): (k: nat)
    ensures k <= |ts|
    ensures forall i :: 0 <= i < k ==> ts[i].tire.turningRadius.Some?
    ensures k < |ts| ==> ts[k].tire.turningRadius.None?
  {
    if ts == [] || ts[0].tire.turningRadius.None? then 0
    else
      var k := 1 + SteeringPrefix(ts[1..]);
      assert forall i :: 1 <= i < k ==> ts[i] == ts[1..][i - 1];
      k
  }

  /** `turning` steers exactly the tires before the first one without a radius;
      that tire and every later one keep their rotation. No other field changes. */
  lemma {:induction false} TurnedShape(ts: seq<TireEntity>, keys: Keys)
    ensures forall i :: 0 <= i < SteeringPrefix(ts) ==>
              Turned(ts, keys)[i] == ts[i].(rotation := Steer(ts[i].tire.turningRadius.value, keys))
    ensures forall i :: SteeringPrefix(ts) <= i < |ts| ==> Turned(ts, keys)[i] == ts[i]
  {
    if ts != [] && ts[0].tire.turningRadius.Some? {
      TurnedShape(ts[1..], keys);
      var r := Turned(ts, keys);
      assert r[1..] == Turned(ts[1..], keys);
      forall i | 1 <= i < |ts|
        ensures r[i] == Turned(ts[1..], keys)[i - 1] && ts[i] == ts[1..][i - 1]
      {
      }
    }
  }

  /** On the tires of one spawned rig, `turning` steers both front tires and
      stops at the first rear tire; on the tires of two rigs in spawn order the
      second car's tires are not updated. */
  lemma SpawnedRigSteering(rig: seq<TireEntity>, other: seq<TireEntity>, keys: Keys)
    requires |rig| == 4 && forall i :: 0 <= i < 4 ==> rig[i].tire.turningRadius == TireAt(i).tire.turningRadius
    ensures forall i :: 0 <= i < 2 ==> Turned(rig + other, keys)[i].rotation == Steer(30.0, keys)
    ensures Turned(rig + other, keys)[2..] == (rig + other)[2..]
  {
    var ts := rig + other;
    assert ts[0] == rig[0] && ts[1] == rig[1] && ts[2] == rig[2];
    assert ts[1..][0] == rig[1] && ts[1..][1..] == ts[2..];
    assert ts[2..][0] == rig[2];
    assert Turned(ts[2..], keys) == ts[2..];
    assert Turned(ts[1..], keys) == [ts[1].(rotation := Steer(30.0, keys))] + ts[2..];
    assert Turned(ts, keys) == [ts[0].(rotation := Steer(30.0, keys))] + Turned(ts[1..], keys);
  }

  /** A sequence that steers the first `i` tires, all of which have a radius,
      and keeps the others, where tire `i` has none, is what `turning` leaves. */
  lemma {:induction false} TurnedStopsAt(ts: seq<TireEntity>, keys: Keys, i: nat, r: seq<TireEntity>)
    requires i <= |ts| == |r|
    requires forall k :: 0 <= k < i ==> ts[k].tire.turningRadius.Some?
    requires i < |ts| ==> ts[i].tire.turningRadius.None?
    requires forall k :: 0 <= k < i ==> r[k] == ts[k].(rotation := Steer(ts[k].tire.turningRadius.value, keys))
    requires forall k :: i <= k < |ts| ==> r[k] == ts[k]
    ensures r == Turned(ts, keys)
    decreases i
  {
    if i == 0 {
      if ts != [] {
        assert r == ts;
      }
    } else {
      TurnedStopsAt(ts[1..], keys, i - 1, r[1..]);
      assert r == [r[0]] + r[1..];
    }
  }

  /** `turning` over the queried tires, kept in an array in iteration order. */
  method Turning(tires: array<TireEntity>, keys: Keys)
    modifies tires
    ensures tires[..] == Turned(old(tires[..]), keys)
  {
    ghost var orig := tires[..];
    var i := 0;
    while i < tires.Length
      invariant 0 <= i <= tires.Length
      invariant forall k :: 0 <= k < i ==> orig[k].tire.turningRadius.Some?
      invariant forall k :: 0 <= k < i ==> tires[k] == orig[k].(rotation := Steer(orig[k].tire.turningRadius.value, keys))
      invariant forall k :: i <= k < tires.Length ==> tires[k] == orig[k]
    {
      var radius := tires[i].tire.turningRadius;
      if radius.None? {
        TurnedStopsAt(orig, keys, i, tires[..]);
        return;
      }
      tires[i] := tires[i].(rotation := Steer(radius.value, keys));
      i := i + 1;
    }
    TurnedStopsAt(orig, keys, i, tires[..]);
  }

  /** The grip `drift` gives every tire. */
  function GripFor(keys: Keys): (g: real)
    ensures g == 0.2 || g == 0.7
    ensures g == 0.2 <==> keys.shiftLeft
  {
    if keys.shiftLeft then DriftGrip else TireGrip
  }

  /** The tires after `drift`. */
  function Drifted(ts: seq<TireEntity>, keys: Keys): (r: seq<TireEntity>)
    ensures |r| == |ts|
  {
    seq(|ts|, i requires 0 <= i < |ts| => ts[i].(tire := ts[i].tire.(grip := GripFor(keys))))
  }

  /** After `drift` every grip is 0.2 with ShiftLeft held and 0.7 otherwise; the
      rotation and every other field of the tire are unchanged. */
  lemma DriftSetsOnlyGrip(ts: seq<TireEntity>, keys: Keys, i: int)
    requires 0 <= i < |ts|
    ensures Drifted(ts, keys)[i].tire.grip == (if keys.shiftLeft then 0.2 else 0.7)
    ensures Drifted(ts, keys)[i].rotation == ts[i].rotation
    ensures Drifted(ts, keys)[i].tire.powered == ts[i].tire.powered
    ensures Drifted(ts, keys)[i].tire.turningRadius == ts[i].tire.turningRadius
    ensures Drifted(ts, keys)[i].tire.rollingResistance == ts[i].tire.rollingResistance
  {
  }

  /** Running `drift` twice is running it once. */
  lemma DriftIdempotent(ts: seq<TireEntity>, keys: Keys)
    ensures Drifted(Drifted(ts, keys), keys) == Drifted(ts, keys)
  {
  }

  /** `turning` and `drift` run in the same stage without an order between them;
      either order gives the same tires. */
  lemma {:induction false} TurningDriftCommute(ts: seq<TireEntity>, keys: Keys)
    ensures Turned(Drifted(ts, keys), keys) == Drifted(Turned(ts, keys), keys)
  {
    var d := Drifted(ts, keys);
    if ts != [] {
      assert d[0].tire.turningRadius == ts[0].tire.turningRadius;
      match ts[0].tire.turningRadius
      case None =>
      case Some(radius) =>
        assert d[1..] == Drifted(ts[1..], keys);
        TurningDriftCommute(ts[1..], keys);
        assert Turned(d, keys) == [d[0].(rotation := Steer(radius, keys))] + Turned(d[1..], keys);
        assert Turned(ts, keys) == [ts[0].(rotation := Steer(radius, keys))] + Turned(ts[1..], keys);
    }
  }

  /** `drift` over the queried tires, kept in an array in iteration order. */
  method Drift(tires: array<TireEntity>, keys: Keys)
    modifies tires
    ensures tires[..] == Drifted(old(tires[..]), keys)
  {
    for i := 0 to tires.Length
      invariant forall k :: 0 <= k < i ==> tires[k] == old(tires[k]).(tire := old(tires[k]).tire.(grip := GripFor(keys)))
      invariant forall k :: i <= k < tires.Length ==> tires[k] == old(tires[k])
    {
      if keys.shiftLeft {
        tires[i] := tires[i].(tire := tires[i].tire.(grip := DriftGrip));
      } else {
        tires[i] := tires[i].(tire := tires[i].tire.(grip := TireGrip));
      }
    }
  }

  // `turning` ends at its first tire without a turning radius with `return`
  // (src/zo/car/mod.rs:73-75), where `continue` evidently was meant: no tire
  // after the first tire without a turning radius, in iteration order, is steered.

  /** With two spawned rigs in spawn order and a steering key held, `turning`
      as written leaves a front tire of the second car pointing straight ahead. */
  lemma SecondCarDoesNotSteer(rig1: seq<TireEntity>, rig2: seq<TireEntity>, keys: Keys)
    requires |rig1| == 4 && forall i :: 0 <= i < 4 ==> rig1[i].tire.turningRadius == TireAt(i).tire.turningRadius
    requires |rig2| == 4 && forall i :: 0 <= i < 4 ==> rig2[i].tire.turningRadius == TireAt(i).tire.turningRadius
    requires rig2[0].rotation == 0.0
    requires keys.a || keys.d
    ensures rig2[0].tire.turningRadius == Some(TurningRadius)
    ensures Turned(rig1 + rig2, keys)[4].rotation == 0.0 != Steer(TurningRadius, keys)
  {
    SpawnedRigSteering(rig1, rig2, keys);
    assert (rig1 + rig2)[2..][2] == rig2[0];
    assert Turned(rig1 + rig2, keys)[4] == Turned(rig1 + rig2, keys)[2..][2];
  }

  /** The tires after `turning` with `continue` in place of `return`: a tire
      without a turning radius is skipped and the loop goes on. */
  function SteeredAll(ts: seq<TireEntity>, keys: Keys): (r: seq<TireEntity>)
    ensures |r| == |ts|
  {
    seq(|ts|, i requires 0 <= i < |ts| =>
      match ts[i].tire.turningRadius
      case None => ts[i]
      case Some(radius) => ts[i].(rotation := Steer(radius, keys)))
  }

  /** With `continue`, the front tires of every spawned rig are steered, and the
      rear tires keep their rotation. */
  lemma SteeredAllSteersEveryCar(ts: seq<TireEntity>, keys: Keys, i: int)
    requires |ts| % 4 == 0 && forall k :: 0 <= k < |ts| ==> ts[k].tire.turningRadius == TireAt(k % 4).tire.turningRadius
    requires 0 <= i < |ts|
    ensures i % 4 < 2 ==> SteeredAll(ts, keys)[i].rotation == Steer(TurningRadius, keys)
    ensures i % 4 >= 2 ==> SteeredAll(ts, keys)[i] == ts[i]
    ensures SteeredAll(ts, keys)[i].tire == ts[i].tire
  {
    assert ts[i].tire.turningRadius == TireAt(i % 4).tire.turningRadius;
  }

  /** Where no tire with a radius follows one without, as on the tires of a
      single car, `turning` as written and the intended `continue` agree. */
  lemma TurnedIsSteeredAllOnOneCar(ts: seq<TireEntity>, keys: Keys)
    requires forall i :: SteeringPrefix(ts) <= i < |ts| ==> ts[i].tire.turningRadius.None?
    ensures Turned(ts, keys) == SteeredAll(ts, keys)
  {
    TurnedShape(ts, keys);
  }

  /** The intended `turning` also commutes with `drift`. */
  lemma SteeredAllDriftCommute(ts: seq<TireEntity>, keys: Keys)
    ensures SteeredAll(Drifted(ts, keys), keys) == Drifted(SteeredAll(ts, keys), keys)
  {
  }

  /** `turning` as evidently intended, over the queried tires in iteration order. */
  method TurningEveryCar(tires: array<TireEntity>, keys: Keys)
    modifies tires
    ensures tires[..] == SteeredAll(old(tires[..]), keys)
  {
    for i := 0 to tires.Length
      invariant forall k :: 0 <= k < i ==> tires[k] == SteeredAll(old(tires[..]), keys)[k]
      invariant forall k :: i <= k < tires.Length ==> tires[k] == old(tires[k])
    {
      var radius := tires[i].tire.turningRadius;
      if radius.None? {
        continue;
      }
      tires[i] := tires[i].(rotation := Steer(radius.value, keys));
    }
  }

  // ---------------------------------------------------------------------------
  // handle_collisions

  /** A collision event: the two entities and whether the contact started this frame. */
  datatype Contacts = Contacts(entity1: Entity, entity2: Entity, started: bool)

  /** The (car, zombie) pairs whose impact speed `handle_collisions` goes on to test:
      events that are not a car and a zombie are skipped, and the first car and
      zombie pair whose contact did not just start ends the run. */
  function CheckedPairs(events: seq<Contacts>, cars: set<Entity>, zombies: set<Entity>)
    : (r: seq<(Entity, Entity)>)
    ensures |r| <= |events|
    ensures forall p :: p in r ==>
              p.0 in cars && p.1 in zombies &&
              exists ev :: ev in events && ev.started && (p == (ev.entity1, ev.entity2) || p == (ev.entity2, ev.entity1))
  {
    if events == [] then []
    else
      var ev := events[0];
      assert forall e :: e in events[1..] ==> e in events;
      match Utils.QueryDoubleMut(cars, zombies, ev.entity1, ev.entity2)
      case None => CheckedPairs(events[1..], cars, zombies)
      case Some(pair) =>
        if !ev.started then [] else [pair] + CheckedPairs(events[1..], cars, zombies)
  }

  /** `handle_collisions` up to the damage test: returns the pairs it tests. */
  method HandleCollisions(events: seq<Contacts>, cars: set<Entity>, zombies: set<Entity>)
    returns (checked: seq<(Entity, Entity)>)
    ensures checked == CheckedPairs(events, cars, zombies)
  {
    checked := [];
    var i := 0;
    while i < |events|
      invariant 0 <= i <= |events|
      invariant CheckedPairs(events, cars, zombies) == checked + CheckedPairs(events[i..], cars, zombies)
    {
      var contacts := events[i];
      assert events[i..][0] == contacts && events[i..][1..] == events[i + 1..];
      var pair := Utils.QueryDoubleMut(cars, zombies, contacts.entity1, contacts.entity2);
      if pair.None? {
        i := i + 1;
        continue;
      }
      if !contacts.started {
        return;
      }
      checked := checked + [pair.value];
      i := i + 1;
    }
  }

  /** A collision that is not a car and a zombie in either order is skipped: the
      events after it are still handled. */
  lemma {:induction false} NonPairIsSkipped(p: seq<Contacts>, ev: Contacts, q: seq<Contacts>,
                                            cars: set<Entity>, zombies: set<Entity>)
    requires Utils.QueryDoubleMut(cars, zombies, ev.entity1, ev.entity2).None?
    ensures CheckedPairs(p + [ev] + q, cars, zombies) == CheckedPairs(p + q, cars, zombies)
  {
    if p == [] {
      assert p + [ev] + q == [ev] + q && p + q == q;
      assert ([ev] + q)[0] == ev && ([ev] + q)[1..] == q;
    } else {
      assert (p + [ev] + q)[0] == p[0] && (p + [ev] + q)[1..] == p[1..] + [ev] + q;
      assert (p + q)[0] == p[0] && (p + q)[1..] == p[1..] + q;
      NonPairIsSkipped(p[1..], ev, q, cars, zombies);
    }
  }

  /** A car and zombie pair whose contact did not just start abandons the rest of the events. */
  lemma {:induction false} StaleContactAborts(p: seq<Contacts>, ev: Contacts, q: seq<Contacts>,
                                              cars: set<Entity>, zombies: set<Entity>)
    requires Utils.QueryDoubleMut(cars, zombies, ev.entity1, ev.entity2).Some? && !ev.started
    ensures CheckedPairs(p + [ev] + q, cars, zombies) == CheckedPairs(p, cars, zombies)
  {
    if p == [] {
      assert ([ev] + q)[0] == ev;
    } else {
      assert (p + [ev] + q)[0] == p[0] && (p + [ev] + q)[1..] == p[1..] + [ev] + q;
      StaleContactAborts(p[1..], ev, q, cars, zombies);
    }
  }
}
