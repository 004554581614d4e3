/** Entity handles, network identities, instantiation requests and the
    first-match lookup `query.iter().find(|(_, i)| i.id == id)` that several
    systems of the game share. */
module Ecs {

  /** A local entity handle; meaningful on one peer only. */
  type Entity = nat

  /** A peer of the lobby (its Steam id). */
  type PeerId = nat

  /** The globally unique id of a networked entity: the peer that owns it and a serial. */
  datatype NetworkId = NetworkId(owner: PeerId, serial: nat)

  datatype Option<T> = None | Some(value: T)

  /** A 2D transform: a position and a rotation about the z axis. */
  datatype Pose = Pose(x: real, y: real, angle: real)

  /** The answer of the transport's lobby-owner query, which can fail. */
  datatype Ownership = Owner(isOwner: bool) | Unavailable

  /** `is_lobby_owner().is_ok_and(|o| o)`, equivalently `is_lobby_owner().unwrap_or(false)`. */
  predicate IsHost(o: Ownership)
  {
    o.Owner? && o.isOwner
  }

  /** The instantiation path a replicated spawn names; it selects the factory every peer runs. */
  datatype FilePath = ZombiePath | ZombieCorpsePath

  /** A request to the transport to instantiate a networked entity on every peer. */
  datatype Instantiation = Instantiation(path: FilePath, parent: Option<Entity>, at: Pose)

  /** The items `(Entity, NetworkId)` of a query over entities that carry a
      `NetworkIdentity` and belong to `with` (the query's other components),
      in the world's iteration order. */
  function IdentityItems(order: seq<Entity>, identity: map<Entity, NetworkId>, with: set<Entity>)
    : (items: seq<(Entity, NetworkId)>)
    ensures |items| <= |order|
    ensures forall it :: it in items ==>
              it.0 in order && it.0 in identity && it.0 in with && identity[it.0] == it.1
  {
    if order == [] then []
    else
      var rest := IdentityItems(order[1..], identity, with);
      if order[0] in identity && order[0] in with then [(order[0], identity[order[0]])] + rest else rest
  }

  /** Every entity of `order` with an identity and the other components is an item. */
  lemma {:induction false} IdentityItemsComplete(order: seq<Entity>, identity: map<Entity, NetworkId>, with: set<Entity>, e: Entity)
    requires e in order && e in identity && e in with
    ensures (e, identity[e]) in IdentityItems(order, identity, with)
  {
    if order[0] != e {
      IdentityItemsComplete(order[1..], identity, with, e);
    }
  }

  /** The entity of the first item whose id is `id`, as `iter().find(..)` yields it. */
  function FirstWithId(items: seq<(Entity, NetworkId)>, id: NetworkId): (r: Option<Entity>)
    ensures r.None? <==> forall it :: it in items ==> it.1 != id
    ensures r.Some? ==> (r.value, id) in items
  {
    if items == [] then None
    else if items[0].1 == id then Some(items[0].0)
    else FirstWithId(items[1..], id)
  }

  /** The entity found is the one of the first item with that id. */
  lemma {:induction false} FirstWithIdIsFirst(items: seq<(Entity, NetworkId)>, id: NetworkId)
    requires FirstWithId(items, id).Some?
    ensures exists k :: 0 <= k < |items| && items[k] == (FirstWithId(items, id).value, id)
                        && forall j :: 0 <= j < k ==> items[j].1 != id
  {
    if items[0].1 != id {
      FirstWithIdIsFirst(items[1..], id);
      var k :| 0 <= k < |items[1..]| && items[1..][k] == (FirstWithId(items, id).value, id)
               && forall j :: 0 <= j < k ==> items[1..][j].1 != id;
      assert items[k + 1] == (FirstWithId(items, id).value, id);
      assert forall j :: 0 <= j < k + 1 ==> items[j].1 != id by {
        forall j | 0 <= j < k + 1 ensures items[j].1 != id {
          if j > 0 { assert items[j] == items[1..][j - 1]; }
        }
      }
    } else {
      assert items[0] == (FirstWithId(items, id).value, id);
    }
  }

  /** The linear search the engine runs for `find`. */
  method Find(items: seq<(Entity, NetworkId)>, id: NetworkId) returns (r: Option<Entity>)
    ensures r == FirstWithId(items, id)
  {
    var k := 0;
    while k < |items|
      invariant 0 <= k <= |items|
      invariant FirstWithId(items, id) == FirstWithId(items[k..], id)
    {
      if items[k].1 == id {
        return Some(items[k].0);
      }
      assert items[k..][1..] == items[k + 1..];
      k := k + 1;
    }
    return None;
  }
}
