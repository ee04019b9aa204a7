/**
 * The in-memory adapter: one map from identifier to order, changed in place.
 * No operation of it ever fails.
 */
module Memory {
  import opened Wrappers
  import opened Domain
  import opened Port

  class InMemoryRepo {
    var orders: Store

    ghost predicate Valid()
      reads this
    {
      KeyedById(orders)
    }

    /** `InMemoryRepo::new`: an empty map. */
    constructor ()
      ensures Valid() && orders == map[]
    {
      orders := map[];
    }

    /** Stores the order under its identifier, replacing any order already there, and returns it. */
    method Create(order: Order) returns (r: Result<Order, RepoError>)
      requires Valid()
      modifies this
      ensures Valid()
      ensures orders == old(orders)[order.id := order] && r == Ok(order)
      ensures CreateContract(old(orders), orders, order, r.value)
    {
      orders := orders[order.id := order];
      r := Ok(order);
    }

    /** The stored order for `id`, or `None`. */
    method Get(id: Id) returns (r: Result<Option<Order>, RepoError>)
      requires Valid()
      ensures r.Ok? && GetContract(orders, id, r.value)
      ensures r.value.Some? ==> id in orders && r.value.value == orders[id] && r.value.value.id == id
    {
      if id in orders {
        r := Ok(Some(orders[id]));
      } else {
        r := Ok(None);
      }
    }

    /** Every stored order once, in the map's iteration order, which the model leaves open. */
    method List() returns (r: Result<seq<Order>, RepoError>)
      requires Valid()
      ensures r.Ok? && Lists(orders, r.value)
    {
      var listed: seq<Order> := [];
      var rest := orders.Keys;
      while rest != {}
        invariant rest <= orders.Keys
        invariant forall i | 0 <= i < |listed| :: listed[i].id in orders && orders[listed[i].id] == listed[i]
        invariant forall i | 0 <= i < |listed| :: listed[i].id !in rest
        invariant forall i, j | 0 <= i < j < |listed| :: listed[i].id != listed[j].id
        invariant forall id | id in orders && id !in rest :: exists i | 0 <= i < |listed| :: listed[i].id == id
        decreases rest
      {
        var id :| id in rest;
        ghost var before := listed;
        listed := listed + [orders[id]];
        assert listed[|before|].id == id;
        assert forall i | 0 <= i < |before| :: listed[i] == before[i];
        rest := rest - {id};
      }
      r := Ok(listed);
    }

    /** Updates a present order in place and returns the updated copy; an absent one gives `None`. */
    method UpdateStatus(id: Id, status: OrderStatus, now: Timestamp) returns (r: Result<Option<Order>, RepoError>)
      requires Valid()
      modifies this
      ensures Valid()
      ensures r.Ok? && UpdateContract(old(orders), orders, id, status, now, r.value)
    {
      if id in orders {
        var updated := Domain.UpdateStatus(orders[id], status, now);
        orders := orders[id := updated];
        r := Ok(Some(updated));
      } else {
        r := Ok(None);
      }
    }

    /** Removes the order; `true` exactly when it was present. */
    method Delete(id: Id) returns (r: Result<bool, RepoError>)
      requires Valid()
      modifies this
      ensures Valid()
      ensures r.Ok? && DeleteContract(old(orders), orders, id, r.value)
    {
      var present := id in orders;
      orders := orders - {id};
      r := Ok(present);
    }
  }
}
