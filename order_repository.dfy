/**
 * The repository port: the storage capability the service is written
 * against. Every adapter keeps orders keyed by their identifier; the five
 * operations are stated here as contracts over the store before and after
 * a call, for a call that did not fail.
 *
 * The only failure an operation can report is `DbError`; a missing order is
 * never a failure but `None` (get, update_status) or `false` (delete).
 */
module Port {
  import opened Wrappers
  import opened Domain

  datatype RepoError = DbError(message: string)

  /** The `Display` text of a repository error. */
  function RepoErrorText(e: RepoError): string {
    "db error: " + e.message
  }

  /** The orders an adapter holds, by identifier. */
  type Store = map<Id, Order>

  /** Every order is stored under its own identifier. */
  predicate KeyedById(store: Store) {
    forall id | id in store :: store[id].id == id
  }

  function Lookup(store: Store, id: Id): Option<Order> {
    if id in store then Some(store[id]) else None
  }

  /** `create` of an order whose identifier is new: the store gains that order, and it is returned. */
  predicate CreateContract(before: Store, after: Store, order: Order, r: Order) {
    order.id !in before ==> after == before[order.id := order] && r == order
  }

  /** `get`: the stored order, or `None` when there is none; the store is not changed. */
  predicate GetContract(store: Store, id: Id, r: Option<Order>) {
    r == Lookup(store, id)
  }

  /** `list`: one entry per stored order, each the stored order, in no particular order. */
  predicate Lists(store: Store, r: seq<Order>) {
    && (forall i | 0 <= i < |r| :: r[i].id in store && store[r[i].id] == r[i])
    && (forall i, j | 0 <= i < j < |r| :: r[i].id != r[j].id)
    && (forall id | id in store :: exists i | 0 <= i < |r| :: r[i].id == id)
  }

  /**
   * `update_status`: a present order gets the new status and the current
   * time, and the updated order is returned; an absent one gives `None` and
   * changes nothing.
   */
  predicate UpdateContract(before: Store, after: Store, id: Id, status: OrderStatus, now: Timestamp,
                           r: Option<Order>) {
    if id in before then
      after == before[id := UpdateStatus(before[id], status, now)] && r == Some(after[id])
    else
      after == before && r == None
  }

  /** `delete`: reports whether the order was present, and it is absent afterwards. */
  predicate DeleteContract(before: Store, after: Store, id: Id, r: bool) {
    r == (id in before) && after == before - {id}
  }

  // ---------------------------------------------------------------------------
  // What the contracts give every caller, whatever the adapter
  // ---------------------------------------------------------------------------

  /** After `create` of a new order, `get` of its identifier returns that very order. */
  lemma CreateThenGet(before: Store, after: Store, order: Order, r: Order)
    requires order.id !in before && CreateContract(before, after, order, r)
    ensures GetContract(after, order.id, Some(order))
  {
  }

  /** After a single `create` on an empty store, `list` has exactly one entry, the created order. */
  lemma {:induction false} CreateOnEmptyListsOne(after: Store, order: Order, r: Order, listed: seq<Order>)
    requires CreateContract(map[], after, order, r) && Lists(after, listed)
    ensures listed == [order]
  {
    assert after == map[order.id := order];
    ListsLength(after, listed);
    assert |after| == 1;
  }

  /** A listing holds exactly the stored orders, each once, so it is as long as the store. */
  lemma {:induction false} ListsLength(store: Store, r: seq<Order>)
    requires Lists(store, r)
    ensures |r| == |store|
  {
    var ids := set i | 0 <= i < |r| :: r[i].id;
    assert ids == store.Keys;
    DistinctIdsCount(r);
  }

  lemma {:induction false} DistinctIdsCount(r: seq<Order>)
    requires forall i, j | 0 <= i < j < |r| :: r[i].id != r[j].id
    ensures |set i | 0 <= i < |r| :: r[i].id| == |r|
  {
    if r != [] {
      var r' := r[..|r| - 1];
      DistinctIdsCount(r');
      var ids' := set i | 0 <= i < |r'| :: r'[i].id;
      var ids := set i | 0 <= i < |r| :: r[i].id;
      assert ids == ids' + {r[|r| - 1].id};
      assert r[|r| - 1].id !in ids';
    }
  }

  /** An identifier that is absent stays absent: `get` and `update_status` give `None`, `delete` gives `false`. */
  lemma AbsentIdentifier(store: Store, after: Store, afterDelete: Store, id: Id,
                         status: OrderStatus, now: Timestamp, updated: Option<Order>, deleted: bool)
    requires id !in store
    requires UpdateContract(store, after, id, status, now, updated)
    requires DeleteContract(store, afterDelete, id, deleted)
    ensures GetContract(store, id, None)
    ensures updated == None && after == store
    ensures !deleted && afterDelete == store
  {
  }

  /** After a successful `delete`, `get` gives `None`, a second `delete` gives `false`, and `list` omits the order. */
  lemma DeleteIsFinal(before: Store, after: Store, id: Id, afterSecond: Store, second: bool, listed: seq<Order>)
    requires DeleteContract(before, after, id, true)
    requires DeleteContract(after, afterSecond, id, second)
    requires Lists(after, listed)
    ensures id in before
    ensures GetContract(after, id, None)
    ensures !second && afterSecond == after
    ensures forall i | 0 <= i < |listed| :: listed[i].id != id
  {
  }

  /** `update_status` on a present order returns it with the new status, and `get` then agrees. */
  lemma UpdateThenGet(before: Store, after: Store, id: Id, status: OrderStatus, now: Timestamp, r: Option<Order>)
    requires id in before && UpdateContract(before, after, id, status, now, r)
    ensures r.Some? && r.value.status == status && r.value.updatedAt == now
    ensures GetContract(after, id, r)
  {
  }
}
