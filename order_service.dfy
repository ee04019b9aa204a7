/**
 * The application service: it validates, makes one repository call per
 * operation, and turns the outcome into the error taxonomy: a validation
 * failure is a bad request, an absent order is not found, and every
 * repository error is internal.
 *
 * Each operation is stated once as a function of the stores' contents; the
 * class `OrderService` drives a `Repo` and is proved to agree with those
 * functions, and the end-to-end properties are proved about the functions.
 */
module Service {
  import opened Wrappers
  import opened Domain
  import opened Port
  import opened Sqlite
  import opened Repos
  import opened Errors

  // ---------------------------------------------------------------------------
  // Translating repository outcomes
  // ---------------------------------------------------------------------------

  /** A repository error, as the internal error that carries its text. */
  function FromRepoError(e: RepoError): AppError {
    Internal(RepoErrorText(e))
  }

  /** The error for an identifier that names no order. */
  function OrderNotFound(id: Id): AppError {
    NotFound("order " + IdText(id))
  }

  /** The outcome of `get_order` and `update_status`: an order, or not found when the repository has none. */
  function FoundOrNotFound(id: Id, res: Result<Option<Order>, RepoError>): (r: Result<Order, AppError>)
    ensures r.Ok? <==> res.Ok? && res.value.Some?
    ensures r.Ok? ==> r.value == res.value.value
    ensures r.Err? && r.error.NotFound? <==> res == Ok(None)
    ensures res.Err? ==> r.Err? && r.error.Internal?
  {
    match res
    case Err(e) => Err(FromRepoError(e))
    case Ok(Some(o)) => Ok(o)
    case Ok(None) => Err(OrderNotFound(id))
  }

  /** The outcome of `list_orders`: the orders, or an internal error; never not found. */
  function ListOutcome(res: Result<seq<Order>, RepoError>): (r: Result<seq<Order>, AppError>)
    ensures r.Ok? <==> res.Ok?
    ensures r.Ok? ==> r.value == res.value
    ensures r.Err? ==> r.error.Internal?
  {
    match res
    case Err(e) => Err(FromRepoError(e))
    case Ok(orders) => Ok(orders)
  }

  /** The outcome of `delete_order`: success when the repository removed an order, not found when it did not. */
  function DeleteOutcome(id: Id, res: Result<bool, RepoError>): (r: Result<(), AppError>)
    ensures r.Ok? <==> res == Ok(true)
    ensures r.Err? && r.error.NotFound? <==> res == Ok(false)
    ensures res.Err? ==> r.Err? && r.error.Internal?
  {
    match res
    case Err(e) => Err(FromRepoError(e))
    case Ok(deleted) => if deleted then Ok(()) else Err(OrderNotFound(id))
  }

  // ---------------------------------------------------------------------------
  // The operations, on the stores' contents
  // ---------------------------------------------------------------------------

  /** `create_order`: the constructed order itself is returned, not a copy read back from the store. */
  function ServiceCreate(f: Features, b: Backends, customerName: string, email: string, items: seq<OrderItem>,
                         id: Id, now: Timestamp, io: Io, keyTaken: string): (Backends, Result<Order, AppError>)
  {
    match NewOrder(customerName, email, items, id, now)
    case Err(m) => (b, Err(BadRequest(m)))
    case Ok(order) =>
      var (b', res) := RepoCreate(f, b, order, io, keyTaken);
      (b', if res.Err? then Err(FromRepoError(res.error)) else Ok(order))
  }

  function ServiceGet(f: Features, b: Backends, id: Id, io: Io): Result<Order, AppError> {
    FoundOrNotFound(id, RepoGet(f, b, id, io))
  }

  ghost predicate ServiceListed(f: Features, b: Backends, io: Io, r: Result<seq<Order>, AppError>) {
    exists res :: RepoListed(f, b, io, res) && r == ListOutcome(res)
  }

  function ServiceUpdate(f: Features, b: Backends, id: Id, status: OrderStatus, now: Timestamp, io: Io)
    : (Backends, Result<Order, AppError>)
  {
    var (b', res) := RepoUpdate(f, b, id, status, now, io);
    (b', FoundOrNotFound(id, res))
  }

  function ServiceDelete(f: Features, b: Backends, id: Id, io: Io): (Backends, Result<(), AppError>) {
    var (b', res) := RepoDelete(f, b, id, io);
    (b', DeleteOutcome(id, res))
  }

  // ---------------------------------------------------------------------------
  // The service
  // ---------------------------------------------------------------------------

  class OrderService {
    const repo: Repo

    ghost predicate Valid()
      reads this, repo, repo.memory, repo.sqlite
    {
      repo.Valid()
    }

    constructor (repo: Repo)
      requires repo.Valid()
      ensures Valid() && this.repo == repo
    {
      this.repo := repo;
    }

    method CreateOrder(customerName: string, email: string, items: seq<OrderItem>, id: Id, now: Timestamp, io: Io,
                       keyTaken: string)
      returns (r: Result<Order, AppError>)
      requires Valid()
      modifies repo.memory, repo.sqlite
      ensures Valid()
      ensures (repo.State(), r) == ServiceCreate(repo.features, old(repo.State()), customerName, email, items, id, now, io, keyTaken)
    {
      var validated := NewOrder(customerName, email, items, id, now);
      if validated.Err? {
        return Err(BadRequest(validated.error));
      }
      var order := validated.value;
      var persisted := repo.Create(order, io, keyTaken);
      if persisted.Err? {
        return Err(FromRepoError(persisted.error));
      }
      r := Ok(order);
    }

    method GetOrder(id: Id, io: Io) returns (r: Result<Order, AppError>)
      requires Valid()
      ensures r == ServiceGet(repo.features, repo.State(), id, io)
    {
      var found := repo.Get(id, io);
      r := FoundOrNotFound(id, found);
    }

    method ListOrders(io: Io) returns (r: Result<seq<Order>, AppError>)
      requires Valid()
      ensures ServiceListed(repo.features, repo.State(), io, r)
    {
      var listed := repo.List(io);
      r := ListOutcome(listed);
    }

    method UpdateStatus(id: Id, status: OrderStatus, now: Timestamp, io: Io) returns (r: Result<Order, AppError>)
      requires Valid()
      modifies repo.memory, repo.sqlite
      ensures Valid()
      ensures (repo.State(), r) == ServiceUpdate(repo.features, old(repo.State()), id, status, now, io)
    {
      var updated := repo.UpdateStatus(id, status, now, io);
      r := FoundOrNotFound(id, updated);
    }

    method DeleteOrder(id: Id, io: Io) returns (r: Result<(), AppError>)
      requires Valid()
      modifies repo.memory, repo.sqlite
      ensures Valid()
      ensures (repo.State(), r) == ServiceDelete(repo.features, old(repo.State()), id, io)
    {
      var deleted := repo.Delete(id, io);
      r := DeleteOutcome(id, deleted);
    }
  }

  // ---------------------------------------------------------------------------
  // End-to-end properties
  // ---------------------------------------------------------------------------

  /** The identifier names no order in any store the build uses. */
  predicate Absent(f: Features, b: Backends, id: Id) {
    && (!f.SqliteOnly? ==> id !in b.memory)
    && (!f.MemoryOnly? ==> Encoded(id) !in b.table)
  }

  /** Invalid input is a bad request carrying the first failing rule's message, and the stores are untouched. */
  lemma InvalidInputIsBadRequest(f: Features, b: Backends, customerName: string, email: string,
                                 items: seq<OrderItem>, id: Id, now: Timestamp, io: Io, keyTaken: string)
    requires !AcceptableInput(customerName, email, items)
    ensures var (b', r) := ServiceCreate(f, b, customerName, email, items, id, now, io, keyTaken);
            b' == b && r == Err(BadRequest(NewOrder(customerName, email, items, id, now).error))
  {
  }

  /**
   * A valid order whose identifier is new is created as constructed, and
   * `get_order` then returns exactly that order, in every build.
   */
  lemma CreateThenGet(f: Features, b: Backends, customerName: string, email: string,
                      items: seq<OrderItem>, id: Id, now: Timestamp, keyTaken: string)
    requires AcceptableInput(customerName, email, items) && Absent(f, b, id)
    ensures var (b', r) := ServiceCreate(f, b, customerName, email, items, id, now, Healthy, keyTaken);
            && r.Ok? && r.value.id == id && r.value.customerName == customerName
            && r.value.totalCents == SumOfLines(items) && r.value.status == Pending
            && ServiceGet(f, b', id, Healthy) == r
  {
    var order := NewOrder(customerName, email, items, id, now).value;
    RowRoundTrip(order);
  }

  /** Creating Alice's order of two widgets at 500 totals 1000, and `get_order` returns it. */
  lemma CreateThenGetExample(f: Features, b: Backends, id: Id, now: Timestamp, keyTaken: string)
    requires Absent(f, b, id)
    ensures var (b', r) := ServiceCreate(f, b, "Alice", "a@b.com", [OrderItem("Widget", 2, 500)], id, now, Healthy, keyTaken);
            && r.Ok? && r.value.totalCents == 1000 && r.value.status == Pending
            && ServiceGet(f, b', id, Healthy) == r && r.value.customerName == "Alice"
  {
    var items := [OrderItem("Widget", 2, 500)];
    assert !IsWhitespace("Alice"[0]);
    assert '@' == "a@b.com"[1];
    assert SumOfLines(items) == 1000;
    CreateThenGet(f, b, "Alice", "a@b.com", items, id, now, keyTaken);
  }

  /** An identifier that names no order is not found by `get_order`, `update_status` and `delete_order`, which change nothing. */
  lemma UnknownIdIsNotFound(f: Features, b: Backends, id: Id, status: OrderStatus, now: Timestamp)
    requires Absent(f, b, id)
    ensures ServiceGet(f, b, id, Healthy) == Err(OrderNotFound(id))
    ensures ServiceUpdate(f, b, id, status, now, Healthy) == (b, Err(OrderNotFound(id)))
    ensures ServiceDelete(f, b, id, Healthy) == (b, Err(OrderNotFound(id)))
  {
    if DeletesFromMemory(f) {
      assert b.memory - {id} == b.memory;
    } else {
      assert b.table - {Encoded(id)} == b.table;
    }
  }

  /** After `update_status` succeeds, `get_order` returns the updated order, with the new status and time. */
  lemma UpdateThenGet(f: Features, b: Backends, id: Id, status: OrderStatus, now: Timestamp)
    requires KeyedById(b.memory)
    requires ServiceUpdate(f, b, id, status, now, Healthy).1.Ok?
    ensures var (b', r) := ServiceUpdate(f, b, id, status, now, Healthy);
            && r.value.id == id && r.value.status == status && r.value.updatedAt == now
            && ServiceGet(f, b', id, Healthy) == r
  {
    if !ServesFromMemory(f) {
      StatusRoundTrip(status);
    }
  }

  /**
   * In the single-store builds, after `delete_order` succeeds the order is
   * gone: `get_order` and a second `delete_order` are not found, and a
   * listing no longer holds it.
   */
  lemma DeleteIsFinal(f: Features, b: Backends, id: Id, listed: Result<seq<Order>, AppError>)
    requires !f.MemoryAndSqlite?
    requires ServiceDelete(f, b, id, Healthy).1.Ok?
    requires ServiceListed(f, ServiceDelete(f, b, id, Healthy).0, Healthy, listed)
    ensures var b' := ServiceDelete(f, b, id, Healthy).0;
            && ServiceGet(f, b', id, Healthy) == Err(OrderNotFound(id))
            && ServiceDelete(f, b', id, Healthy) == (b', Err(OrderNotFound(id)))
            && (listed.Ok? ==> forall i | 0 <= i < |listed.value| :: listed.value[i].id != id)
  {
    var b' := ServiceDelete(f, b, id, Healthy).0;
    assert Absent(f, b', id);
    UnknownIdIsNotFound(f, b', id, Pending, 0);
    var res :| RepoListed(f, b', Healthy, res) && listed == ListOutcome(res);
  }

  /**
   * With both features, an order created through the service cannot be
   * deleted: `delete_order` is not found and changes nothing, and
   * `get_order` still returns the order.
   */
  lemma BothFeaturesCannotDelete(b: Backends, customerName: string, email: string,
                                 items: seq<OrderItem>, id: Id, now: Timestamp, keyTaken: string)
    requires AcceptableInput(customerName, email, items) && Absent(MemoryAndSqlite, b, id) && b.memory == map[]
    ensures var (b', r) := ServiceCreate(MemoryAndSqlite, b, customerName, email, items, id, now, Healthy, keyTaken);
            && r.Ok?
            && ServiceDelete(MemoryAndSqlite, b', id, Healthy) == (b', Err(OrderNotFound(id)))
            && ServiceGet(MemoryAndSqlite, b', id, Healthy) == r
  {
    CreateThenGet(MemoryAndSqlite, b, customerName, email, items, id, now, keyTaken);
    var b' := ServiceCreate(MemoryAndSqlite, b, customerName, email, items, id, now, Healthy, keyTaken).0;
    assert b'.memory - {id} == b'.memory;
  }

  /**
   * With both features, the order `delete_order` failed to remove is still
   * listed by `list_orders`.
   */
  lemma BothFeaturesStillListed(b: Backends, customerName: string, email: string,
                                  items: seq<OrderItem>, id: Id, now: Timestamp, keyTaken: string,
                                  listed: Result<seq<Order>, AppError>)
    requires AcceptableInput(customerName, email, items) && Absent(MemoryAndSqlite, b, id)
    requires Consistent(MemoryAndSqlite, b)
    requires var b' := ServiceCreate(MemoryAndSqlite, b, customerName, email, items, id, now, Healthy, keyTaken).0;
             ServiceListed(MemoryAndSqlite, ServiceDelete(MemoryAndSqlite, b', id, Healthy).0, Healthy, listed)
    ensures var r := ServiceCreate(MemoryAndSqlite, b, customerName, email, items, id, now, Healthy, keyTaken).1;
            && r.Ok? && listed.Ok?
            && exists i | 0 <= i < |listed.value| :: listed.value[i] == r.value
  {
    var order := NewOrder(customerName, email, items, id, now).value;
    RepoCreateConforms(MemoryAndSqlite, b, order, keyTaken);
    var b' := ServiceCreate(MemoryAndSqlite, b, customerName, email, items, id, now, Healthy, keyTaken).0;
    BothFeaturesDeleteFindsNothing(b', id, Healthy);
    var res: Result<seq<Order>, RepoError> :| RepoListed(MemoryAndSqlite, b', Healthy, res) && listed == ListOutcome(res);
    RepoListConforms(MemoryAndSqlite, b', res);
    assert id in Orders(MemoryAndSqlite, b');
    var i :| 0 <= i < |res.value| && res.value[i].id == id;
    assert listed.value[i] == order;
  }

  /**
   * Every repository error, in every operation, reaches the caller as an
   * internal error carrying its text: a failing statement, and the insert of
   * an identifier that already names a row. With both features
   * `delete_order` asks the in-memory store, which cannot fail.
   */
  lemma RepositoryErrorsAreInternal(f: Features, b: Backends, customerName: string, email: string,
                                    items: seq<OrderItem>, id: Id, status: OrderStatus, now: Timestamp,
                                    reason: string, keyTaken: string)
    requires !f.MemoryOnly?
    ensures ServiceGet(f, b, id, Fails(reason)) == Err(Internal(RepoErrorText(DbError(reason))))
    ensures ServiceUpdate(f, b, id, status, now, Fails(reason)) == (b, Err(Internal(RepoErrorText(DbError(reason)))))
    ensures f.SqliteOnly? ==> ServiceDelete(f, b, id, Fails(reason)).1 == Err(Internal(RepoErrorText(DbError(reason))))
    ensures ServiceListed(f, b, Fails(reason), Err(Internal(RepoErrorText(DbError(reason)))))
    ensures AcceptableInput(customerName, email, items) ==>
              ServiceCreate(f, b, customerName, email, items, id, now, Fails(reason), keyTaken)
              == (b, Err(Internal(RepoErrorText(DbError(reason)))))
    ensures AcceptableInput(customerName, email, items) && Encoded(id) in b.table ==>
              ServiceCreate(f, b, customerName, email, items, id, now, Healthy, keyTaken)
              == (b, Err(Internal(RepoErrorText(DbError(keyTaken)))))
  {
    assert RepoListed(f, b, Fails(reason), Err(DbError(reason)));
  }

  /** Listing never reports a missing order. */
  lemma ListIsNeverNotFound(f: Features, b: Backends, io: Io, r: Result<seq<Order>, AppError>)
    requires ServiceListed(f, b, io, r)
    ensures r.Err? ==> r.error.Internal?
  {
  }

  /**
   * The in-memory build never reports an internal error: `list_orders`
   * always succeeds, `create_order` fails only with a bad request, and
   * `get_order`, `update_status` and `delete_order` fail only with not found.
   */
  lemma MemoryBuildNeverFails(b: Backends, customerName: string, email: string, items: seq<OrderItem>,
                              id: Id, status: OrderStatus, now: Timestamp, io: Io, keyTaken: string,
                              r: Result<seq<Order>, AppError>)
    requires ServiceListed(MemoryOnly, b, io, r)
    ensures r.Ok?
    ensures ServiceCreate(MemoryOnly, b, customerName, email, items, id, now, io, keyTaken).1.Err? ==>
              ServiceCreate(MemoryOnly, b, customerName, email, items, id, now, io, keyTaken).1.error.BadRequest?
    ensures ServiceGet(MemoryOnly, b, id, io).Err? ==> ServiceGet(MemoryOnly, b, id, io).error.NotFound?
    ensures ServiceUpdate(MemoryOnly, b, id, status, now, io).1.Err? ==>
              ServiceUpdate(MemoryOnly, b, id, status, now, io).1.error.NotFound?
    ensures ServiceDelete(MemoryOnly, b, id, io).1.Err? ==> ServiceDelete(MemoryOnly, b, id, io).1.error.NotFound?
  {
  }
}
