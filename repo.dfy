/**
 * The `Repo` the application is built with, in each of the three builds the
 * crate's features allow: the in-memory store alone, the SQLite store alone,
 * or both stores, where every operation but `delete` goes to SQLite and
 * `delete` goes to the in-memory store.
 *
 * The operations are stated once on the stores' contents as values
 * (`Backends`), so that the service's end-to-end properties can be proved
 * about values; the class `Repo` forwards each call to its store and is
 * proved to agree with them.
 */
module Repos {
  import opened Wrappers
  import opened Domain
  import opened Port
  import opened Memory
  import opened Sqlite

  /** Which of the features `memory` and `sqlite` the crate is built with (at least one is required). */
  datatype Features = MemoryOnly | SqliteOnly | MemoryAndSqlite

  const DefaultDatabaseUrl: string := "sqlite://orders.db"

  /** The database URL a SQLite build opens: the one given, or the default file. */
  function DatabaseUrl(url: Option<string>): (r: string)
    ensures url.Some? ==> r == url.value
    ensures url.None? ==> r == DefaultDatabaseUrl
  {
    match url
    case Some(u) => u
    case None => DefaultDatabaseUrl
  }

  /** The contents of the two stores; a store a build does not have stays empty. */
  datatype Backends = Backends(memory: Store, table: Table)

  /** The builds whose create, get, list and update_status go to the in-memory store. */
  predicate ServesFromMemory(f: Features) {
    f.MemoryOnly?
  }

  /** The builds whose delete goes to the in-memory store. */
  predicate DeletesFromMemory(f: Features) {
    f.MemoryOnly? || f.MemoryAndSqlite?
  }

  function RepoCreate(f: Features, b: Backends, order: Order, io: Io, keyTaken: string): (Backends, Result<Order, RepoError>) {
    if ServesFromMemory(f) then (b.(memory := b.memory[order.id := order]), Ok(order))
    else var (t, r) := SqlCreate(b.table, order, io, keyTaken); (b.(table := t), r)
  }

  function RepoGet(f: Features, b: Backends, id: Id, io: Io): Result<Option<Order>, RepoError> {
    if ServesFromMemory(f) then Ok(Lookup(b.memory, id)) else SqlGet(b.table, id, io)
  }

  predicate RepoListed(f: Features, b: Backends, io: Io, r: Result<seq<Order>, RepoError>) {
    if ServesFromMemory(f) then r.Ok? && Lists(b.memory, r.value) else SqlListed(b.table, io, r)
  }

  function RepoUpdate(f: Features, b: Backends, id: Id, status: OrderStatus, now: Timestamp, io: Io)
    : (Backends, Result<Option<Order>, RepoError>)
  {
    if ServesFromMemory(f) then
      if id in b.memory then
        var updated := Domain.UpdateStatus(b.memory[id], status, now);
        (b.(memory := b.memory[id := updated]), Ok(Some(updated)))
      else (b, Ok(None))
    else var (t, r) := SqlUpdate(b.table, id, status, now, io); (b.(table := t), r)
  }

  function RepoDelete(f: Features, b: Backends, id: Id, io: Io): (Backends, Result<bool, RepoError>) {
    if DeletesFromMemory(f) then (b.(memory := b.memory - {id}), Ok(id in b.memory))
    else var (t, r) := SqlDelete(b.table, id, io); (b.(table := t), r)
  }

  class Repo {
    const features: Features
    const memory: InMemoryRepo?
    const sqlite: SqliteRepo?

    /**
     * A build has exactly the stores its features name. With both features
     * the in-memory store only ever receives deletes, so it stays empty.
     */
    ghost predicate Valid()
      reads this, memory, sqlite
    {
      && (memory != null <==> !features.SqliteOnly?)
      && (sqlite != null <==> !features.MemoryOnly?)
      && (memory != null ==> memory.Valid())
      && (features.MemoryAndSqlite? ==> memory.orders == map[])
    }

    ghost function State(): Backends
      reads this, memory, sqlite
    {
      Backends(if memory != null then memory.orders else map[], if sqlite != null then sqlite.table else map[])
    }

    constructor (features: Features, memory: InMemoryRepo?, sqlite: SqliteRepo?)
      requires memory != null <==> !features.SqliteOnly?
      requires sqlite != null <==> !features.MemoryOnly?
      requires memory != null ==> memory.Valid()
      requires features.MemoryAndSqlite? ==> memory.orders == map[]
      ensures Valid()
      ensures this.features == features && this.memory == memory && this.sqlite == sqlite
    {
      this.features := features;
      this.memory := memory;
      this.sqlite := sqlite;
    }

    method Create(order: Order, io: Io, keyTaken: string) returns (r: Result<Order, RepoError>)
      requires Valid()
      modifies memory, sqlite
      ensures Valid()
      ensures (State(), r) == RepoCreate(features, old(State()), order, io, keyTaken)
    {
      if features.MemoryOnly? {
        r := memory.Create(order);
      } else {
        r := sqlite.Create(order, io, keyTaken);
      }
    }

    method Get(id: Id, io: Io) returns (r: Result<Option<Order>, RepoError>)
      requires Valid()
      ensures r == RepoGet(features, State(), id, io)
    {
      if features.MemoryOnly? {
        r := memory.Get(id);
      } else {
        r := sqlite.Get(id, io);
      }
    }

    method List(io: Io) returns (r: Result<seq<Order>, RepoError>)
      requires Valid()
      ensures RepoListed(features, State(), io, r)
    {
      if features.MemoryOnly? {
        r := memory.List();
      } else {
        r := sqlite.List(io);
      }
    }

    method UpdateStatus(id: Id, status: OrderStatus, now: Timestamp, io: Io)
      returns (r: Result<Option<Order>, RepoError>)
      requires Valid()
      modifies memory, sqlite
      ensures Valid()
      ensures (State(), r) == RepoUpdate(features, old(State()), id, status, now, io)
    {
      if features.MemoryOnly? {
        r := memory.UpdateStatus(id, status, now);
      } else {
        r := sqlite.UpdateStatus(id, status, now, io);
      }
    }

    method Delete(id: Id, io: Io) returns (r: Result<bool, RepoError>)
      requires Valid()
      modifies memory, sqlite
      ensures Valid()
      ensures (State(), r) == RepoDelete(features, old(State()), id, io)
    {
      if features.SqliteOnly? {
        r := sqlite.Delete(id, io);
      } else {
        r := memory.Delete(id);
      }
    }
  }

  /**
   * `build_repo`. `database` is what opening the SQLite database yields: the
   * rows it already holds, or the error of creating its directory,
   * connecting or migrating. The memory-only build ignores the URL and
   * cannot fail.
   */
  method BuildRepo(features: Features, url: Option<string>, database: Result<Table, string>)
    returns (r: Result<Repo, string>)
    ensures r.Ok? ==> fresh(r.value) && r.value.Valid() && r.value.features == features
    ensures r.Ok? && r.value.memory != null ==> fresh(r.value.memory) && r.value.memory.orders == map[]
    ensures r.Ok? && r.value.sqlite != null ==> fresh(r.value.sqlite)
    ensures features.MemoryOnly? ==> r.Ok? && r.value.State() == Backends(map[], map[])
    ensures !features.MemoryOnly? ==> (r.Ok? <==> database.Ok?)
    ensures !features.MemoryOnly? && r.Ok? ==>
              r.value.sqlite.url == DatabaseUrl(url) && r.value.State() == Backends(map[], database.value)
    ensures !features.MemoryOnly? && r.Err? ==> r.error == database.error
  {
    var memory: InMemoryRepo? := null;
    if !features.SqliteOnly? {
      memory := new InMemoryRepo();
    }
    if features.MemoryOnly? {
      var repo := new Repo(features, memory, null);
      return Ok(repo);
    }
    var databaseUrl := DatabaseUrl(url);
    if database.Err? {
      return Err(database.error);
    }
    var sqlite := new SqliteRepo(databaseUrl, database.value);
    var repo := new Repo(features, memory, sqlite);
    r := Ok(repo);
  }

  // ---------------------------------------------------------------------------
  // Each build against the port
  // ---------------------------------------------------------------------------

  /** The stores of a build are in the shape `Repo.Valid` keeps, and every SQLite row reads back. */
  predicate Consistent(f: Features, b: Backends) {
    && KeyedById(b.memory)
    && (f.MemoryAndSqlite? ==> b.memory == map[])
    && (!f.MemoryOnly? ==> AllReadable(b.table))
  }

  /** The orders a build serves to `get` and `list`. */
  function Orders(f: Features, b: Backends): Store
    requires Consistent(f, b)
  {
    if f.MemoryOnly? then b.memory else AsStore(b.table)
  }

  /** `create` of a new order in any build follows the port's contract, and the stores stay readable. */
  lemma RepoCreateConforms(f: Features, b: Backends, order: Order, keyTaken: string)
    requires Consistent(f, b) && order.id !in Orders(f, b)
    ensures var (b', r) := RepoCreate(f, b, order, Healthy, keyTaken);
            r == Ok(order) && Consistent(f, b') && CreateContract(Orders(f, b), Orders(f, b'), order, order)
  {
    if !f.MemoryOnly? {
      CreateConforms(b.table, order, keyTaken);
    }
  }

  /** `get` in any build follows the port's contract. */
  lemma RepoGetConforms(f: Features, b: Backends, id: Id)
    requires Consistent(f, b)
    ensures RepoGet(f, b, id, Healthy).Ok? && GetContract(Orders(f, b), id, RepoGet(f, b, id, Healthy).value)
  {
    if !f.MemoryOnly? {
      GetConforms(b.table, id);
    }
  }

  /** `list` in any build lists the orders the build serves. */
  lemma RepoListConforms(f: Features, b: Backends, r: Result<seq<Order>, RepoError>)
    requires Consistent(f, b) && RepoListed(f, b, Healthy, r)
    ensures r.Ok? && Lists(Orders(f, b), r.value)
  {
    if !f.MemoryOnly? {
      ListConforms(b.table, r);
    }
  }

  /** `update_status` in any build follows the port's contract, and the stores stay readable. */
  lemma RepoUpdateConforms(f: Features, b: Backends, id: Id, status: OrderStatus, now: Timestamp)
    requires Consistent(f, b)
    ensures var (b', r) := RepoUpdate(f, b, id, status, now, Healthy);
            r.Ok? && Consistent(f, b') && UpdateContract(Orders(f, b), Orders(f, b'), id, status, now, r.value)
  {
    if !f.MemoryOnly? {
      UpdateConforms(b.table, id, status, now);
    } else {
      var (b', r) := RepoUpdate(f, b, id, status, now, Healthy);
      assert KeyedById(b'.memory);
    }
  }

  /** `delete` follows the port's contract in the two single-store builds. */
  lemma RepoDeleteConforms(f: Features, b: Backends, id: Id)
    requires Consistent(f, b) && !f.MemoryAndSqlite?
    ensures var (b', r) := RepoDelete(f, b, id, Healthy);
            r.Ok? && Consistent(f, b') && DeleteContract(Orders(f, b), Orders(f, b'), id, r.value)
  {
    if f.SqliteOnly? {
      DeleteConforms(b.table, id);
    }
  }

  /**
   * With both features, `delete` asks the in-memory store, which never holds
   * anything: it reports `false` and changes nothing, even for an order that
   * `get` finds, so it breaks the port's `delete` contract.
   */
  lemma BothFeaturesDeleteFindsNothing(b: Backends, id: Id, io: Io)
    requires Consistent(MemoryAndSqlite, b)
    ensures RepoDelete(MemoryAndSqlite, b, id, io) == (b, Ok(false))
    ensures id in Orders(MemoryAndSqlite, b) ==>
              !DeleteContract(Orders(MemoryAndSqlite, b), Orders(MemoryAndSqlite, b), id, false)
  {
    assert b.memory - {id} == b.memory;
  }
}
