/**
 * The SQLite adapter, with its `orders` table modelled as a map from the
 * `id` column to the rest of the row.
 *
 * Three codecs are outside the model: the JSON text of the items, the
 * RFC 3339 text of the two timestamps and the text of the identifier. A
 * column holding such a text is a `Column`: either the text some value
 * encodes to, which reads back as that value, or a text its parser rejects
 * with a message. The status column is plain text, and its codec is modelled.
 *
 * Whether a call's SQL statements run is an input `Io`: they succeed, or the
 * driver reports an error (lost connection, full disk and the like).
 */
module Sqlite {
  import opened Wrappers
  import opened Domain
  import opened Port

  datatype Column<T> = Encoded(value: T) | Unreadable(parseError: string)

  datatype Io = Healthy | Fails(reason: string)

  // ---------------------------------------------------------------------------
  // The status column
  // ---------------------------------------------------------------------------

  /** The text stored for a status: its `Debug` name. */
  function StatusName(s: OrderStatus): string {
    match s
    case Pending => "Pending"
    case Confirmed => "Confirmed"
    case Shipped => "Shipped"
    case Cancelled => "Cancelled"
    case Completed => "Completed"
  }

  /** The status read back from the column; a text that names no status reads as `Pending`. */
  function DecodeStatus(name: string): OrderStatus {
    match name
    case "Pending" => Pending
    case "Confirmed" => Confirmed
    case "Shipped" => Shipped
    case "Cancelled" => Cancelled
    case "Completed" => Completed
    case _ => Pending
  }

  /** Writing a status and reading it back gives the same status. */
  lemma StatusRoundTrip(s: OrderStatus)
    ensures DecodeStatus(StatusName(s)) == s
  {
  }

  /** A text that is no status name is not an error: it silently reads as `Pending`. */
  lemma UnknownStatusReadsPending(name: string)
    requires forall s: OrderStatus :: name != StatusName(s)
    ensures DecodeStatus(name) == Pending
  {
    assert name != StatusName(Confirmed) && name != StatusName(Shipped);
    assert name != StatusName(Cancelled) && name != StatusName(Completed);
  }

  // ---------------------------------------------------------------------------
  // Rows
  // ---------------------------------------------------------------------------

  datatype DbRow = DbRow(
    customerName: string,
    email: string,
    totalCents: int,
    status: string,
    createdAt: Column<Timestamp>,
    updatedAt: Column<Timestamp>,
    itemsJson: Column<seq<OrderItem>>)

  /** The `id` column, the table's key. */
  type Key = Column<Id>

  type Table = map<Key, DbRow>

  /** All the columns of a row parse. */
  predicate Readable(key: Key, row: DbRow) {
    key.Encoded? && row.createdAt.Encoded? && row.updatedAt.Encoded? && row.itemsJson.Encoded?
  }

  /**
   * `DbOrder::into_order`: the order a row holds, or the error of the first
   * column that does not parse, in the order items, created_at, updated_at,
   * id. A row never yields part of an order.
   */
  function IntoOrder(key: Key, row: DbRow): (r: Result<Order, RepoError>)
    ensures r.Ok? <==> Readable(key, row)
    ensures r.Ok? ==> key == Encoded(r.value.id)
    ensures r.Ok? ==> r.value.customerName == row.customerName && r.value.email == row.email
                      && r.value.totalCents == row.totalCents && r.value.status == DecodeStatus(row.status)
                      && r.value.items == row.itemsJson.value && r.value.createdAt == row.createdAt.value
                      && r.value.updatedAt == row.updatedAt.value
    ensures row.itemsJson.Unreadable? ==> r == Err(DbError(row.itemsJson.parseError))
    ensures row.itemsJson.Encoded? && row.createdAt.Unreadable? ==> r == Err(DbError(row.createdAt.parseError))
    ensures row.itemsJson.Encoded? && row.createdAt.Encoded? && row.updatedAt.Unreadable?
            ==> r == Err(DbError(row.updatedAt.parseError))
    ensures row.itemsJson.Encoded? && row.createdAt.Encoded? && row.updatedAt.Encoded? && key.Unreadable?
            ==> r == Err(DbError(key.parseError))
  {
    var status := DecodeStatus(row.status);
    match row.itemsJson
    case Unreadable(e) => Err(DbError(e))
    case Encoded(items) =>
      match row.createdAt
      case Unreadable(e) => Err(DbError(e))
      case Encoded(createdAt) =>
        match row.updatedAt
        case Unreadable(e) => Err(DbError(e))
        case Encoded(updatedAt) =>
          match key
          case Unreadable(e) => Err(DbError(e))
          case Encoded(id) =>
            Ok(Order(id, row.customerName, row.email, items, row.totalCents, status, createdAt, updatedAt))
  }

  /** The row `create` inserts for an order, its status stored by name. */
  function EncodeRow(o: Order): DbRow {
    DbRow(o.customerName, o.email, o.totalCents, StatusName(o.status),
          Encoded(o.createdAt), Encoded(o.updatedAt), Encoded(o.items))
  }

  /** A row written by `create` reads back as exactly the order that was written. */
  lemma RowRoundTrip(o: Order)
    ensures IntoOrder(Encoded(o.id), EncodeRow(o)) == Ok(o)
  {
    StatusRoundTrip(o.status);
  }

  // ---------------------------------------------------------------------------
  // The statements of each operation, on the table as a value
  // ---------------------------------------------------------------------------

  /** The number of rows `WHERE id = ?` selects. */
  function RowsMatching(t: Table, id: Id): nat {
    if Encoded(id) in t then 1 else 0
  }

  /**
   * The INSERT of `create`. `keyTaken` is the text of the error the driver
   * reports when the identifier is already the key of a row.
   */
  function SqlCreate(t: Table, order: Order, io: Io, keyTaken: string): (Table, Result<Order, RepoError>) {
    match io
    case Fails(e) => (t, Err(DbError(e)))
    case Healthy =>
      if Encoded(order.id) in t then (t, Err(DbError(keyTaken)))
      else (t[Encoded(order.id) := EncodeRow(order)], Ok(order))
  }

  function SqlGet(t: Table, id: Id, io: Io): Result<Option<Order>, RepoError> {
    match io
    case Fails(e) => Err(DbError(e))
    case Healthy =>
      if Encoded(id) !in t then Ok(None)
      else
        match IntoOrder(Encoded(id), t[Encoded(id)])
        case Ok(o) => Ok(Some(o))
        case Err(e) => Err(e)
  }

  /** The row after `UPDATE orders SET status = ?, updated_at = ?`. */
  function SetStatus(row: DbRow, status: OrderStatus, now: Timestamp): DbRow {
    row.(status := StatusName(status), updatedAt := Encoded(now))
  }

  function SqlUpdate(t: Table, id: Id, status: OrderStatus, now: Timestamp, io: Io)
    : (Table, Result<Option<Order>, RepoError>)
  {
    match io
    case Fails(e) => (t, Err(DbError(e)))
    case Healthy =>
      if RowsMatching(t, id) == 0 then (t, Ok(None))
      else
        var t' := t[Encoded(id) := SetStatus(t[Encoded(id)], status, now)];
        (t', SqlGet(t', id, io))
  }

  function SqlDelete(t: Table, id: Id, io: Io): (Table, Result<bool, RepoError>) {
    match io
    case Fails(e) => (t, Err(DbError(e)))
    case Healthy => (t - {Encoded(id)}, Ok(RowsMatching(t, id) > 0))
  }

  /** Every row is readable. */
  predicate AllReadable(t: Table) {
    forall k | k in t :: Readable(k, t[k])
  }

  /** `l` holds each row of the table once, read back as an order. */
  predicate ListsRows(t: Table, l: seq<Order>) {
    && (forall i | 0 <= i < |l| :: Encoded(l[i].id) in t && IntoOrder(Encoded(l[i].id), t[Encoded(l[i].id)]) == Ok(l[i]))
    && (forall i, j | 0 <= i < j < |l| :: l[i].id != l[j].id)
    && (forall k | k in t :: exists i | 0 <= i < |l| :: Encoded(l[i].id) == k)
  }

  /**
   * What `list` may return: every row read back, in an order the model
   * leaves open, or, when some row is unreadable, the error of such a row.
   */
  predicate SqlListed(t: Table, io: Io, r: Result<seq<Order>, RepoError>) {
    match io
    case Fails(e) => r == Err(DbError(e))
    case Healthy =>
      if AllReadable(t) then r.Ok? && ListsRows(t, r.value)
      else r.Err? && exists k | k in t :: IntoOrder(k, t[k]) == Err(r.error)
  }

  // ---------------------------------------------------------------------------
  // The adapter
  // ---------------------------------------------------------------------------

  class SqliteRepo {
    /** The database the connection pool was opened on. */
    const url: string
    var table: Table

    /**
     * `SqliteRepo::new` once the pool is open and the migration has run:
     * the table holds whatever rows the database file already had.
     */
    constructor (url: string, rows: Table)
      ensures this.url == url && table == rows
    {
      this.url := url;
      table := rows;
    }

    method Create(order: Order, io: Io, keyTaken: string) returns (r: Result<Order, RepoError>)
      modifies this
      ensures (table, r) == SqlCreate(old(table), order, io, keyTaken)
    {
      var row := EncodeRow(order);
      if io.Fails? {
        r := Err(DbError(io.reason));
      } else if Encoded(order.id) in table {
        r := Err(DbError(keyTaken));
      } else {
        table := table[Encoded(order.id) := row];
        r := Ok(order);
      }
    }

    method Get(id: Id, io: Io) returns (r: Result<Option<Order>, RepoError>)
      ensures r == SqlGet(table, id, io)
    {
      if io.Fails? {
        return Err(DbError(io.reason));
      }
      if Encoded(id) !in table {
        return Ok(None);
      }
      var decoded := IntoOrder(Encoded(id), table[Encoded(id)]);
      if decoded.Err? {
        return Err(decoded.error);
      }
      r := Ok(Some(decoded.value));
    }

    /** Reads every row, stopping at the first one that does not read back. */
    method List(io: Io) returns (r: Result<seq<Order>, RepoError>)
      ensures SqlListed(table, io, r)
    {
      if io.Fails? {
        return Err(DbError(io.reason));
      }
      var listed: seq<Order> := [];
      var rest := table.Keys;
      while rest != {}
        invariant rest <= table.Keys
        invariant forall k | k in table && k !in rest :: Readable(k, table[k])
        invariant forall i | 0 <= i < |listed| ::
          Encoded(listed[i].id) in table && Encoded(listed[i].id) !in rest
          && IntoOrder(Encoded(listed[i].id), table[Encoded(listed[i].id)]) == Ok(listed[i])
        invariant forall i, j | 0 <= i < j < |listed| :: listed[i].id != listed[j].id
        invariant forall k | k in table && k !in rest :: exists i | 0 <= i < |listed| :: Encoded(listed[i].id) == k
        decreases rest
      {
        var k :| k in rest;
        var decoded := IntoOrder(k, table[k]);
        if decoded.Err? {
          assert !AllReadable(table);
          return Err(decoded.error);
        }
        ghost var before := listed;
        listed := listed + [decoded.value];
        assert Encoded(listed[|before|].id) == k;
        assert forall i | 0 <= i < |before| :: listed[i] == before[i];
        rest := rest - {k};
      }
      r := Ok(listed);
    }

    /** Sets the status and time of the matching row, then reads the row back; no matching row gives `None`. */
    method UpdateStatus(id: Id, status: OrderStatus, now: Timestamp, io: Io) returns (r: Result<Option<Order>, RepoError>)
      modifies this
      ensures (table, r) == SqlUpdate(old(table), id, status, now, io)
    {
      if io.Fails? {
        return Err(DbError(io.reason));
      }
      var rowsAffected := RowsMatching(table, id);
      if rowsAffected == 0 {
        return Ok(None);
      }
      table := table[Encoded(id) := SetStatus(table[Encoded(id)], status, now)];
      r := Get(id, io);
    }

    /** Deletes the matching row; `true` exactly when a row was deleted. */
    method Delete(id: Id, io: Io) returns (r: Result<bool, RepoError>)
      modifies this
      ensures (table, r) == SqlDelete(old(table), id, io)
    {
      if io.Fails? {
        return Err(DbError(io.reason));
      }
      var rowsAffected := RowsMatching(table, id);
      table := table - {Encoded(id)};
      r := Ok(rowsAffected > 0);
    }
  }

  // ---------------------------------------------------------------------------
  // The adapter against the port, on a table whose rows all read back
  // ---------------------------------------------------------------------------

  /** The order a readable row holds. */
  function ReadBack(key: Key, row: DbRow): (o: Order)
    requires Readable(key, row)
    ensures key == Encoded(o.id)
  {
    IntoOrder(key, row).value
  }

  /** The orders a readable table holds. */
  function AsStore(t: Table): (s: Store)
    requires AllReadable(t)
    ensures KeyedById(s)
    ensures forall id: Id :: id in s <==> Encoded(id) in t
  {
    map k | k in t :: k.value := ReadBack(k, t[k])
  }

  lemma AsStoreAt(t: Table, id: Id)
    requires AllReadable(t) && Encoded(id) in t
    ensures AsStore(t)[id] == IntoOrder(Encoded(id), t[Encoded(id)]).value
  {
  }

  /** Inserting the row of an order with a new id adds exactly that order to the orders the table holds. */
  lemma AsStoreInsert(t: Table, order: Order)
    requires AllReadable(t) && Encoded(order.id) !in t
    ensures var t' := t[Encoded(order.id) := EncodeRow(order)];
            AllReadable(t') && AsStore(t') == AsStore(t)[order.id := order]
  {
    var t' := t[Encoded(order.id) := EncodeRow(order)];
    RowRoundTrip(order);
    assert AllReadable(t');
    var s, s' := AsStore(t), AsStore(t');
    AsStoreAt(t', order.id);
    forall i | i in s' && i != order.id
      ensures i in s && s'[i] == s[i]
    {
      AsStoreAt(t, i);
      AsStoreAt(t', i);
    }
    assert forall i | i in s :: i in s';
  }


  /** `create` of a new order succeeds, inserts exactly that order, and `get` then returns it; a repeated id is an error. */
  lemma CreateConforms(t: Table, order: Order, keyTaken: string)
    requires AllReadable(t)
    ensures var (t', r) := SqlCreate(t, order, Healthy, keyTaken);
            && (order.id !in AsStore(t) ==> r == Ok(order) && AllReadable(t')
                                            && CreateContract(AsStore(t), AsStore(t'), order, order)
                                            && SqlGet(t', order.id, Healthy) == Ok(Some(order)))
            && (order.id in AsStore(t) ==> r.Err? && t' == t)
  {
    if order.id !in AsStore(t) {
      AsStoreInsert(t, order);
      RowRoundTrip(order);
    }
  }

  /** `get` on a readable table is the port's `get` of the orders it holds. */
  lemma GetConforms(t: Table, id: Id)
    requires AllReadable(t)
    ensures SqlGet(t, id, Healthy).Ok? && GetContract(AsStore(t), id, SqlGet(t, id, Healthy).value)
  {
    if Encoded(id) in t {
      AsStoreAt(t, id);
    }
  }

  /** `update_status` on a readable table is the port's `update_status`, and the table stays readable. */
  lemma UpdateConforms(t: Table, id: Id, status: OrderStatus, now: Timestamp)
    requires AllReadable(t)
    ensures var (t', r) := SqlUpdate(t, id, status, now, Healthy);
            && AllReadable(t') && r.Ok?
            && UpdateContract(AsStore(t), AsStore(t'), id, status, now, r.value)
  {
    var (t', r) := SqlUpdate(t, id, status, now, Healthy);
    if Encoded(id) in t {
      var s, s' := AsStore(t), AsStore(t');
      AsStoreAt(t, id);
      AsStoreAt(t', id);
      StatusRoundTrip(status);
      var updated := Domain.UpdateStatus(s[id], status, now);
      assert s'[id] == updated;
      forall i | i in s'
        ensures i in s[id := updated] && s'[i] == s[id := updated][i]
      {
        if i != id {
          AsStoreAt(t, i);
          AsStoreAt(t', i);
        }
      }
      assert s' == s[id := updated];
    }
  }

  /** Removing the row of an identifier removes exactly that order from the orders the table holds. */
  lemma AsStoreRemove(t: Table, id: Id)
    requires AllReadable(t)
    ensures AllReadable(t - {Encoded(id)}) && AsStore(t - {Encoded(id)}) == AsStore(t) - {id}
  {
    var t' := t - {Encoded(id)};
    var s, s' := AsStore(t), AsStore(t');
    forall i | i in s'
      ensures i in s && i != id && s'[i] == s[i]
    {
      AsStoreAt(t, i);
      AsStoreAt(t', i);
    }
    assert forall i | i in s && i != id :: i in s';
  }


  /** `delete` on a readable table is the port's `delete`, and the table stays readable. */
  lemma DeleteConforms(t: Table, id: Id)
    requires AllReadable(t)
    ensures var (t', r) := SqlDelete(t, id, Healthy);
            && AllReadable(t') && r.Ok?
            && DeleteContract(AsStore(t), AsStore(t'), id, r.value)
  {
    AsStoreRemove(t, id);
  }


  /** `list` on a readable table succeeds with a listing of the orders it holds. */
  lemma ListConforms(t: Table, r: Result<seq<Order>, RepoError>)
    requires AllReadable(t) && SqlListed(t, Healthy, r)
    ensures r.Ok? && Lists(AsStore(t), r.value)
  {
    var s, l := AsStore(t), r.value;
    forall i | 0 <= i < |l|
      ensures l[i].id in s && s[l[i].id] == l[i]
    {
      AsStoreAt(t, l[i].id);
    }
    forall id | id in s
      ensures exists i | 0 <= i < |l| :: l[i].id == id
    {
      assert Encoded(id) in t;
      var i :| 0 <= i < |l| && Encoded(l[i].id) == Encoded(id);
    }
  }
}
