# Orders service core, modelled in Dafny

This project models the hexagonal core of an order-management HTTP service written in Rust:

- **Order.** The domain entity, with its validating constructor `Order::new` and `update_status`.
- **Repository port.** The `OrderRepository` port (create, get, list, update_status, delete) and its error type `RepoError`.
- **Adapters.** Two adapters implement the port:
  - an in-memory map from identifier to order;
  - a SQLite table whose rows store the status by name and the items as JSON.
- **`Repo` dispatcher.** It forwards each call to an adapter. Which adapter depends on the crate features `memory` and `sqlite`.
- **`OrderService`.** It validates input, makes one repository call per operation and translates the outcome into `AppError`.
- **`AppError`.** Its display texts and the HTTP response each error becomes.

Modules, one per source file:

| module | file | models |
|---|---|---|
| `Domain` | `order.dfy` | `Order`, `OrderItem`, `OrderStatus`, `Order::new`, `update_status`, and the hyphenated text of an identifier |
| `Port` | `order_repository.dfy` | the port, stated as contract predicates over a map of orders, with lemmas about sequences of calls |
| `Memory` | `memory.dfy` | `class InMemoryRepo`, a map field changed in place |
| `Sqlite` | `sqlite.dfy` | the status codec, `DbOrder::into_order`, each statement as a function on the table, `class SqliteRepo`, and proofs that it meets the port on readable tables |
| `Errors` | `errors.dfy` | `AppError`, `Display`, `into_response` |
| `Repos` | `repo.dfy` | the three builds (memory only, SQLite only, both), `class Repo`, `build_repo` |
| `Service` | `order_service.dfy` | `class OrderService`, each operation as a function of the stores, end-to-end lemmas |

**Inputs instead of effects.** The clock (`Utc::now`) and identifier generation (`Uuid::new_v4`) become the parameters `now` and `id`. Whether the SQL statements of a call succeed becomes the parameter `io` (`Healthy` or `Fails(reason)`). The database `build_repo` opens becomes the parameter `database`: the rows it already holds, or the error of opening it.

**Codecs.** A SQLite column that holds JSON, RFC 3339 or UUID text is a `Column`. It is either the encoding of a value, which reads back as that value, or a text whose parser fails with a message. The status column is modelled exactly: it stores the variant's `Debug` name, and any unknown name reads back as `Pending`.

**Both features.** With both features, every operation except `delete` goes to SQLite, and `delete` goes to the in-memory store. Nothing ever writes to that store, so the model keeps it empty as an invariant (`Repos.Repo.Valid`). `delete_order` in that build therefore always answers "not found" and leaves the order in place. This is proved (`Repos.BothFeaturesDeleteFindsNothing`, `Service.BothFeaturesCannotDelete`, `Service.BothFeaturesStillListed`).

**Where the both-features build departs from the rest of the program.** The program's own tests expect a delete of a created order to succeed, and get to find nothing afterwards:
- `crates/orders-hex/src/application/order_service.rs:119-121`;
- `crates/orders-repo/tests/memory_repo.rs:37-39`;
- `crates/orders-repo/tests/sqlite_repo.rs:49-51`.

The single-store builds behave this way (`Service.DeleteIsFinal`). The both-features build does not, because it routes `delete` to the empty in-memory store. The client example at `crates/orders-app/examples/client_example.rs:74-101` works around the resulting 404. The model follows the code.

## Model

| member | source | states |
|---|---|---|
| Domain.Trim | crates/orders-types/src/domain/order.rs:39 | `str::trim`: both ends stripped of white space (contract of its parts in TrimStart, TrimEnd, TrimEmptyIffBlank) |
| Domain.TrimStart | crates/orders-types/src/domain/order.rs:39 | the result is a suffix of the input, every dropped character is white space, and the result does not start with white space |
| Domain.TrimEnd | crates/orders-types/src/domain/order.rs:39 | the result is a prefix of the input, every dropped character is white space, and the result does not end with white space |
| Domain.TrimEmptyIffBlank | crates/orders-types/src/domain/order.rs:39-41 | a name trims to empty exactly when it is all white space |
| Domain.Total | crates/orders-types/src/domain/order.rs:53-56 | the running sum of qty × unit price from the first item to the last, as the iterator's `sum` computes it |
| Domain.SumOfLines | crates/orders-types/src/domain/order.rs:53-56 | the sum over the lines of qty × unit price, taken head first; the reference TotalIsSumOfLines ties Total to |
| Domain.TotalConcat | crates/orders-types/src/domain/order.rs:53-56 | the total of two item lists joined is the sum of their totals |
| Domain.TotalIsSumOfLines | crates/orders-types/src/domain/order.rs:53-56 | the left-fold sum equals the sum of qty × unit price over the lines |
| Domain.NewOrder | crates/orders-types/src/domain/order.rs:34-68 | succeeds exactly when the name is not blank, the email contains '@', there are items and every qty is positive; otherwise returns the message of the first failing rule, in source order; on success the order is Pending, stores the given fields, its total is the sum of the lines, and created_at == updated_at == now |
| Domain.UpdateStatus | crates/orders-types/src/domain/order.rs:70-73 | sets the status and updated_at := now and changes no other field |
| Domain.UpdateStatusAdvances | crates/orders-types/src/domain/order.rs:70-73 | with a later clock, updated_at strictly increases and the order stays well formed (as the test at order.rs:139-154 expects) |
| Domain.NewOrderExample | crates/orders-types/src/domain/order.rs:81-97 | Alice's order of 2×500 and 1×250 is accepted, with total 1250 and status Pending |
| Domain.Hex | crates/orders-hex/src/application/order_service.rs:38 | the result is `width` characters long and each is a lower-case hexadecimal digit (0-9, a-f); computes the `width` lowest digits, most significant first, and HexInjective proves that distinct numbers below 16^width give distinct texts |
| Domain.IdText | crates/orders-hex/src/application/order_service.rs:38 | an identifier is displayed as 36 characters with hyphens at positions 8, 13, 18 and 23 |
| Domain.IdTextInjective | crates/orders-hex/src/application/order_service.rs:38 | distinct identifiers display differently, so a not-found message names exactly one order |
| Port.RepoErrorText | crates/orders-types/src/ports/order_repository.rs:8-9 | the display of `DbError(m)`: "db error: " followed by m |
| Port.CreateContract | crates/orders-types/src/ports/order_repository.rs:14 | `create` of an order whose id is new: the store gains exactly that order under its id, and the order is returned |
| Port.GetContract | crates/orders-types/src/ports/order_repository.rs:15 | `get`: the stored order for the id, or None |
| Port.Lists | crates/orders-types/src/ports/order_repository.rs:16 | `list`: every stored order exactly once, each as stored, in no particular order |
| Port.UpdateContract | crates/orders-types/src/ports/order_repository.rs:17-21 | `update_status`: a present order gets the new status and time, nothing else changes, and the updated order is returned; an absent id gives None and changes nothing |
| Port.DeleteContract | crates/orders-types/src/ports/order_repository.rs:22 | `delete`: true exactly when the id was present, and the id is absent afterwards |
| Port.CreateThenGet | crates/orders-types/src/ports/order_repository.rs:12-23 | after a create of a new id, get returns that order |
| Port.CreateOnEmptyListsOne | crates/orders-types/src/ports/order_repository.rs:12-23 | after one create on an empty store, list returns exactly that order |
| Port.ListsLength | crates/orders-types/src/ports/order_repository.rs:16 | a listing has as many entries as the store has orders |
| Port.DistinctIdsCount | crates/orders-types/src/ports/order_repository.rs:16 | a listing without repeated ids has as many distinct ids as entries |
| Port.AbsentIdentifier | crates/orders-types/src/ports/order_repository.rs:12-23 | for an unknown id, get gives None, update_status gives None and delete gives false, and none of them changes the store |
| Port.DeleteIsFinal | crates/orders-types/src/ports/order_repository.rs:22 | after a delete that returns true, the id was present, get gives None, a second delete gives false, and list omits the id |
| Port.UpdateThenGet | crates/orders-types/src/ports/order_repository.rs:17-21 | update_status of a present id returns the order with the new status and time, and get then returns it |
| Memory.InMemoryRepo.constructor | crates/orders-repo/src/memory.rs:13-19 | a new repository holds no orders |
| Memory.InMemoryRepo.Create | crates/orders-repo/src/memory.rs:29-32 | inserts or replaces the order under its id and returns it, meeting the port's create contract |
| Memory.InMemoryRepo.Get | crates/orders-repo/src/memory.rs:34-36 | returns the stored order for the id, or None, and never fails |
| Memory.InMemoryRepo.List | crates/orders-repo/src/memory.rs:38-40 | returns every stored order exactly once and never fails |
| Memory.InMemoryRepo.UpdateStatus | crates/orders-repo/src/memory.rs:42-52 | updates a present order in place and returns the updated copy; an absent id gives None and changes nothing |
| Memory.InMemoryRepo.Delete | crates/orders-repo/src/memory.rs:54-56 | removes the id and returns true exactly when it was present |
| Sqlite.StatusName | crates/orders-repo/src/sqlite.rs:98 | the text stored for a status: its `Debug` name (also bound by the UPDATE at sqlite.rs:137) |
| Sqlite.DecodeStatus | crates/orders-repo/src/sqlite.rs:29-36 | the status a stored name reads back as: the variant of that name, and Pending for any other text |
| Sqlite.StatusRoundTrip | crates/orders-repo/src/sqlite.rs:29-36 | decoding the stored Debug name of a status gives that status back |
| Sqlite.UnknownStatusReadsPending | crates/orders-repo/src/sqlite.rs:35 | a status text that names no variant reads back as Pending |
| Sqlite.IntoOrder | crates/orders-repo/src/sqlite.rs:28-56 | a row reads back exactly when all its columns parse, with every field taken from its column; otherwise it fails with the error of the first failing column, checked in the order items, created_at, updated_at, id |
| Sqlite.EncodeRow | crates/orders-repo/src/sqlite.rs:87-101 | the row the INSERT binds: the fields as they are, the status by name, the timestamps and the items encoded |
| Sqlite.RowRoundTrip | crates/orders-repo/src/sqlite.rs:87-106 | the row that create inserts for an order reads back as exactly that order |
| Sqlite.SqlCreate | crates/orders-repo/src/sqlite.rs:87-106 | the INSERT on the table: a failing statement or an id that is already a key is an error that leaves the table unchanged; otherwise the order's row is added and the order returned |
| Sqlite.SqlGet | crates/orders-repo/src/sqlite.rs:108-117 | the SELECT by id: the statement's error, None when no row has the id, or the row read back, which may fail |
| Sqlite.SqlListed | crates/orders-repo/src/sqlite.rs:119-130 | what the SELECT of all rows may return: the statement's error, every row read back once, or the error of an unreadable row |
| Sqlite.SetStatus | crates/orders-repo/src/sqlite.rs:137-141 | the columns the UPDATE rewrites: status by name and updated_at; the rest of the row is kept |
| Sqlite.SqlUpdate | crates/orders-repo/src/sqlite.rs:132-149 | the UPDATE then the re-read: the statement's error, None when no row is affected, or the rewritten row as get reads it |
| Sqlite.SqlDelete | crates/orders-repo/src/sqlite.rs:151-158 | the DELETE: the statement's error, or the table without the row and whether a row was affected |
| Sqlite.SqliteRepo.constructor | crates/orders-repo/src/sqlite.rs:60-82 | an opened repository keeps its URL and the rows the database holds |
| Sqlite.SqliteRepo.Create | crates/orders-repo/src/sqlite.rs:87-106 | inserts the encoded row of a new id and returns the order; a statement failure or a repeated id is a DbError and leaves the table unchanged |
| Sqlite.SqliteRepo.Get | crates/orders-repo/src/sqlite.rs:108-117 | returns None when no row has the id, the read-back order when the row parses, and the row's or the statement's error otherwise |
| Sqlite.SqliteRepo.List | crates/orders-repo/src/sqlite.rs:119-130 | returns every row read back once, or an unreadable row's error, or the statement's error |
| Sqlite.SqliteRepo.UpdateStatus | crates/orders-repo/src/sqlite.rs:132-149 | when no row is affected, returns None and changes nothing; otherwise rewrites the status name and updated_at of the row and returns it as get then reads it |
| Sqlite.SqliteRepo.Delete | crates/orders-repo/src/sqlite.rs:151-158 | removes the row and returns whether one was affected |
| Sqlite.AsStore | crates/orders-repo/src/sqlite.rs:28-56 | a readable table, read back, is a store keyed by id with exactly the table's ids |
| Sqlite.AsStoreAt | crates/orders-repo/src/sqlite.rs:28-56 | the order the store holds for an id is the row for that id read back |
| Sqlite.AsStoreInsert | crates/orders-repo/src/sqlite.rs:87-106 | inserting the row of an order with a new id keeps the table readable and adds exactly that order to the orders it holds |
| Sqlite.AsStoreRemove | crates/orders-repo/src/sqlite.rs:151-158 | deleting the row of an id keeps the table readable and removes exactly that order from the orders it holds |
| Sqlite.CreateConforms | crates/orders-repo/src/sqlite.rs:87-106 | on a readable table, create of a new id meets the port's create contract and get then returns the order; a repeated id is an error and changes nothing |
| Sqlite.GetConforms | crates/orders-repo/src/sqlite.rs:108-117 | on a readable table, get meets the port's get contract |
| Sqlite.UpdateConforms | crates/orders-repo/src/sqlite.rs:132-149 | on a readable table, update_status meets the port's contract and the table stays readable |
| Sqlite.DeleteConforms | crates/orders-repo/src/sqlite.rs:151-158 | on a readable table, delete meets the port's delete contract |
| Sqlite.ListConforms | crates/orders-repo/src/sqlite.rs:119-130 | on a readable table with a healthy connection, list succeeds and lists every order once |
| Errors.Display | crates/orders-hex/src/errors.rs:6-16 | the display texts: "Bad request: " or "Order not found: " followed by the message, and "Internal error" without the cause |
| Errors.DisplayTellsKindsApart | crates/orders-hex/src/errors.rs:6-16 | errors of different kinds never display alike |
| Errors.IntoResponse | crates/orders-hex/src/errors.rs:23-34 | status 400, 404 or 500 exactly for bad request, not found or internal; a JSON body with the message, or "internal error" for an internal error |
| Errors.InternalHidesCause | crates/orders-hex/src/errors.rs:28 | the response to an internal error does not depend on its cause |
| Errors.ClientErrorsCarryMessage | crates/orders-hex/src/errors.rs:26-27 | a 4xx response is given exactly for non-internal errors, and it carries their message |
| Repos.ServesFromMemory | crates/orders-repo/src/lib.rs:50-142 | create, get, list and update_status go to the in-memory store only in the memory-only build (lines 53-75 against 81-103 and 109-135) |
| Repos.DeletesFromMemory | crates/orders-repo/src/lib.rs:50-142 | delete goes to the in-memory store in the memory-only and the both-features builds (lines 73-75 and 138-141) |
| Repos.RepoCreate | crates/orders-repo/src/lib.rs:50-142 | `create` of the build: the in-memory insert or the SQLite INSERT, on the store the build routes it to |
| Repos.RepoGet | crates/orders-repo/src/lib.rs:50-142 | `get` of the build, from the store the build routes it to |
| Repos.RepoListed | crates/orders-repo/src/lib.rs:50-142 | `list` of the build, from the store the build routes it to |
| Repos.RepoUpdate | crates/orders-repo/src/lib.rs:50-142 | `update_status` of the build: in the memory-only build the in-place update of a present order, otherwise the SQLite UPDATE and re-read |
| Repos.RepoDelete | crates/orders-repo/src/lib.rs:50-142 | `delete` of the build: the in-memory removal in the memory-only and both-features builds, the SQLite DELETE otherwise |
| Repos.DatabaseUrl | crates/orders-repo/src/lib.rs:35 | the given URL, or "sqlite://orders.db" when none is given |
| Repos.Repo.constructor | crates/orders-repo/src/lib.rs:14-19 | a repo holds the stores it is given |
| Repos.Repo.Create | crates/orders-repo/src/lib.rs:53-55 | create goes to the in-memory store in the memory-only build and to SQLite otherwise |
| Repos.Repo.Get | crates/orders-repo/src/lib.rs:57-59 | get goes to the in-memory store in the memory-only build and to SQLite otherwise |
| Repos.Repo.List | crates/orders-repo/src/lib.rs:61-63 | list goes to the in-memory store in the memory-only build and to SQLite otherwise |
| Repos.Repo.UpdateStatus | crates/orders-repo/src/lib.rs:65-75 | update_status goes to the in-memory store in the memory-only build and to SQLite otherwise |
| Repos.Repo.Delete | crates/orders-repo/src/lib.rs:138-141 | delete goes to SQLite only in the SQLite-only build, and to the in-memory store in the other two |
| Repos.BuildRepo | crates/orders-repo/src/lib.rs:21-48 | the memory-only build ignores the URL and always succeeds with an empty store; the others open the given or default URL and fail exactly when opening fails, with that error |
| Repos.RepoCreateConforms | crates/orders-repo/src/lib.rs:50-142 | in every build, create of a new id meets the port's create contract |
| Repos.RepoGetConforms | crates/orders-repo/src/lib.rs:50-142 | in every build, get meets the port's get contract |
| Repos.RepoListConforms | crates/orders-repo/src/lib.rs:50-142 | in every build, list lists every order the build serves once |
| Repos.RepoUpdateConforms | crates/orders-repo/src/lib.rs:50-142 | in every build, update_status meets the port's contract |
| Repos.RepoDeleteConforms | crates/orders-repo/src/lib.rs:50-104 | in the two single-store builds, delete meets the port's delete contract |
| Repos.BothFeaturesDeleteFindsNothing | crates/orders-repo/src/lib.rs:138-141 | with both features, delete returns false and changes nothing, so for an order that get finds it breaks the port's delete contract |
| Service.FromRepoError | crates/orders-hex/src/application/order_service.rs:26 | a repository error becomes Internal carrying its display text |
| Service.OrderNotFound | crates/orders-hex/src/application/order_service.rs:38 | the not-found error for an id: NotFound("order " followed by the id's text) |
| Service.ServiceCreate | crates/orders-hex/src/application/order_service.rs:15-28 | `create_order`: a validation failure is BadRequest with the stores unchanged; otherwise the repository create, whose error becomes Internal, and the constructed order is returned |
| Service.ServiceGet | crates/orders-hex/src/application/order_service.rs:30-40 | `get_order`: the repository get, translated by FoundOrNotFound |
| Service.ServiceListed | crates/orders-hex/src/application/order_service.rs:42-47 | `list_orders`: a repository listing, translated by ListOutcome |
| Service.ServiceUpdate | crates/orders-hex/src/application/order_service.rs:49-59 | `update_status`: the repository update, its result translated by FoundOrNotFound |
| Service.ServiceDelete | crates/orders-hex/src/application/order_service.rs:61-72 | `delete_order`: the repository delete, its result translated by DeleteOutcome |
| Service.FoundOrNotFound | crates/orders-hex/src/application/order_service.rs:30-40 | an order found is returned, an absent one is NotFound, and a repository error is Internal |
| Service.ListOutcome | crates/orders-hex/src/application/order_service.rs:42-47 | list succeeds exactly when the repository does, with the same orders; a failure is Internal |
| Service.DeleteOutcome | crates/orders-hex/src/application/order_service.rs:61-72 | success exactly when the repository deleted; NotFound exactly when it returned false; a repository error is Internal |
| Service.OrderService.constructor | crates/orders-hex/src/application/order_service.rs:11-13 | the service holds the repository it is given |
| Service.OrderService.CreateOrder | crates/orders-hex/src/application/order_service.rs:15-28 | creates as the service semantics say: a validation failure is BadRequest without touching the stores, a repository error is Internal, and otherwise the constructed order is returned |
| Service.OrderService.GetOrder | crates/orders-hex/src/application/order_service.rs:30-40 | returns the repository's order, or NotFound, or Internal |
| Service.OrderService.ListOrders | crates/orders-hex/src/application/order_service.rs:42-47 | returns the repository's listing, or Internal |
| Service.OrderService.UpdateStatus | crates/orders-hex/src/application/order_service.rs:49-59 | updates through the repository and returns the updated order, or NotFound, or Internal |
| Service.OrderService.DeleteOrder | crates/orders-hex/src/application/order_service.rs:61-72 | deletes through the repository; not deleted is NotFound and a repository error is Internal |
| Service.InvalidInputIsBadRequest | crates/orders-hex/src/application/order_service.rs:21-22 | invalid input gives BadRequest with the first failing rule's message and leaves the stores unchanged (test at order_service.rs:124-130) |
| Service.CreateThenGet | crates/orders-hex/src/application/order_service.rs:15-40 | in every build, creating a valid order with a new id succeeds and get_order then returns exactly the created order |
| Service.CreateThenGetExample | crates/orders-hex/src/application/order_service.rs:80-97 | Alice's order of two widgets at 500 totals 1000, and get_order returns it |
| Service.UnknownIdIsNotFound | crates/orders-hex/src/application/order_service.rs:132-146 | an unknown id is NotFound for get_order, update_status and delete_order, and none of them changes the stores |
| Service.UpdateThenGet | crates/orders-hex/src/application/order_service.rs:49-59 | after a successful update_status, the order has the new status and time and get_order returns it (test at order_service.rs:99-122) |
| Service.DeleteIsFinal | crates/orders-hex/src/application/order_service.rs:61-72 | in the single-store builds, after a successful delete_order, get_order and a second delete_order are NotFound and a listing omits the id (test at order_service.rs:99-122) |
| Service.BothFeaturesCannotDelete | crates/orders-repo/src/lib.rs:138-141 | with both features, an order created through the service cannot be deleted: delete_order is NotFound, the stores are unchanged, and get_order still returns it |
| Service.BothFeaturesStillListed | crates/orders-repo/src/lib.rs:138-141 | with both features, after a create and the delete that finds nothing, list_orders succeeds and still lists the created order |
| Service.RepositoryErrorsAreInternal | crates/orders-hex/src/application/order_service.rs:26 | a failing statement reaches the caller of every operation as Internal carrying "db error: " and the reason (delete only in the SQLite-only build); creating an id that already names a row is Internal carrying the driver's text, with the stores unchanged |
| Service.ListIsNeverNotFound | crates/orders-hex/src/application/order_service.rs:42-47 | list_orders fails only with Internal |
| Service.MemoryBuildNeverFails | crates/orders-repo/src/memory.rs:29-56 | in the memory-only build no operation reports Internal: list_orders always succeeds, create_order fails only with BadRequest, and get_order, update_status and delete_order fail only with NotFound |

## Left out

- HTTP transport, routing, the client crate, configuration and `main` are outside the core and are not part of this model.
- Concurrency: the in-memory map is a concurrent `DashMap` behind an `Arc` and every call is `async`. The model runs one call at a time on a map that only the repository owns.
- The JSON, RFC 3339 and UUID codecs are abstracted as `Column`. A column decodes to the value that was encoded, or fails with a message. Non-canonical text that the parser would still accept is modelled as the canonical encoding.
- Repeated-id insert: `Sqlite.SqliteRepo.Create` fails for an id that is already a key of the table, with the error text `keyTaken`. That text is an input, because it is the driver's display of its error and the driver is not part of this model. The migration that makes `id` the primary key is not part of this model either.
- `Sqlite.SqliteRepo.UpdateStatus`: one `io` governs both the UPDATE and the SELECT that re-reads the row. A connection that fails between the two statements is not modelled.
- `Sqlite.SqliteRepo.List`: when several rows are unreadable, the source reports the first in SQLite's scan order. The model allows the error of any unreadable row, because it leaves row order open.
- `Memory.InMemoryRepo.List` and `Sqlite.SqliteRepo.List`: the listing order is left open, as it is in the source (the map's iteration order and the table's scan order).
- `Domain.NewOrder`: `total_cents` is an unbounded integer. The source's `i64` overflow (a panic in debug builds, wrap-around in release builds) is not modelled. `qty` and `unit_price_cents` are bounded to `u32` and `i64` by their types.
- `Domain.UpdateStatus`: modelled as a function on values. The in-place update in the source goes through the map entry, so `Memory.InMemoryRepo.UpdateStatus` writes the new value back to the map.
- `Errors.IntoResponse`: the fallback body `{"error":"internal serialization"}` is not modelled, because serializing the one-field body cannot fail. The body is modelled as the record `ErrorBody`, not as its JSON text.
- `AppError::Internal` wraps an `anyhow::Error`. The model keeps only its text.
- Opening the database (creating the directory, connecting, running the migration) is abstracted as the `database` parameter of `Repos.BuildRepo`.
- Missing features: the build with neither feature does not compile in the source and is not modelled.
- The port is a Rust trait. It is stated as contract predicates in `Port`, and each adapter is proved against them.
- `Service.OrderService`: the source's service is generic over any `OrderRepository` (order_service.rs:6-13). The model fixes its repository to `Repos.Repo`, the type `main` builds it with (main.rs:15-16), so the end-to-end lemmas in `Service` cover the three builds and not an arbitrary repository. The unit tests build `OrderService<InMemoryRepo>` directly (order_service.rs:82, 101, 126, 134); the `MemoryOnly` build sends every call to that same in-memory repository, so it stands for them.
