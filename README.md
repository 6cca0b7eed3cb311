# Inventory ledger engine — a Dafny model

This project models the service layer of an inventory backend. Companies own
warehouses and products. A stock table holds one quantity per (warehouse,
product) pair. An append-only ledger of IN/OUT movements records every change
to those quantities. Two services change stock:

- `StockService` has `getStock`, `stockIn`, `stockOut` and `transfer`.
- `MovementService` has `getAll`, `createIn` and `createOut`. `createIn` and
  `createOut` are a second receive/issue pair that also records the caller's
  note.

The model has three abstract stores, held by one class `Database.Inventory`:

- the catalog: two read-only maps from warehouse id and product id to the
  owning company id;
- the stock table: a `map<Pair, nat>`;
- the ledger: a `seq<Movement>`.

The mutating operations are imperative methods on that object. Each is one
transaction. Every check comes before the first write, so a domain error
returns `Err` and leaves the stock table and the ledger unchanged. A success
commits the row update and one movement (two for a transfer). Each method
keeps the object invariant `Valid()`:

- movement ids are 1, 2, 3, … in insertion order;
- every recorded quantity is positive;
- every pair's quantity equals the sum of its IN quantities minus the sum of
  its OUT quantities (`Ledger.Balanced`);
- no stock row joins a warehouse and a product of different companies.

The range type `nat` makes every stock quantity non-negative: each write to
the table is checked against it, and the issue guards discharge the check.
The two read operations are functions and change nothing.

Modules:

- `Entities`: the records and the error messages;
- `Ledger`: stock arithmetic, ledger sums, the listing, and the lemmas about
  them;
- `Database`: the stores;
- `StockService` and `MovementService`: one module per service;
- `Scenarios`: clients that run the operations in sequence and state what each
  step yields.

Where the entity declarations and the services disagree, the model follows the
services:

- `Product.ts` declares no `company` relation, but the services read
  `product.company.id`.
- `Movement.ts` has only `product` and `date`, but the services write
  `warehouse` and `note`, and `getAll` filters on `movement.warehouseId` and
  sorts by `movement.createdAt`.

The model uses a warehouse id, a product id, an optional note, and company ids
taken from the catalog.

The services differ from each other in two places, and the model follows each as written:

- `stockIn`, `stockOut` and `transfer` accept a note but do not store it. Their
  movements carry `None`.
- `stockOut` checks ownership before sufficiency. `createOut` checks
  sufficiency before ownership.

TypeScript's `if (productId)` treats an absent id and the id 0 alike. The
filters are therefore `Option<int>`, and neither `None` nor `Some(0)`
restricts (`Entities.Restricts`). Each error message the services throw is a
constructor of `Entities.Error`, and `Error.Message()` gives its text.

## Model

| member | source | states |
|---|---|---|
| `Ledger.Deposit` | src/services/stock.service.ts:62-72 | receiving creates the pair's row if missing (keys grow by exactly that pair), and raises the pair's quantity, taken as 0 when absent, by `q` while every other pair keeps its quantity |
| `Ledger.Withdraw` | src/services/stock.service.ts:104-105 | issuing from an existing row that holds at least `q` lowers that pair by `q`, creates or drops no row, and leaves every other pair alone |
| `Ledger.SumOfAppend` | src/services/stock.service.ts:75-81 | appending a movement adds its quantity to the IN or OUT sum of its own pair and type, and adds nothing to any other sum |
| `Ledger.NetAppend` | src/services/movement.service.ts:56-63 | appending a movement moves the ledger net of its pair by +quantity (IN) or −quantity (OUT) and leaves every other pair's net unchanged |
| `Ledger.BalancedAfterDeposit` | src/services/stock.service.ts:67-81 | if stock equals IN minus OUT for every pair, it still does after a lazy-create-and-add matched by one IN movement |
| `Ledger.BalancedAfterWithdraw` | src/services/stock.service.ts:104-114 | if stock equals IN minus OUT for every pair, it still does after a covered subtraction matched by one OUT movement |
| `Ledger.BalancedAfterTransfer` | src/services/stock.service.ts:152-182 | a withdrawal at the source, a deposit at the destination and the movements OUT then IN keep stock equal to IN minus OUT for every pair |
| `Ledger.TransferKeepsTotal` | src/services/stock.service.ts:147-167 | over any list of distinct warehouses, a transfer of `q` between two different warehouses changes the product's total by −q if only the source is listed, +q if only the destination is, and not at all if both or neither are |
| `Ledger.SelectSound` | src/services/movement.service.ts:29-33 | every listed movement is a ledger entry that passes the warehouse and product filters |
| `Ledger.SelectComplete` | src/services/movement.service.ts:29-35 | every ledger entry that passes the filters is listed; an absent or zero filter excludes nothing |
| `Ledger.SelectNewestFirst` | src/services/movement.service.ts:27 | when ids grow with insertion, the listing's ids strictly decrease: newest first |
| `Database.Inventory.constructor` | src/services/stock.service.ts:9-19 | the stores start with the given catalog, an empty stock table and an empty ledger, which satisfy the invariant |
| `Database.Inventory.Record` | src/services/stock.service.ts:75-81 | inserting a movement appends exactly it, with the next generated id, and leaves stock alone |
| `StockService.GetStock` | src/services/stock.service.ts:22-37 | fails with "Warehouse not found" exactly when the warehouse is unknown; otherwise returns exactly the stock rows of that warehouse, restricted to the product when a non-zero product id is given, with their quantities; it changes nothing (the filter itself; the substantive property of the read path is the ledger agreement in the next row) |
| `StockService.GetStockAgreesWithLedger` | src/services/stock.service.ts:29-36 | the substantive property of the read path: in a consistent state every quantity the query reports equals IN minus OUT for its pair in the ledger, so current stock is what the ledger reconstructs |
| `StockService.StockIn` | src/services/stock.service.ts:41-85 | errors in order: quantity ≤ 0, warehouse not found, product not found, different companies, each leaving stock and ledger unchanged; success exactly when all checks pass; then the stock is `Deposit` of the old stock, the returned row holds the new quantity, exactly one IN movement (quantity, warehouse, product, no note) is appended, and the invariant is kept |
| `StockService.StockOut` | src/services/stock.service.ts:88-118 | errors in order: quantity ≤ 0, "Stock record not found" when the pair has no row, different companies, then "Insufficient stock", each leaving state unchanged; on success the stock is `Withdraw` of the old stock (quantity old − q ≥ 0), exactly one OUT movement with no note is appended, and the invariant is kept |
| `StockService.Transfer` | src/services/stock.service.ts:121-186 | quantity ≤ 0 and same warehouse are rejected first, then missing warehouse, missing product, any mismatch among the three company ids, and a missing or insufficient source row ("Insufficient stock in source warehouse"), each leaving state unchanged; on success the source loses q, the destination (created at 0 if absent) gains q, exactly OUT(from) then IN(to) are appended, and the invariant is kept |
| `MovementService.GetAll` | src/services/movement.service.ts:22-36 | a movement is listed exactly when it is in the ledger and passes the filters; in a well-formed ledger the listing is newest first; it changes nothing |
| `MovementService.CreateIn` | src/services/movement.service.ts:39-67 | errors in order: quantity ≤ 0, "Warehouse or product not found", "Different companies", each leaving state unchanged; on success the stock is `Deposit` of the old stock and exactly one IN movement carrying the note is appended and returned; the invariant is kept |
| `MovementService.CreateOut` | src/services/movement.service.ts:70-98 | errors in order: quantity ≤ 0, "Stock not found", "Insufficient stock", then "Different companies", each leaving state unchanged; on success the stock is `Withdraw` of the old stock and exactly one OUT movement carrying the note is appended and returned; the invariant is kept |

## Left out

- HTTP controllers, routing, request parsing, status-code mapping and the error middleware (src/controllers/, src/app.ts, src/server.ts, src/middlewares/errorHandler.ts): request plumbing outside the ledger.
- The TypeORM data source, repositories, query builders and `AppDataSource.transaction` (src/config/datasource.ts): foreign library calls. They are replaced by the maps and the sequence above. The transaction is modelled as "all checks before any write", which is how both services are written. Storage failures (lost connections, constraint violations) and their rollback are not modelled.
- Concurrent transactions and their isolation: the model is sequential.
- `ProductService` and the company, warehouse and product CRUD: the catalog is a constant of the model.
- Entity attributes the services do not use (names, SKU, decimal price, status, addresses) and the entities' own ids for stock rows.
- Creation timestamps: `getAll` sorts by `createdAt`, and the model sorts by the generated movement id instead. Ties between the movements of one transaction, which share a timestamp in the database, are ordered by id here.
- Column widths: the `quantity` columns of Stock.ts and Movement.ts and the generated ids are 32-bit `integer` columns in the store, so a `stockIn`, `createIn` or `transfer` that takes a quantity past 2147483647 fails at `manager.save` and rolls back. Here `int` and `nat` are unbounded and that save succeeds; the `r.Ok? <==> …` clauses of `StockService.StockIn`, `StockService.Transfer` and `MovementService.CreateIn` therefore claim success where the store would report a generic failure.
- JavaScript number semantics: quantities and ids are integers. Fractional, `NaN` or string-typed quantities coming from a request body are not modelled.
- The success messages ("Stock added successfully" and the others) and the related entity objects returned with a row: the model returns the row's ids and quantity, the created movement, or the unit value.
- `StockService.GetStock`: returns the matching rows as a map keyed by pair, not as a list, because the query fixes no order.
- `StockService.StockOut` and `MovementService.CreateOut`: a stock row whose warehouse or product is missing from the catalog counts as a company mismatch. Such a row cannot arise here: the catalog is constant, and the invariant rules out cross-company rows.
