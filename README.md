# Shop ERP inventory ledger, modelled in Dafny

The shop's backend keeps per-SKU stock in an `inventory` table, an append-only log of
stock movements, inventory batches with expiry dates and stock alerts, and the catalog
that feeds them (categories, products, SKUs). Its Express controllers are SQL statements
inside request handlers; this project states the same behaviour as operations on
in-memory tables and proves what they guarantee.

- `types.dfy` (`Types`): table rows, request bodies (an absent field is `None`), the
  failures a handler answers with and their HTTP status.
- `requests.dfy` (`Requests`): JavaScript truthiness (`!x`), the `x || default` of the
  INSERTs and SQL COALESCE of the UPDATEs.
- `stock_rules.dfy` (`StockRules`): movement validation, the signed delta, the
  stock-status and batch-status CASE expressions and the alert rules.
- `catalog_rows.dfy` (`CatalogRows`): the SKU and inventory rows a create inserts, with
  their defaults, and the partial updates of SKUs, products and categories.
- `ledger.dfy` (`Ledger`): the net change the movement log records for a SKU, and a
  replay of movements one at a time.
- `schema.dfy` (`Schema`): the integrity the tables keep (keys, unique constraints,
  serial ids, timestamps) and the reconciliation of each on-hand quantity with the
  movement log, with one lemma per kind of write showing the write keeps it.
- `queries.dfy` (`Queries`): lookup by id and the listings: filters, inner JOINs,
  `ORDER BY ... DESC LIMIT`, `ORDER BY ... ASC` and the computed columns.
- `store.dfy` (`Database`): the class `Store` holding every table as a field. Each
  handler is one method that either makes all of its writes or, when it fails, leaves
  the store unchanged. Its invariant `Valid()` holds the schema integrity and, through ghost
  fields, the reconciliation: a SKU's quantity is the last value written to it directly
  (at creation, or by an inventory override) plus the signed deltas of its movements
  logged since.

Ids, quantities and prices (cents) are integers; dates are day numbers; `CURRENT_TIMESTAMP`
is a counter `clock` that ticks once per ledger write (a movement, an inventory override,
a batch, an alert resolution), the ledger writes that stamp created_at or resolved_at;
the created_at of SKU and product rows is not modelled; "today" is a parameter.

## Model

| member | source | states |
|---|---|---|
| Types.HttpStatus | backend/controllers/inventoryController.js:302-306 | a failure is reported as 404 exactly when not found, 500 exactly when internal, 400 otherwise |
| Requests.OrDefault | backend/controllers/skuController.js:98 | `x \|\| d` keeps a truthy value and replaces an absent or zero one by the default |
| Requests.OrNull | backend/controllers/skuController.js:98 | `x \|\| null` keeps a truthy number and stores 0 or absent as NULL |
| Requests.OrNullText | backend/controllers/skuController.js:89 | `x \|\| null` keeps a non-empty string and stores "" or absent as NULL |
| Requests.OrZeroIsCoalesce | backend/controllers/skuController.js:89 | with default 0, `x \|\| 0` stores the same as COALESCE(x, 0) |
| Requests.ExplicitZeroIsReplaced | backend/controllers/skuController.js:98 | with any other default, an explicit 0 is replaced by `\|\|` but kept by COALESCE |
| CatalogRows.ZeroPricesAccepted | backend/controllers/skuController.js:76-80 | createSKU accepts a cost and selling price of 0 |
| CatalogRows.NewSku | backend/controllers/skuController.js:85-90 | the inserted SKU has the given id, product, code and prices, is active, has tax `\|\| 0` and variant `\|\| null` (absent or "" stored as NULL) |
| CatalogRows.NewInventory | backend/controllers/skuController.js:95-99 | the new inventory row: quantity `\|\| 0`, minimum `\|\| 10` (so 0 becomes 10), maximum `\|\| null` |
| CatalogRows.PatchSku | backend/controllers/skuController.js:129-140 | every supplied column is overwritten, every absent one kept; id and product never change |
| CatalogRows.PatchSkuIdempotent | backend/controllers/skuController.js:129-140 | applying a SKU patch twice equals applying it once; an empty patch changes nothing |
| CatalogRows.PatchProduct | backend/controllers/productController.js:179-187 | name and description are kept when absent; category_id is always overwritten, NULL unless truthy |
| CatalogRows.OmittedCategoryClears | backend/controllers/productController.js:183-186 | an update without category_id detaches the product from its category |
| CatalogRows.PatchCategory | backend/controllers/categoryController.js:74-82 | name and description are kept when absent; parent_id is always overwritten, NULL unless truthy |
| CatalogRows.SelfParentAllowed | backend/controllers/categoryController.js:78-81 | nothing stops a category from being made its own parent |
| StockRules.ParseMovementKind | backend/controllers/inventoryController.js:121-125 | a type is accepted exactly when it is IN, OUT or ADJUSTMENT, and parses to the kind named by it |
| StockRules.KindNameRoundTrip | backend/controllers/inventoryController.js:121-125 | parsing a kind's name gives back the kind |
| StockRules.ValidateMovement | backend/controllers/inventoryController.js:115-125 | missing or falsy sku_id, movement_type or quantity is refused first; then an unknown type; otherwise the request is accepted with its kind |
| StockRules.ZeroQuantityRefused | backend/controllers/inventoryController.js:115-119 | a quantity of 0 is refused as missing |
| StockRules.NegativeQuantityAccepted | backend/controllers/inventoryController.js:115-125 | a negative quantity passes validation |
| StockRules.SignedDelta | backend/controllers/inventoryController.js:138 | OUT subtracts the quantity; IN and ADJUSTMENT add it |
| StockRules.StockStatusOf | backend/controllers/inventoryController.js:15-19 | OUT_OF_STOCK exactly at 0, LOW_STOCK exactly when nonzero and at or below the minimum, IN_STOCK exactly otherwise: total and exclusive |
| StockRules.PatchInventory | backend/controllers/inventoryController.js:66-74 | each supplied level (0 included) is written, each absent one kept |
| StockRules.LevelAlertKind | backend/controllers/inventoryController.js:152-163 | an alert exactly when quantity is at or below the minimum; OUT_OF_STOCK exactly when it is 0, else LOW_STOCK |
| StockRules.AlertAgreesWithStatus | backend/controllers/inventoryController.js:15-19 | the alert rule agrees with the displayed status, except at 0 under a negative minimum |
| StockRules.OutOfStockWithoutAlert | backend/controllers/inventoryController.js:15-19 | quantity 0 with minimum -1 shows OUT_OF_STOCK yet raises no alert |
| StockRules.BatchStatusOf | backend/controllers/inventoryController.js:223-227 | EXPIRED exactly before today, EXPIRING_SOON exactly within 30 days, VALID exactly otherwise or without expiry |
| StockRules.BatchStatusMonotone | backend/controllers/inventoryController.js:223-227 | as days pass, a batch's status only moves from VALID towards EXPIRED |
| StockRules.ExpiryAlertMatchesStatus | backend/controllers/inventoryController.js:282-287 | createBatch alerts exactly for the batches the listing shows as EXPIRING_SOON or EXPIRED that day |
| Ledger.NetDeltaConcat | backend/controllers/inventoryController.js:137-145 | the net change of two stretches of the log is the sum of theirs |
| Ledger.NetDeltaAppend | backend/controllers/inventoryController.js:137-145 | logging a movement changes its own SKU's net by its delta and no other's |
| Ledger.NetDeltaIgnoresOthers | backend/controllers/inventoryController.js:137-145 | movements of other SKUs never contribute |
| Ledger.Apply | backend/controllers/inventoryController.js:139-145 | one movement moves its SKU's quantity by its delta and leaves every other row and the levels alone |
| Ledger.ApplyAllNet | backend/controllers/inventoryController.js:137-145 | replaying movements one by one ends at the starting quantity plus the sum of the SKU's signed deltas, levels unchanged |
| Schema.MovementsLogged | backend/controllers/inventoryController.js:130-135 | logging a movement with the next id, stamped now, keeps ids below the serial and ids and created_at strictly increasing along the log |
| Schema.AlertsRaised | backend/controllers/inventoryController.js:154-162 | appending an alert with the next id, stamped now, keeps ids below the serial and ids and created_at strictly increasing |
| Schema.AlertsResolved | backend/controllers/inventoryController.js:348-355 | resolving alerts in place keeps ids, stamps and their strict order |
| Schema.BatchRecorded | backend/controllers/inventoryController.js:267-279 | inserting a batch whose number is new for its SKU keeps batch numbers unique per SKU |
| Schema.MovementApplied | backend/controllers/inventoryController.js:137-145 | applying a movement's delta while logging it keeps every SKU reconciled with the log |
| Schema.QuantityWritten | backend/controllers/inventoryController.js:66-74 | writing a quantity directly restarts that SKU's reconciliation and keeps the others |
| Schema.StockRewritten | backend/controllers/inventoryController.js:139-145 | rewriting an existing inventory row keeps the SKU table's integrity |
| Schema.SkuInserted | backend/controllers/skuController.js:85-99 | inserting a SKU with an unused code and its inventory row under the next id keeps keys and unique codes |
| Schema.SkuReplaced | backend/controllers/skuController.js:129-140 | replacing a SKU by one whose code no other SKU holds keeps the table's integrity |
| Schema.SkuRemoved | backend/controllers/skuController.js:158-161 | deleting a SKU keeps the table's integrity |
| Schema.ProductAdded | backend/controllers/productController.js:97-102 | the next product id is unused, and inserting under it keeps the product keys |
| Schema.ProductReplaced | backend/controllers/productController.js:179-187 | replacing an existing product under its id keeps the product keys |
| Schema.ProductRemoved | backend/controllers/productController.js:205-208 | deleting a product keeps the product keys |
| Schema.CategoryDistinct | backend/controllers/categoryController.js:74-82 | a category row shares neither id nor name with any other row |
| Schema.CategoryAppended | backend/controllers/categoryController.js:51-56 | appending a category with an unused name under the next id keeps ids and names unique |
| Schema.CategoryReplaced | backend/controllers/categoryController.js:74-82 | replacing a row by one with the same id and a name no other row holds keeps them unique |
| Schema.CategoryRemoved | backend/controllers/categoryController.js:100-103 | removing a row keeps them unique |
| Queries.Find | backend/controllers/inventoryController.js:348-358 | finds a row with the given id, or reports that none has it |
| Queries.Select | backend/controllers/inventoryController.js:197-201 | keeps exactly the rows that satisfy the filter, each as many times as in the table |
| Queries.Newest | backend/controllers/inventoryController.js:203 | at most `limit` rows, each from the log and satisfying the filter |
| Queries.NewestComplete | backend/controllers/inventoryController.js:333 | without a limit in the way every row satisfying the filter is returned |
| Queries.NewestSorted | backend/controllers/inventoryController.js:203 | on a chronological log the result is newest first |
| Queries.NewestFull | backend/controllers/inventoryController.js:203 | a row satisfying the filter is left out only when the result is full of newer rows |
| Queries.NewestOrder | backend/controllers/inventoryController.js:203 | both ordering facts together |
| Queries.ListMovements | backend/controllers/inventoryController.js:181-203 | the movements listed are at most 100, joined and filtered by SKU, newest first, and exactly the newest 100 such |
| Queries.ListAlerts | backend/controllers/inventoryController.js:311-333 | exactly the joined alerts matching the is_resolved filter, newest first |
| Queries.Insert | backend/controllers/inventoryController.js:239 | inserting a row adds exactly that row |
| Queries.InsertSorted | backend/controllers/inventoryController.js:239 | inserting into a sorted listing keeps it sorted |
| Queries.SortBy | backend/controllers/inventoryController.js:239 | sorting is a permutation of the rows |
| Queries.SortBySorted | backend/controllers/inventoryController.js:239 | under a total preorder the result is sorted |
| Queries.WithStatus | backend/controllers/inventoryController.js:219-227 | one row per batch, in table order, with its status on the given day |
| Queries.ExpiryFirstTotalPreorder | backend/controllers/inventoryController.js:239 | expiry ascending with NULL last is a total preorder |
| Queries.ListBatches | backend/controllers/inventoryController.js:214-239 | each joined batch matching the SKU filter, as many times as in the table and no other, with its status, by expiry ascending |
| Queries.WithCounts | backend/controllers/categoryController.js:8-10 | each category is listed once with the number of products filed under it |
| Queries.NameLeTotal | backend/controllers/categoryController.js:13 | any two names are ordered one way or the other |
| Queries.NameLeTransitive | backend/controllers/categoryController.js:13 | the name order is transitive |
| Queries.ByNameTotalPreorder | backend/controllers/categoryController.js:13 | ordering rows by name is a total preorder |
| Queries.ListCategories | backend/controllers/categoryController.js:7-14 | every category exactly once with its product_count, ordered by name |
| Database.LevelAlerts | backend/controllers/inventoryController.js:152-163 | one unresolved alert exactly when the new quantity is at or below the minimum, OUT_OF_STOCK exactly at 0, never EXPIRING_SOON |
| Database.ExpiryAlerts | backend/controllers/inventoryController.js:282-297 | one unresolved EXPIRING_SOON alert naming the batch, with no resolved_at, exactly when its expiry is due |
| Database.Resolved | backend/controllers/inventoryController.js:349-351 | the alert is resolved now, its other columns kept |
| Database.EntrySkusAt | backend/controllers/productController.js:108-121 | after staging, id `first + j` holds entry j's SKU row and every other row is as it was |
| Database.EntryInventoriesAt | backend/controllers/productController.js:124-133 | after staging, id `first + j` holds entry j's inventory row with defaults and every other row is as it was |
| Database.EntryRowsGrow | backend/controllers/productController.js:108-134 | one more loop iteration adds exactly one SKU row, one inventory row and one ledger baseline (its initial quantity, counted from the current log length) under the next id |
| Database.EntryBaselinesAt | backend/controllers/productController.js:124-133 | after staging, SKU `first + j` has entry j's `initial_quantity \|\| 0` as its baseline, counted from the given log length; every other SKU keeps its baseline |
| Database.CodeClash | backend/controllers/productController.js:109-121 | an entry whose code is already among the rows so far means the request's codes were not fresh |
| Database.CodesStayFresh | backend/controllers/productController.js:109-121 | an entry whose code is not among the rows so far extends the fresh prefix |
| Database.StageEntries | backend/controllers/productController.js:106-135 | the loop succeeds exactly when every code is new and distinct, and then stages exactly one SKU and one inventory row per entry, in order, keeping integrity and reconciliation, with each new SKU's baseline its initial quantity counted from the current log length and every other SKU's baseline kept |
| Database.Store.LogsChronological | backend/controllers/inventoryController.js:203 | the movement and alert logs are in created_at order, so the listings' ordering facts apply |
| Database.Store.LogIdsIncrease | backend/controllers/inventoryController.js:130-135 | no two movements and no two alerts share an id: ids strictly increase along each log |
| Database.Store.QuantityReconciled | backend/controllers/inventoryController.js:137-145 | each SKU's quantity equals its last direct write plus the net of its later movements, the same as replaying them one by one |
| Database.Store.AddStockMovement | backend/controllers/inventoryController.js:103-178 | succeeds exactly for a valid request on a SKU with an inventory row; then logs one movement, moves only that SKU's quantity by the signed delta and appends the level alert, advancing the movement and alert serials and the clock, and leaving every reconciliation baseline as it was, so the new movement is counted in the SKU's reconciliation; every failure leaves the store unchanged with its status |
| Database.Store.RecordMovement | backend/controllers/inventoryController.js:127-165 | the transaction's writes: the movement logged, the row updated, the alerts appended, integrity and reconciliation kept with every SKU's baseline and its starting log position unchanged |
| Database.Store.UpdateInventory | backend/controllers/inventoryController.js:61-100 | unknown SKU is 404 with nothing changed; otherwise only the supplied levels change, no movement is logged, the level alert rule applies and the SKU's reconciliation restarts from the written quantity at the current log length |
| Database.Store.RecordLevels | backend/controllers/inventoryController.js:66-93 | the override's writes keep integrity; the SKU's baseline becomes the written quantity counted from the current log length, every other SKU's is unchanged |
| Database.Store.CreateBatch | backend/controllers/inventoryController.js:250-308 | missing fields and a duplicate number are 400 with nothing changed; otherwise one batch is inserted, quantities are untouched and the expiry alert is appended when due; reconciliation baselines untouched |
| Database.Store.RecordBatch | backend/controllers/inventoryController.js:267-298 | the batch and its alerts are appended with integrity kept; reconciliation baselines untouched |
| Database.Store.ResolveStockAlert | backend/controllers/inventoryController.js:344-366 | unknown id is 404 with nothing changed; otherwise the alert with the id (ids are unique) is resolved now, already resolved or not, and nothing else changes, reconciliation baselines included |
| Database.Store.CreateSku | backend/controllers/skuController.js:61-114 | missing fields are 400, a taken code is 400 with neither row written; otherwise exactly one SKU and one inventory row with the defaults are inserted under a fresh id, whose reconciliation starts from its initial quantity at the current log length |
| Database.Store.InsertSku | backend/controllers/skuController.js:82-101 | the two inserts under the next id keep integrity and reconciliation; the new SKU's baseline is its quantity counted from the current log length, every other baseline unchanged |
| Database.Store.UpdateSku | backend/controllers/skuController.js:117-151 | unknown id is 404; a code another SKU holds is 500; otherwise only the supplied columns change and inventory is untouched; reconciliation baselines untouched |
| Database.Store.DeleteSku | backend/controllers/skuController.js:154-172 | an existing SKU is removed, else 404 with nothing changed; reconciliation baselines untouched |
| Database.Store.CreateProduct | backend/controllers/productController.js:85-171 | a missing name is 400 before any write; a taken or repeated SKU code is 500 with every write rolled back; otherwise the product and one SKU and one inventory row per entry, in order, under fresh ids, each new SKU's reconciliation starting from its initial quantity at the current log length |
| Database.Store.CommitProduct | backend/controllers/productController.js:94-137 | the committed writes: the product under the next id and the staged rows, with integrity kept and the staged baselines installed |
| Database.Store.UpdateProduct | backend/controllers/productController.js:174-198 | unknown id is 404 with nothing changed; otherwise the product is patched under its id; reconciliation baselines untouched |
| Database.Store.DeleteProduct | backend/controllers/productController.js:201-219 | an existing product is removed, else 404 with nothing changed; reconciliation baselines untouched |
| Database.Store.CreateCategory | backend/controllers/categoryController.js:43-66 | a missing name is 400, a taken name is 400 with the existing row intact; otherwise one category is appended under the next id; reconciliation baselines untouched |
| Database.Store.UpdateCategory | backend/controllers/categoryController.js:69-93 | unknown id is 404; a name another category holds is 500; both with nothing changed; otherwise only that row is patched and no serial moves; reconciliation baselines untouched |
| Database.Store.DeleteCategory | backend/controllers/categoryController.js:96-114 | the category with that id is removed, else 404 with nothing changed; reconciliation baselines untouched |

## Left out

- HTTP and Express wiring, the connection pool, request-body string coercion and
  concurrent writers: each handler is one atomic method on integer-typed requests.
- Foreign keys and cascades: the table definitions are not part of this model, so no
  insert checks that the referenced product, SKU or category exists, and a delete
  removes only its own row (the inventory row of a deleted SKU stays).
- The unique constraint behind `ON CONFLICT DO NOTHING` in updateInventory is unknown;
  its alert insert is modelled as an unconditional append.
- SERIAL sequences: a failed transaction leaves the id counters as they were; in
  PostgreSQL the sequence values it drew are lost.
- Alert messages are kept as the values they interpolate, not as formatted text.
- Timestamps: `created_at`/`resolved_at` come from a counter that ticks once per ledger
  write; `updated_at` columns and the `created_at` of SKU and product rows (which only
  order the SKU and product listings) are not modelled. createBatch compares the expiry with a
  day number passed in, where the code uses the time of day of `new Date()`.
- The batch status of a batch without an expiry date is VALID, as the CASE expression
  falls through to ELSE; it is not left undefined.
- Name ordering compares characters by code point; database collation is not modelled.
- The display columns the listings JOIN in (product_name, sku_code, category_name,
  current_quantity) and the JSON aggregation of the product listings; the listings keep
  the JOINs' effect of hiding orphaned rows.
- getAllInventory's ordering, getInventoryBySKU, getAllSKUs, getSKUById,
  getAllProducts, getProductById, getAllCategories' parent_name and getCategoryById:
  read endpoints outside the ledger.
- Floating-point price arithmetic of the frontend: prices are opaque integers.
- Database.Store.DeleteCategory: states the remaining rows as a set with one row fewer,
  not their order (only the listing, which sorts by name, shows an order).
- Transactions: updateInventory and createBatch run their row write and their alert
  insert as two statements committed separately, with no BEGIN; the model makes both
  writes at once, so it does not capture a failure between them that keeps the row
  without its alert.
- CreateSku: createSKU tests the prices with `=== undefined`, so a price sent as JSON
  `null` passes its check and reaches the INSERT as NULL, with an outcome that depends on
  constraints not part of this model; the model has one `None` for absent and null, so it
  answers 400 MissingFields there.
- NewSku: a new SKU is stored active; the inserts name no is_active, so this assumes the
  column's default is true (the table definitions are not part of this model).
- SkuEntry: the code and prices of each SKU in a createProduct request are taken as
  given; the controller checks none of them, and a missing one would be inserted as
  NULL with an outcome that depends on NOT NULL constraints not part of this model.
- Append-only logs: `LogsOnlyGrow` is stated on ResolveStockAlert only; on the other
  handlers it follows from their ensures, which give the new logs outright.
