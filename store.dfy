/** The database the controllers write to, as one object whose tables the handlers
    update in place. Each handler is one method that either makes all of its writes or,
    when it fails, leaves every table as it was. */
module Database {
  import opened Types
  import opened Requests
  import opened StockRules
  import opened CatalogRows
  import opened Ledger
  import opened Schema
  import Queries

  /** The next value of each table's SERIAL sequence, and the clock. */
  datatype Serials = Serials(category: int, product: int, sku: int, movement: int,
                             batch: int, alert: int, clock: int)

  // ---------------------------------------------------------------- rows the ledger appends

  /** The alert addStockMovement and updateInventory append after writing `inv`:
      one unresolved alert exactly when the quantity is at or below the minimum. */
  function LevelAlerts(id: int, skuId: int, inv: Inventory, message: AlertMessage, at: int): (r: seq<Alert>)
    ensures |r| == (if inv.quantity <= inv.minimum then 1 else 0)
    ensures forall a :: a in r ==>
              && a.id == id && a.skuId == skuId && !a.resolved && a.resolvedAt.None?
              && a.message == message && a.createdAt == at
              && (a.kind == OutOfStockAlert <==> inv.quantity == 0)
              && a.kind != ExpiringSoonAlert
  {
    match LevelAlertKind(inv.quantity, inv.minimum)
    case Some(kind) => [Alert(id, skuId, kind, message, false, at, None)]
    case None => []
  }

  /** The alert createBatch appends: EXPIRING_SOON when the expiry date is due. */
  function ExpiryAlerts(id: int, skuId: int, number: string, expiry: Option<int>, today: int, at: int): (r: seq<Alert>)
    ensures |r| == (if ExpiryAlertDue(expiry, today) then 1 else 0)
    ensures forall a :: a in r ==>
              && a.id == id && a.skuId == skuId && a.kind == ExpiringSoonAlert && !a.resolved
              && a.message == BatchExpires(number, expiry.value) && a.createdAt == at
              && a.resolvedAt.None?
  {
    if ExpiryAlertDue(expiry, today) then
      [Alert(id, skuId, ExpiringSoonAlert, BatchExpires(number, expiry.value), false, at, None)]
    else []
  }

  /** `SET is_resolved = true, resolved_at = CURRENT_TIMESTAMP` */
  function Resolved(a: Alert, at: int): (r: Alert)
    ensures r.resolved && r.resolvedAt == Some(at) && AlertEvolved(a, r)
  {
    a.(resolved := true, resolvedAt := Some(at))
  }

  // ---------------------------------------------------------------- rows createProduct inserts

  function EntrySku(id: int, productId: int, e: SkuEntry): Sku {
    NewSku(id, productId, e.code, e.variant, e.cost, e.selling, e.tax)
  }

  function EntryInventory(e: SkuEntry): Inventory {
    NewInventory(e.initialQuantity, e.minimum, e.maximum)
  }

  /** `skus` after inserting the SKU rows of `entries`, numbered from `first` in list order. */
  function WithEntrySkus(skus: map<int, Sku>, productId: int, first: int, entries: seq<SkuEntry>): map<int, Sku>
    decreases |entries|
  {
    if entries == [] then skus
    else
      var n := |entries| - 1;
      WithEntrySkus(skus, productId, first, entries[..n])[first + n := EntrySku(first + n, productId, entries[n])]
  }

  /** `inventory` after inserting the inventory rows of `entries`, keyed like their SKU rows. */
  function WithEntryInventories(inventory: map<int, Inventory>, first: int, entries: seq<SkuEntry>): map<int, Inventory>
    decreases |entries|
  {
    if entries == [] then inventory
    else
      var n := |entries| - 1;
      WithEntryInventories(inventory, first, entries[..n])[first + n := EntryInventory(entries[n])]
  }

  /** The ledger ghosts after inserting `entries`: each new SKU's quantity was last written
      directly as its initial quantity. */
  function WithEntryBaselines(baseline: map<int, int>, first: int, entries: seq<SkuEntry>): map<int, int>
    decreases |entries|
  {
    if entries == [] then baseline
    else
      var n := |entries| - 1;
      WithEntryBaselines(baseline, first, entries[..n])[first + n := EntryInventory(entries[n]).quantity]
  }

  /** ... and that write happened when the movement log had length `at`. */
  function WithEntrySince(since: map<int, nat>, first: int, entries: seq<SkuEntry>, at: nat): map<int, nat>
    decreases |entries|
  {
    if entries == [] then since
    else
      var n := |entries| - 1;
      WithEntrySince(since, first, entries[..n], at)[first + n := at]
  }

  /** Under id `first + j` the baseline is entry j's initial quantity, counted from the log
      length `at`; every other SKU keeps its baseline. */
  lemma {:induction false} EntryBaselinesAt(baseline: map<int, int>, since: map<int, nat>,
                                            first: int, entries: seq<SkuEntry>, at: nat)
    ensures forall k :: k in WithEntryBaselines(baseline, first, entries) <==>
              k in baseline || first <= k < first + |entries|
    ensures forall k :: k in WithEntryBaselines(baseline, first, entries) ==>
              WithEntryBaselines(baseline, first, entries)[k]
                == if first <= k < first + |entries| then entries[k - first].initialQuantity.GetOr(0) else baseline[k]
    ensures forall k :: k in WithEntrySince(since, first, entries, at) <==>
              k in since || first <= k < first + |entries|
    ensures forall k :: k in WithEntrySince(since, first, entries, at) ==>
              WithEntrySince(since, first, entries, at)[k] == if first <= k < first + |entries| then at else since[k]
    decreases |entries|
  {
    if entries != [] {
      var n := |entries| - 1;
      EntryBaselinesAt(baseline, since, first, entries[..n], at);
      assert forall j :: 0 <= j < n ==> entries[..n][j] == entries[j];
    }
  }

  /** The SKU row under id `first + j` is entry j's; every other row is as it was. */
  lemma {:induction false} EntrySkusAt(skus: map<int, Sku>, productId: int, first: int, entries: seq<SkuEntry>)
    ensures forall k :: k in WithEntrySkus(skus, productId, first, entries) <==>
              k in skus || first <= k < first + |entries|
    ensures forall k :: k in WithEntrySkus(skus, productId, first, entries) ==>
              WithEntrySkus(skus, productId, first, entries)[k]
                == if first <= k < first + |entries| then EntrySku(k, productId, entries[k - first]) else skus[k]
    decreases |entries|
  {
    if entries != [] {
      var n := |entries| - 1;
      EntrySkusAt(skus, productId, first, entries[..n]);
      assert forall j :: 0 <= j < n ==> entries[..n][j] == entries[j];
    }
  }

  /** The inventory row under id `first + j` is entry j's; every other row is as it was. */
  lemma {:induction false} EntryInventoriesAt(inventory: map<int, Inventory>, first: int, entries: seq<SkuEntry>)
    ensures forall k :: k in WithEntryInventories(inventory, first, entries) <==>
              k in inventory || first <= k < first + |entries|
    ensures forall k :: k in WithEntryInventories(inventory, first, entries) ==>
              WithEntryInventories(inventory, first, entries)[k]
                == if first <= k < first + |entries| then EntryInventory(entries[k - first]) else inventory[k]
    decreases |entries|
  {
    if entries != [] {
      var n := |entries| - 1;
      EntryInventoriesAt(inventory, first, entries[..n]);
      assert forall j :: 0 <= j < n ==> entries[..n][j] == entries[j];
    }
  }

  /** Entry i's code is not taken. */
  ghost predicate EntryCodeFree(skus: map<int, Sku>, entries: seq<SkuEntry>, i: int) {
    0 <= i < |entries| ==> !CodeTaken(skus, entries[i].code)
  }

  ghost predicate EntryCodesDiffer(entries: seq<SkuEntry>, i: int, j: int) {
    0 <= i < j < |entries| ==> entries[i].code != entries[j].code
  }

  /** No entry's code is taken already, and no two entries share one. */
  ghost predicate FreshCodes(skus: map<int, Sku>, entries: seq<SkuEntry>) {
    && (forall i :: EntryCodeFree(skus, entries, i))
    && (forall i, j :: EntryCodesDiffer(entries, i, j))
  }

  /** One more entry inserted: the rows of the first i+1 entries extend those of the first i. */
  lemma EntryRowsGrow(skus: map<int, Sku>, inventory: map<int, Inventory>, productId: int,
                      baseline: map<int, int>, since: map<int, nat>, at: nat,
                      first: int, entries: seq<SkuEntry>, i: nat)
    requires i < |entries|
    ensures WithEntrySkus(skus, productId, first, entries[..i + 1])
            == WithEntrySkus(skus, productId, first, entries[..i])[first + i := EntrySku(first + i, productId, entries[i])]
    ensures WithEntryInventories(inventory, first, entries[..i + 1])
            == WithEntryInventories(inventory, first, entries[..i])[first + i := EntryInventory(entries[i])]
    ensures WithEntryBaselines(baseline, first, entries[..i + 1])
            == WithEntryBaselines(baseline, first, entries[..i])[first + i := EntryInventory(entries[i]).quantity]
    ensures WithEntrySince(since, first, entries[..i + 1], at)
            == WithEntrySince(since, first, entries[..i], at)[first + i := at]
  {
    assert entries[..i + 1][..i] == entries[..i];
  }

  /** The code of entry i is found among the rows inserted so far: the request was not fresh. */
  lemma CodeClash(skus: map<int, Sku>, productId: int, first: int, entries: seq<SkuEntry>, i: nat)
    requires i < |entries| && forall k :: k in skus ==> k < first
    requires CodeTaken(WithEntrySkus(skus, productId, first, entries[..i]), entries[i].code)
    ensures !FreshCodes(skus, entries)
  {
    EntrySkusAt(skus, productId, first, entries[..i]);
    var rows := WithEntrySkus(skus, productId, first, entries[..i]);
    var k :| k in rows && rows[k].code == entries[i].code;
    if first <= k < first + i {
      var j := k - first;
      assert entries[..i][j] == entries[j];
      assert rows[k] == EntrySku(k, productId, entries[j]);
      assert !EntryCodesDiffer(entries, j, i);
    } else {
      assert CodeTaken(skus, entries[i].code);
      assert !EntryCodeFree(skus, entries, i);
    }
  }

  /** The code of entry i is not among the rows inserted so far: the first i+1 entries are fresh. */
  lemma CodesStayFresh(skus: map<int, Sku>, productId: int, first: int, entries: seq<SkuEntry>, i: nat)
    requires i < |entries| && forall k :: k in skus ==> k < first
    requires FreshCodes(skus, entries[..i])
    requires !CodeTaken(WithEntrySkus(skus, productId, first, entries[..i]), entries[i].code)
    ensures FreshCodes(skus, entries[..i + 1])
  {
    EntrySkusAt(skus, productId, first, entries[..i]);
    var rows := WithEntrySkus(skus, productId, first, entries[..i]);
    var prefix := entries[..i + 1];
    forall k | k in skus ensures skus[k].code != entries[i].code {
      assert rows[k] == skus[k];
    }
    forall a, b ensures EntryCodesDiffer(prefix, a, b) {
      if 0 <= a < b < |prefix| {
        if b < i {
          assert EntryCodesDiffer(entries[..i], a, b);
        } else {
          assert rows[first + a] == EntrySku(first + a, productId, entries[..i][a]);
        }
      }
    }
    forall a ensures EntryCodeFree(skus, prefix, a) {
      if 0 <= a < i {
        assert prefix[a] == entries[..i][a];
        assert EntryCodeFree(skus, entries[..i], a);
      }
    }
  }

  /** The loop of createProduct inside its transaction: stage each requested SKU, in
      order, as a SKU row and an inventory row under the next id, and stop at the first
      code already held by an existing or an earlier staged row. */
  method StageEntries(skus: map<int, Sku>, inventory: map<int, Inventory>, ms: seq<Movement>,
                      ghost baseline: map<int, int>, ghost since: map<int, nat>,
                      productId: int, first: int, entries: seq<SkuEntry>)
    returns (ok: bool, rows: map<int, Sku>, stock: map<int, Inventory>,
             ghost base: map<int, int>, ghost from: map<int, nat>)
    requires SkusOk(skus, inventory, first) && Ledgered(inventory, ms, baseline, since)
    ensures ok <==> FreshCodes(skus, entries)
    ensures ok ==>
      && rows == WithEntrySkus(skus, productId, first, entries)
      && stock == WithEntryInventories(inventory, first, entries)
      && SkusOk(rows, stock, first + |entries|)
      && Ledgered(stock, ms, base, from)
      && base == WithEntryBaselines(baseline, first, entries)
      && from == WithEntrySince(since, first, entries, |ms|)
  {
    rows, stock, base, from := skus, inventory, baseline, since;
    forall k | k in skus ensures k < first {
      assert SkuKeyed(skus, inventory, first, k);
    }
    var i := 0;
    while i < |entries|
      invariant 0 <= i <= |entries|
      invariant SkusOk(rows, stock, first + i) && Ledgered(stock, ms, base, from)
      invariant rows == WithEntrySkus(skus, productId, first, entries[..i])
      invariant stock == WithEntryInventories(inventory, first, entries[..i])
      invariant base == WithEntryBaselines(baseline, first, entries[..i])
      invariant from == WithEntrySince(since, first, entries[..i], |ms|)
      invariant FreshCodes(skus, entries[..i])
    {
      var e := entries[i];
      if CodeTaken(rows, e.code) {
        CodeClash(skus, productId, first, entries, i);
        return false, rows, stock, base, from;
      }
      EntryRowsGrow(skus, inventory, productId, baseline, since, |ms|, first, entries, i);
      CodesStayFresh(skus, productId, first, entries, i);
      var id := first + i;
      var sku, inv := EntrySku(id, productId, e), EntryInventory(e);
      SkuInserted(rows, stock, id, sku, inv);
      QuantityWritten(stock, ms, base, from, id, inv);
      rows, stock := rows[id := sku], stock[id := inv];
      base, from := base[id := inv.quantity], from[id := |ms|];
      i := i + 1;
    }
    assert entries[..i] == entries;
    ok := true;
  }

  class Store {
    var categories: seq<Category>
    var products: map<int, Product>
    var skus: map<int, Sku>
    var inventory: map<int, Inventory>   // keyed by sku_id
    var movements: seq<Movement>         // append-only
    var batches: seq<Batch>
    var alerts: seq<Alert>
    var nextCategoryId: int              // the tables' SERIAL sequences
    var nextProductId: int
    var nextSkuId: int
    var nextMovementId: int
    var nextBatchId: int
    var nextAlertId: int
    var clock: int                       // CURRENT_TIMESTAMP, as a counter

    // The last direct write of each SKU's quantity (its creation or an override by
    // updateInventory) and the length of the movement log at that moment.
    ghost var baseline: map<int, int>
    ghost var since: map<int, nat>

    ghost predicate Valid()
      reads this
    {
      && CategoriesOk(categories, nextCategoryId)
      && ProductsOk(products, nextProductId)
      && SkusOk(skus, inventory, nextSkuId)
      && MovementsOk(movements, nextMovementId, clock)
      && BatchesOk(batches, nextBatchId)
      && AlertsOk(alerts, nextAlertId, clock)
      && Ledgered(inventory, movements, baseline, since)
    }

    function Counters(): Serials
      reads this
    {
      Serials(nextCategoryId, nextProductId, nextSkuId, nextMovementId, nextBatchId, nextAlertId, clock)
    }

    /** Logs are only appended to; alert rows only get resolved. */
    twostate predicate LogsOnlyGrow()
      reads this
    {
      && old(movements) <= movements
      && old(batches) <= batches
      && |old(alerts)| <= |alerts|
      && forall i :: 0 <= i < |old(alerts)| ==> AlertEvolved(old(alerts)[i], alerts[i])
    }

    constructor ()
      ensures Valid()
      ensures categories == [] && products == map[] && skus == map[] && inventory == map[]
      ensures movements == [] && batches == [] && alerts == []
    {
      categories, products, skus, inventory := [], map[], map[], map[];
      movements, batches, alerts := [], [], [];
      nextCategoryId, nextProductId, nextSkuId := 1, 1, 1;
      nextMovementId, nextBatchId, nextAlertId := 1, 1, 1;
      clock := 0;
      baseline, since := map[], map[];
    }

    /** Under the invariant, the listings' newest-first guarantees apply to the logs. */
    lemma LogsChronological()
      requires Valid()
      ensures Queries.Chronological(movements, (m: Movement) => m.createdAt)
      ensures Queries.Chronological(alerts, (a: Alert) => a.createdAt)
    {
      forall i, j | 0 <= i < j < |movements| ensures movements[i].createdAt < movements[j].createdAt {
        assert MovedBefore(movements, i, j);
      }
      forall i, j | 0 <= i < j < |alerts| ensures alerts[i].createdAt < alerts[j].createdAt {
        assert RaisedBefore(alerts, i, j);
      }
    }

    /** Under the invariant, no two movements and no two alerts share an id: ids grow
        along each log. */
    lemma LogIdsIncrease()
      requires Valid()
      ensures forall i, j :: 0 <= i < j < |movements| ==> movements[i].id < movements[j].id
      ensures forall i, j :: 0 <= i < j < |alerts| ==> alerts[i].id < alerts[j].id
    {
      forall i, j | 0 <= i < j < |movements| ensures movements[i].id < movements[j].id {
        assert MovedBefore(movements, i, j);
      }
      forall i, j | 0 <= i < j < |alerts| ensures alerts[i].id < alerts[j].id {
        assert RaisedBefore(alerts, i, j);
      }
    }

    /** Each SKU's on-hand quantity is what replaying the movements logged since its last
        direct write, one by one, makes of the quantity written then. */
    lemma QuantityReconciled(s: int)
      requires Valid() && s in inventory
      ensures s in baseline && s in since && since[s] <= |movements|
      ensures inventory[s].quantity == baseline[s] + NetDelta(movements[since[s]..], s)
      ensures inventory[s].quantity
              == ApplyAll(map[s := inventory[s].(quantity := baseline[s])], movements[since[s]..])[s].quantity
    {
      assert Reconciled(inventory, movements, baseline, since, s);
      ApplyAllNet(map[s := inventory[s].(quantity := baseline[s])], movements[since[s]..], s);
    }

    // ============================================================ inventoryController.js

    /** addStockMovement: validate, then in one transaction append the movement, apply its
        signed delta and raise a level alert; a SKU without an inventory row rolls it all back. */
    method AddStockMovement(req: MovementRequest) returns (r: Result<MovementReceipt>)
      requires Valid()
      modifies this
      ensures Valid()
      ensures baseline == old(baseline) && since == old(since)
      ensures r.Err? ==> unchanged(this)
      ensures r.Ok? <==> ValidateMovement(req).Ok? && req.skuId.value in old(inventory)
      ensures r.Err? ==> r.failure == if ValidateMovement(req).Err? then ValidateMovement(req).failure else Internal
      ensures r.Ok? ==>
        var s, kind, q := req.skuId.value, ValidateMovement(req).value, req.quantity.value;
        var inv := old(inventory)[s].(quantity := old(inventory)[s].quantity + SignedDelta(kind, q));
        var m := Movement(old(nextMovementId), s, OrNull(req.batchId), kind, q,
                          req.reference, req.notes, old(clock));
        && r.value == MovementReceipt(m, inv)
        && movements == old(movements) + [m]
        && inventory == old(inventory)[s := inv]
        && alerts == old(alerts) + LevelAlerts(old(nextAlertId), s, inv, StockLevelAfter(inv.quantity, kind), old(clock))
        && categories == old(categories) && products == old(products) && skus == old(skus)
        && batches == old(batches)
        && Counters() == old(Counters()).(movement := old(nextMovementId) + 1,
                                         alert := old(nextAlertId) + (if inv.quantity <= inv.minimum then 1 else 0),
                                         clock := old(clock) + 1)
    {
      var v := ValidateMovement(req);
      if v.Err? {
        return Err(v.failure);
      }
      var s, kind, q := req.skuId.value, v.value, req.quantity.value;
      if s !in inventory {
        // the UPDATE matched no row: 'Inventory not found' is thrown and the transaction rolled back
        return Err(Internal);
      }
      var m := Movement(nextMovementId, s, OrNull(req.batchId), kind, q, req.reference, req.notes, clock);
      var inv := inventory[s].(quantity := inventory[s].quantity + SignedDelta(kind, q));
      var raised := LevelAlerts(nextAlertId, s, inv, StockLevelAfter(inv.quantity, kind), clock);

      RecordMovement(m, inv, raised);
      r := Ok(MovementReceipt(m, inv));
    }

    /** The writes of addStockMovement's transaction: log `m`, store its SKU's row with
        the delta applied and append the alerts raised, all stamped with one tick. */
    method RecordMovement(m: Movement, inv: Inventory, raised: seq<Alert>)
      requires Valid() && m.id == nextMovementId && m.createdAt == clock
      requires m.skuId in inventory && inv.quantity == inventory[m.skuId].quantity + Delta(m)
      requires |raised| <= 1 && forall a :: a in raised ==> a.id == nextAlertId && a.createdAt == clock
      modifies this
      ensures Valid()
      ensures baseline == old(baseline) && since == old(since)
      ensures movements == old(movements) + [m] && nextMovementId == old(nextMovementId) + 1
      ensures inventory == old(inventory)[m.skuId := inv]
      ensures alerts == old(alerts) + raised && nextAlertId == old(nextAlertId) + |raised|
      ensures clock == old(clock) + 1
      ensures categories == old(categories) && products == old(products) && skus == old(skus)
      ensures batches == old(batches)
      ensures Counters() == old(Counters()).(movement := old(nextMovementId) + 1,
                                             alert := old(nextAlertId) + |raised|, clock := old(clock) + 1)
    {
      MovementApplied(inventory, movements, baseline, since, m, inv);
      StockRewritten(skus, inventory, nextSkuId, m.skuId, inv);
      MovementsLogged(movements, nextMovementId, clock, [m]);
      AlertsRaised(alerts, nextAlertId, clock, raised);
      movements, inventory, alerts := movements + [m], inventory[m.skuId := inv], alerts + raised;
      nextMovementId, nextAlertId, clock := nextMovementId + 1, nextAlertId + |raised|, clock + 1;
      assert Valid();
    }

    /** updateInventory: COALESCE the three levels of an existing row, log no movement,
        then apply the same level-alert rule. */
    method UpdateInventory(skuId: int, quantity: Option<int>, minimum: Option<int>, maximum: Option<int>)
      returns (r: Result<Inventory>)
      requires Valid()
      modifies this
      ensures Valid()
      ensures r.Ok? ==> skuId in inventory && baseline == old(baseline)[skuId := inventory[skuId].quantity]
                        && since == old(since)[skuId := |old(movements)|]
      ensures r.Err? ==> r == Err(NotFound) && unchanged(this)
      ensures r.Ok? <==> skuId in old(inventory)
      ensures r.Ok? ==>
        var inv := PatchInventory(old(inventory)[skuId], quantity, minimum, maximum);
        && r.value == inv
        && inventory == old(inventory)[skuId := inv]
        && movements == old(movements)
        && alerts == old(alerts) + LevelAlerts(old(nextAlertId), skuId, inv, StockLevel(inv.quantity), old(clock))
        && categories == old(categories) && products == old(products) && skus == old(skus)
        && batches == old(batches)
        && Counters() == old(Counters()).(alert := old(nextAlertId) + (if inv.quantity <= inv.minimum then 1 else 0),
                                         clock := old(clock) + 1)
    {
      if skuId !in inventory {
        return Err(NotFound);
      }
      var inv := PatchInventory(inventory[skuId], quantity, minimum, maximum);
      var raised := LevelAlerts(nextAlertId, skuId, inv, StockLevel(inv.quantity), clock);
      RecordLevels(skuId, inv, raised);
      r := Ok(inv);
    }

    /** The writes of updateInventory: the row's new levels and the alerts raised. The
        quantity written, given or kept, restarts the SKU's reconciliation. */
    method RecordLevels(skuId: int, inv: Inventory, raised: seq<Alert>)
      requires Valid() && skuId in inventory
      requires |raised| <= 1 && forall a :: a in raised ==> a.id == nextAlertId && a.createdAt == clock
      modifies this
      ensures Valid()
      ensures baseline == old(baseline)[skuId := inv.quantity] && since == old(since)[skuId := |old(movements)|]
      ensures inventory == old(inventory)[skuId := inv]
      ensures alerts == old(alerts) + raised && nextAlertId == old(nextAlertId) + |raised|
      ensures clock == old(clock) + 1
      ensures categories == old(categories) && products == old(products) && skus == old(skus)
      ensures movements == old(movements) && batches == old(batches)
      ensures Counters() == old(Counters()).(alert := old(nextAlertId) + |raised|, clock := old(clock) + 1)
    {
      MovementsTicked(movements, nextMovementId, clock);
      AlertsRaised(alerts, nextAlertId, clock, raised);
      QuantityWritten(inventory, movements, baseline, since, skuId, inv);
      StockRewritten(skus, inventory, nextSkuId, skuId, inv);
      inventory, alerts, nextAlertId, clock := inventory[skuId := inv], alerts + raised, nextAlertId + |raised|, clock + 1;
      baseline, since := baseline[skuId := inv.quantity], since[skuId := |movements|];
      assert Valid();
    }

    /** createBatch: validate, refuse a batch number the SKU already has, insert the
        batch (quantities untouched) and raise an EXPIRING_SOON alert when due. */
    method CreateBatch(req: BatchRequest, today: int) returns (r: Result<Batch>)
      requires Valid()
      modifies this
      ensures Valid()
      ensures baseline == old(baseline) && since == old(since)
      ensures r.Err? ==> unchanged(this)
      ensures r.Ok? <==> BatchRequestComplete(req)
                         && !BatchTaken(old(batches), req.skuId.value, req.batchNumber.value)
      ensures r.Err? ==> r.failure == if BatchRequestComplete(req) then AlreadyExists else MissingFields
      ensures r.Ok? ==>
        var s, n := req.skuId.value, req.batchNumber.value;
        var b := Batch(old(nextBatchId), s, n, req.quantity.value, req.manufactured, req.expiry, req.received);
        && r.value == b
        && batches == old(batches) + [b]
        && alerts == old(alerts) + ExpiryAlerts(old(nextAlertId), s, n, req.expiry, today, old(clock))
        && inventory == old(inventory) && movements == old(movements)
        && categories == old(categories) && products == old(products) && skus == old(skus)
        && Counters() == old(Counters()).(batch := old(nextBatchId) + 1,
                                         alert := old(nextAlertId) + (if ExpiryAlertDue(req.expiry, today) then 1 else 0),
                                         clock := old(clock) + 1)
    {
      if !BatchRequestComplete(req) {
        return Err(MissingFields);
      }
      var s, n := req.skuId.value, req.batchNumber.value;
      if BatchTaken(batches, s, n) {
        return Err(AlreadyExists);
      }
      var b := Batch(nextBatchId, s, n, req.quantity.value, req.manufactured, req.expiry, req.received);
      var raised := ExpiryAlerts(nextAlertId, s, n, req.expiry, today, clock);
      RecordBatch(b, raised);
      r := Ok(b);
    }

    /** The writes of createBatch: the batch row and the alerts raised, with one tick. */
    method RecordBatch(b: Batch, raised: seq<Alert>)
      requires Valid() && b.id == nextBatchId && !BatchTaken(batches, b.skuId, b.number)
      requires |raised| <= 1 && forall a :: a in raised ==> a.id == nextAlertId && a.createdAt == clock
      modifies this
      ensures Valid()
      ensures baseline == old(baseline) && since == old(since)
      ensures batches == old(batches) + [b] && nextBatchId == old(nextBatchId) + 1
      ensures alerts == old(alerts) + raised && nextAlertId == old(nextAlertId) + |raised|
      ensures clock == old(clock) + 1
      ensures inventory == old(inventory) && movements == old(movements)
      ensures categories == old(categories) && products == old(products) && skus == old(skus)
      ensures Counters() == old(Counters()).(batch := old(nextBatchId) + 1,
                                             alert := old(nextAlertId) + |raised|, clock := old(clock) + 1)
    {
      BatchRecorded(batches, nextBatchId, b);
      MovementsTicked(movements, nextMovementId, clock);
      AlertsRaised(alerts, nextAlertId, clock, raised);
      batches, alerts := batches + [b], alerts + raised;
      nextBatchId, nextAlertId, clock := nextBatchId + 1, nextAlertId + |raised|, clock + 1;
      assert Valid();
    }

    /** resolveStockAlert: mark the alert with this id (ids are unique) resolved now, resolved or not. */
    method ResolveStockAlert(id: int) returns (r: Result<Alert>)
      requires Valid()
      modifies this
      ensures Valid() && LogsOnlyGrow()
      ensures baseline == old(baseline) && since == old(since)
      ensures r.Err? ==> r == Err(NotFound) && unchanged(this)
      ensures r.Ok? <==> exists i :: 0 <= i < |old(alerts)| && old(alerts)[i].id == id
      ensures r.Ok? ==>
        && |alerts| == |old(alerts)|
        && (forall i :: 0 <= i < |alerts| ==>
              alerts[i] == if old(alerts)[i].id == id then Resolved(old(alerts)[i], old(clock)) else old(alerts)[i])
        && r.value in alerts && r.value.id == id && r.value.resolved && r.value.resolvedAt == Some(old(clock))
        && inventory == old(inventory) && movements == old(movements) && batches == old(batches)
        && categories == old(categories) && products == old(products) && skus == old(skus)
        && Counters() == old(Counters()).(clock := old(clock) + 1)
    {
      var found := Queries.Find(alerts, (a: Alert) => a.id, id);
      if found.None? {
        return Err(NotFound);
      }
      var at, before := clock, alerts;
      alerts := seq(|before|, i requires 0 <= i < |before| =>
                    if before[i].id == id then Resolved(before[i], at) else before[i]);
      AlertsResolved(before, nextAlertId, at, alerts);
      MovementsTicked(movements, nextMovementId, clock);
      clock := clock + 1;
      assert Valid();
      r := Ok(alerts[found.value]);
    }

    // ============================================================ skuController.js

    /** createSKU: validate, then in one transaction insert the SKU and its inventory row
        with the `||` defaults; a duplicate sku_code rolls both back. */
    method CreateSku(req: SkuRequest) returns (r: Result<Sku>)
      requires Valid()
      modifies this
      ensures Valid()
      ensures r.Ok? ==> r.value.id in inventory && baseline == old(baseline)[r.value.id := inventory[r.value.id].quantity]
                        && since == old(since)[r.value.id := |old(movements)|]
      ensures r.Err? ==> unchanged(this)
      ensures r.Ok? <==> SkuRequestComplete(req) && !CodeTaken(old(skus), req.code.value)
      ensures r.Err? ==> r.failure == if SkuRequestComplete(req) then AlreadyExists else MissingFields
      ensures r.Ok? ==>
        var id := old(nextSkuId);
        var sku := NewSku(id, req.productId.value, req.code.value, req.variant,
                          req.cost.value, req.selling.value, req.tax);
        && id !in old(skus) && id !in old(inventory)
        && r.value == sku
        && skus == old(skus)[id := sku]
        && inventory == old(inventory)[id := NewInventory(req.initialQuantity, req.minimum, req.maximum)]
        && products == old(products) && categories == old(categories)
        && movements == old(movements) && batches == old(batches) && alerts == old(alerts)
        && Counters() == old(Counters()).(sku := id + 1)
    {
      if !SkuRequestComplete(req) {
        return Err(MissingFields);
      }
      if CodeTaken(skus, req.code.value) {
        // unique violation on the SKU insert: ROLLBACK, 'SKU code already exists'
        return Err(AlreadyExists);
      }
      var id := nextSkuId;
      var sku := NewSku(id, req.productId.value, req.code.value, req.variant,
                        req.cost.value, req.selling.value, req.tax);
      InsertSku(sku, NewInventory(req.initialQuantity, req.minimum, req.maximum));
      r := Ok(sku);
    }

    /** The two INSERTs of createSKU: the SKU row under the next id and its inventory row. */
    method InsertSku(sku: Sku, inv: Inventory)
      requires Valid() && sku.id == nextSkuId && !CodeTaken(skus, sku.code)
      modifies this
      ensures Valid()
      ensures baseline == old(baseline)[sku.id := inv.quantity] && since == old(since)[sku.id := |old(movements)|]
      ensures sku.id !in old(skus) && sku.id !in old(inventory)
      ensures skus == old(skus)[sku.id := sku] && inventory == old(inventory)[sku.id := inv]
      ensures nextSkuId == old(nextSkuId) + 1
      ensures products == old(products) && categories == old(categories)
      ensures movements == old(movements) && batches == old(batches) && alerts == old(alerts)
      ensures Counters() == old(Counters()).(sku := old(nextSkuId) + 1)
    {
      SkuInserted(skus, inventory, nextSkuId, sku, inv);
      QuantityWritten(inventory, movements, baseline, since, sku.id, inv);
      skus, inventory, nextSkuId := skus[sku.id := sku], inventory[sku.id := inv], nextSkuId + 1;
      baseline, since := baseline[sku.id := inv.quantity], since[sku.id := |movements|];
      assert Valid();
    }

    /** updateSKU: COALESCE every column of an existing SKU; a clash with another SKU's
        code is an unmapped unique violation. Inventory is not touched. */
    method UpdateSku(id: int, patch: SkuPatch) returns (r: Result<Sku>)
      requires Valid()
      modifies this
      ensures Valid()
      ensures baseline == old(baseline) && since == old(since)
      ensures r.Err? ==> unchanged(this)
      ensures id !in old(skus) ==> r == Err(NotFound)
      ensures id in old(skus) && patch.code.Some?
              && (exists k :: k in old(skus) && k != id && old(skus)[k].code == patch.code.value)
              ==> r == Err(Internal)
      ensures r.Ok? ==>
        && id in old(skus)
        && r.value == PatchSku(old(skus)[id], patch)
        && skus == old(skus)[id := r.value]
        && inventory == old(inventory) && products == old(products) && categories == old(categories)
        && movements == old(movements) && batches == old(batches) && alerts == old(alerts)
        && Counters() == old(Counters())
      ensures r.Ok? <==>
        id in old(skus)
        && !(patch.code.Some? && exists k :: k in old(skus) && k != id && old(skus)[k].code == patch.code.value)
    {
      if id !in skus {
        return Err(NotFound);
      }
      assert SkuKeyed(skus, inventory, nextSkuId, id);
      var updated := PatchSku(skus[id], patch);
      if patch.code.Some? && exists k :: k in skus && k != id && skus[k].code == patch.code.value {
        return Err(Internal);
      }
      forall k | k in skus && k != id ensures skus[k].code != updated.code {
        assert CodesDiffer(skus, k, id);
      }
      SkuReplaced(skus, inventory, nextSkuId, updated);
      skus := skus[id := updated];
      r := Ok(updated);
    }

    /** deleteSKU: remove an existing SKU row. */
    method DeleteSku(id: int) returns (r: Result<Sku>)
      requires Valid()
      modifies this
      ensures Valid()
      ensures baseline == old(baseline) && since == old(since)
      ensures r.Err? ==> r == Err(NotFound) && unchanged(this)
      ensures r.Ok? <==> id in old(skus)
      ensures r.Ok? ==>
        && r.value == old(skus)[id]
        && skus == old(skus) - {id}
        && inventory == old(inventory) && products == old(products) && categories == old(categories)
        && movements == old(movements) && batches == old(batches) && alerts == old(alerts)
        && Counters() == old(Counters())
    {
      if id !in skus {
        return Err(NotFound);
      }
      SkuRemoved(skus, inventory, nextSkuId, id);
      r := Ok(skus[id]);
      skus := skus - {id};
    }

    // ============================================================ productController.js

    /** createProduct: validate the name, then in one transaction insert the product and,
        for each requested SKU in order, its SKU and inventory rows; any duplicate code
        rolls back everything and is reported as an internal error. */
    method CreateProduct(req: ProductRequest) returns (r: Result<Product>)
      requires Valid()
      modifies this
      ensures Valid()
      ensures r.Ok? ==> baseline == WithEntryBaselines(old(baseline), old(nextSkuId), req.skus)
                        && since == WithEntrySince(old(since), old(nextSkuId), req.skus, |old(movements)|)
      ensures r.Err? ==> unchanged(this)
      ensures r.Ok? <==> GivenText(req.name) && FreshCodes(old(skus), req.skus)
      ensures r.Err? ==> r.failure == if GivenText(req.name) then Internal else MissingFields
      ensures r.Ok? ==>
        var pid := old(nextProductId);
        && r.value == Product(pid, req.name.value, req.description, OrNull(req.categoryId))
        && pid !in old(products)
        && products == old(products)[pid := r.value] && nextProductId == pid + 1
        && nextSkuId == old(nextSkuId) + |req.skus|
        && (forall k :: old(nextSkuId) <= k < nextSkuId ==> k !in old(skus) && k !in old(inventory))
        && skus == WithEntrySkus(old(skus), pid, old(nextSkuId), req.skus)
        && inventory == WithEntryInventories(old(inventory), old(nextSkuId), req.skus)
        && categories == old(categories)
        && movements == old(movements) && batches == old(batches) && alerts == old(alerts)
        && Counters() == old(Counters()).(product := pid + 1, sku := old(nextSkuId) + |req.skus|)
    {
      if !GivenText(req.name) {
        return Err(MissingFields);
      }
      // BEGIN; the staged rows reach the store only at COMMIT
      var pid, first := nextProductId, nextSkuId;
      var p := Product(pid, req.name.value, req.description, OrNull(req.categoryId));
      forall k | first <= k ensures k !in skus && k !in inventory {
        assert SkuKeyed(skus, inventory, first, k);
      }
      var ok, rows, stock, base, from := StageEntries(skus, inventory, movements, baseline, since,
                                                      pid, first, req.skus);
      if !ok {
        return Err(Internal);  // ROLLBACK
      }
      CommitProduct(p, rows, stock, first + |req.skus|, base, from);
      r := Ok(p);
    }

    /** The COMMIT of createProduct: the product row under the next id and the SKU and
        inventory tables with the staged rows, under a SKU serial advanced to `next`. */
    method CommitProduct(p: Product, rows: map<int, Sku>, stock: map<int, Inventory>, next: int,
                         ghost base: map<int, int>, ghost from: map<int, nat>)
      requires Valid() && p.id == nextProductId
      requires SkusOk(rows, stock, next) && Ledgered(stock, movements, base, from)
      modifies this
      ensures Valid()
      ensures baseline == base && since == from
      ensures p.id !in old(products) && products == old(products)[p.id := p]
      ensures skus == rows && inventory == stock && nextSkuId == next
      ensures nextProductId == old(nextProductId) + 1
      ensures categories == old(categories) && movements == old(movements)
      ensures batches == old(batches) && alerts == old(alerts)
      ensures Counters() == old(Counters()).(product := old(nextProductId) + 1, sku := next)
    {
      ProductAdded(products, nextProductId, p);
      products, nextProductId := products[p.id := p], nextProductId + 1;
      skus, inventory, nextSkuId, baseline, since := rows, stock, next, base, from;
      assert Valid();
    }

    /** updateProduct: COALESCE name and description of an existing product and
        overwrite its category with `category_id || null`. */
    method UpdateProduct(id: int, name: Option<string>, description: Option<string>, categoryId: Option<int>)
      returns (r: Result<Product>)
      requires Valid()
      modifies this
      ensures Valid()
      ensures baseline == old(baseline) && since == old(since)
      ensures r.Err? ==> r == Err(NotFound) && unchanged(this)
      ensures r.Ok? <==> id in old(products)
      ensures r.Ok? ==>
        && r.value == PatchProduct(old(products)[id], name, description, categoryId)
        && products == old(products)[id := r.value]
        && skus == old(skus) && inventory == old(inventory) && categories == old(categories)
        && movements == old(movements) && batches == old(batches) && alerts == old(alerts)
        && Counters() == old(Counters())
    {
      if id !in products {
        return Err(NotFound);
      }
      assert ProductKeyed(products, nextProductId, id);
      var updated := PatchProduct(products[id], name, description, categoryId);
      ProductReplaced(products, nextProductId, updated);
      products := products[id := updated];
      r := Ok(updated);
    }

    /** deleteProduct: remove an existing product row. */
    method DeleteProduct(id: int) returns (r: Result<Product>)
      requires Valid()
      modifies this
      ensures Valid()
      ensures baseline == old(baseline) && since == old(since)
      ensures r.Err? ==> r == Err(NotFound) && unchanged(this)
      ensures r.Ok? <==> id in old(products)
      ensures r.Ok? ==>
        && r.value == old(products)[id]
        && products == old(products) - {id}
        && skus == old(skus) && inventory == old(inventory) && categories == old(categories)
        && movements == old(movements) && batches == old(batches) && alerts == old(alerts)
        && Counters() == old(Counters())
    {
      if id !in products {
        return Err(NotFound);
      }
      r := Ok(products[id]);
      ProductRemoved(products, nextProductId, id);
      products := products - {id};
    }

    // ============================================================ categoryController.js

    /** createCategory: a truthy, unused name is required. */
    method CreateCategory(name: Option<string>, description: Option<string>, parentId: Option<int>)
      returns (r: Result<Category>)
      requires Valid()
      modifies this
      ensures Valid()
      ensures baseline == old(baseline) && since == old(since)
      ensures r.Err? ==> unchanged(this)
      ensures !GivenText(name) ==> r == Err(MissingFields)
      ensures GivenText(name) && NameTaken(old(categories), name.value) ==> r == Err(AlreadyExists)
      ensures r.Ok? <==> GivenText(name) && !NameTaken(old(categories), name.value)
      ensures r.Ok? ==>
        && r.value == Category(old(nextCategoryId), name.value, description, OrNull(parentId))
        && categories == old(categories) + [r.value]
        && products == old(products) && skus == old(skus) && inventory == old(inventory)
        && movements == old(movements) && batches == old(batches) && alerts == old(alerts)
        && Counters() == old(Counters()).(category := old(nextCategoryId) + 1)
    {
      if !GivenText(name) {
        return Err(MissingFields);
      }
      if NameTaken(categories, name.value) {
        return Err(AlreadyExists);
      }
      var c := Category(nextCategoryId, name.value, description, OrNull(parentId));
      CategoryAppended(categories, nextCategoryId, c);
      categories, nextCategoryId := categories + [c], nextCategoryId + 1;
      r := Ok(c);
    }

    /** updateCategory: COALESCE name and description, overwrite parent_id; a name that
        another category holds is an unmapped unique violation. */
    method UpdateCategory(id: int, name: Option<string>, description: Option<string>, parentId: Option<int>)
      returns (r: Result<Category>)
      requires Valid()
      modifies this
      ensures Valid()
      ensures baseline == old(baseline) && since == old(since)
      ensures r.Err? ==> unchanged(this)
      ensures (forall i :: 0 <= i < |old(categories)| ==> old(categories)[i].id != id) ==> r == Err(NotFound)
      ensures r.Ok? ==>
        && |categories| == |old(categories)|
        && (forall i :: 0 <= i < |categories| ==>
              categories[i] == if old(categories)[i].id == id
                               then PatchCategory(old(categories)[i], name, description, parentId)
                               else old(categories)[i])
        && r.value in categories && r.value.id == id
        && products == old(products) && skus == old(skus) && inventory == old(inventory)
        && movements == old(movements) && batches == old(batches) && alerts == old(alerts)
        && Counters() == old(Counters())
      ensures (exists i :: 0 <= i < |old(categories)| && old(categories)[i].id == id)
              && name.Some?
              && (exists i :: 0 <= i < |old(categories)| && old(categories)[i].id != id
                              && old(categories)[i].name == name.value)
              ==> r == Err(Internal)
      ensures r.Ok? <==>
        (exists i :: 0 <= i < |old(categories)| && old(categories)[i].id == id)
        && !(name.Some? && exists i :: 0 <= i < |old(categories)| && old(categories)[i].id != id
                                        && old(categories)[i].name == name.value)
    {
      var found := Queries.Find(categories, (c: Category) => c.id, id);
      if found.None? {
        return Err(NotFound);
      }
      var i := found.value;
      CategoryDistinct(categories, nextCategoryId, i);
      if name.Some? && exists j :: 0 <= j < |categories| && categories[j].id != id && categories[j].name == name.value {
        return Err(Internal);
      }
      var updated := PatchCategory(categories[i], name, description, parentId);
      CategoryReplaced(categories, nextCategoryId, i, updated);
      categories := categories[i := updated];
      r := Ok(updated);
    }

    /** deleteCategory: remove the category with this id. */
    method DeleteCategory(id: int) returns (r: Result<Category>)
      requires Valid()
      modifies this
      ensures Valid()
      ensures baseline == old(baseline) && since == old(since)
      ensures r.Err? ==> r == Err(NotFound) && unchanged(this)
      ensures r.Ok? <==> exists i :: 0 <= i < |old(categories)| && old(categories)[i].id == id
      ensures r.Ok? ==>
        && r.value in old(categories) && r.value.id == id
        && |categories| == |old(categories)| - 1
        && (forall c :: c in categories <==> c in old(categories) && c.id != id)
        && products == old(products) && skus == old(skus) && inventory == old(inventory)
        && movements == old(movements) && batches == old(batches) && alerts == old(alerts)
        && Counters() == old(Counters())
    {
      var found := Queries.Find(categories, (c: Category) => c.id, id);
      if found.None? {
        return Err(NotFound);
      }
      var i := found.value;
      CategoryRemoved(categories, nextCategoryId, i);
      r := Ok(categories[i]);
      categories := categories[..i] + categories[i + 1..];
    }
  }
}
