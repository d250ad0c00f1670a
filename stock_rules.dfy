/** The inventory controller's pure rules (inventoryController.js): request validation
    of a movement, the signed delta it applies, the stock-status and batch-status CASE
    expressions and the conditions under which an alert is raised. */
module StockRules {
  import opened Types
  import opened Requests

  function KindName(k: MovementKind): string {
    match k
    case In => "IN"
    case Out => "OUT"
    case Adjustment => "ADJUSTMENT"
  }

  /** `['IN', 'OUT', 'ADJUSTMENT'].includes(movement_type)` */
  function ParseMovementKind(s: string): (r: Option<MovementKind>)
    ensures r.Some? ==> KindName(r.value) == s
    ensures r.None? <==> s !in {"IN", "OUT", "ADJUSTMENT"}
  {
    if s == "IN" then Some(In)
    else if s == "OUT" then Some(Out)
    else if s == "ADJUSTMENT" then Some(Adjustment)
    else None
  }

  lemma KindNameRoundTrip(k: MovementKind)
    ensures ParseMovementKind(KindName(k)) == Some(k)
  {
  }

  /** The two 400 checks of addStockMovement, in order: required fields first, then the type. */
  function ValidateMovement(req: MovementRequest): (r: Result<MovementKind>)
    ensures r == Err(MissingFields) <==>
              !Given(req.skuId) || !GivenText(req.movementType) || !Given(req.quantity)
    ensures r == Err(InvalidMovementType) <==>
              Given(req.skuId) && GivenText(req.movementType) && Given(req.quantity)
              && req.movementType.value !in {"IN", "OUT", "ADJUSTMENT"}
    ensures r.Ok? <==> Given(req.skuId) && GivenText(req.movementType) && Given(req.quantity)
                       && req.movementType.value in {"IN", "OUT", "ADJUSTMENT"}
    ensures r.Ok? ==> Given(req.skuId) && Given(req.quantity)
                      && req.movementType == Some(KindName(r.value))
  {
    if !Given(req.skuId) || !GivenText(req.movementType) || !Given(req.quantity) then
      Err(MissingFields)
    else
      match ParseMovementKind(req.movementType.value)
      case Some(k) => Ok(k)
      case None => Err(InvalidMovementType)
  }

  /** A movement with quantity 0 is refused even though 0 is a number. */
  lemma ZeroQuantityRefused(req: MovementRequest)
    requires req.quantity == Some(0)
    ensures ValidateMovement(req) == Err(MissingFields)
  {
  }

  /** A negative quantity passes validation: `!quantity` is false for it. */
  lemma NegativeQuantityAccepted(req: MovementRequest, q: int)
    requires Given(req.skuId) && req.movementType == Some("IN") && req.quantity == Some(q) && q < 0
    ensures ValidateMovement(req) == Ok(In)
  {
  }

  /** `movement_type === 'OUT' ? -quantity : quantity` */
  function SignedDelta(kind: MovementKind, quantity: int): (d: int)
    ensures d == -quantity <==> kind == Out || quantity == 0
    ensures kind != Out ==> d == quantity
  {
    if kind == Out then -quantity else quantity
  }

  /** The stock-status CASE of getAllInventory: the zero test comes first. */
  function StockStatusOf(quantity: int, minimum: int): (s: StockStatus)
    ensures s == OutOfStock <==> quantity == 0
    ensures s == LowStock <==> quantity != 0 && quantity <= minimum
    ensures s == InStock <==> quantity != 0 && quantity > minimum
  {
    if quantity == 0 then OutOfStock
    else if quantity <= minimum then LowStock
    else InStock
  }

  /** updateInventory: each level is COALESCE(given, current), so an explicit 0 is
      written, unlike the `||` defaults of a new row. */
  function PatchInventory(inv: Inventory, quantity: Option<int>, minimum: Option<int>,
                          maximum: Option<int>): (r: Inventory)
    ensures quantity.Some? ==> r.quantity == quantity.value
    ensures quantity.None? ==> r.quantity == inv.quantity
    ensures minimum.Some? ==> r.minimum == minimum.value
    ensures minimum.None? ==> r.minimum == inv.minimum
    ensures maximum.Some? ==> r.maximum == maximum
    ensures maximum.None? ==> r.maximum == inv.maximum
  {
    Inventory(quantity.GetOr(inv.quantity), minimum.GetOr(inv.minimum),
              if maximum.Some? then maximum else inv.maximum)
  }

  /** The alert rule shared by addStockMovement and updateInventory: an alert exactly
      when the new quantity is at or below the minimum, OUT_OF_STOCK when it is zero. */
  function LevelAlertKind(quantity: int, minimum: int): (r: Option<AlertKind>)
    ensures r.Some? <==> quantity <= minimum
    ensures r == Some(OutOfStockAlert) <==> quantity == 0 && quantity <= minimum
    ensures r == Some(LowStockAlert) <==> quantity != 0 && quantity <= minimum
  {
    if quantity <= minimum then Some(if quantity == 0 then OutOfStockAlert else LowStockAlert)
    else None
  }

  /** The alert rule agrees with the displayed status except at zero stock under a
      negative minimum, where the status is OUT_OF_STOCK and no alert is raised. */
  lemma AlertAgreesWithStatus(quantity: int, minimum: int)
    ensures StockStatusOf(quantity, minimum) == LowStock <==> LevelAlertKind(quantity, minimum) == Some(LowStockAlert)
    ensures StockStatusOf(quantity, minimum) == InStock ==> LevelAlertKind(quantity, minimum).None?
    ensures LevelAlertKind(quantity, minimum) == Some(OutOfStockAlert) ==> StockStatusOf(quantity, minimum) == OutOfStock
    ensures StockStatusOf(quantity, minimum) == OutOfStock ==>
              (LevelAlertKind(quantity, minimum).Some? <==> minimum >= 0)
  {
  }

  lemma OutOfStockWithoutAlert()
    ensures StockStatusOf(0, -1) == OutOfStock && LevelAlertKind(0, -1).None?
  {
  }

  /** The batch-status CASE of getBatches. A NULL expiry fails both comparisons and
      falls to ELSE. */
  function BatchStatusOf(expiry: Option<int>, today: int): (s: BatchStatus)
    ensures s == Expired <==> expiry.Some? && expiry.value < today
    ensures s == ExpiringSoon <==> expiry.Some? && today <= expiry.value <= today + 30
    ensures s == ValidBatch <==> expiry.None? || expiry.value > today + 30
  {
    match expiry
    case None => ValidBatch
    case Some(e) =>
      if e < today then Expired
      else if e <= today + 30 then ExpiringSoon
      else ValidBatch
  }

  function StatusRank(s: BatchStatus): nat {
    match s
    case ValidBatch => 0
    case ExpiringSoon => 1
    case Expired => 2
  }

  /** As days pass a batch only moves from VALID towards EXPIRED. */
  lemma BatchStatusMonotone(expiry: Option<int>, day1: int, day2: int)
    requires day1 <= day2
    ensures StatusRank(BatchStatusOf(expiry, day1)) <= StatusRank(BatchStatusOf(expiry, day2))
  {
  }

  /** createBatch's check: an expiry date is given and lies no later than 30 days ahead
      (an already expired batch qualifies too). */
  predicate ExpiryAlertDue(expiry: Option<int>, today: int) {
    expiry.Some? && expiry.value <= today + 30
  }

  /** createBatch raises its alert exactly for the batches getBatches shows as
      EXPIRING_SOON or EXPIRED on the same day. */
  lemma ExpiryAlertMatchesStatus(expiry: Option<int>, today: int)
    ensures ExpiryAlertDue(expiry, today) <==> BatchStatusOf(expiry, today) != ValidBatch
  {
  }

  /** createBatch's required fields: truthy sku_id, batch_number and quantity. */
  predicate BatchRequestComplete(req: BatchRequest) {
    Given(req.skuId) && GivenText(req.batchNumber) && Given(req.quantity)
  }
}
