/** The rows of the shop's tables, the request bodies the controllers read, and the
    outcomes they report. Ids, quantities, prices (in cents) and dates (day numbers)
    are integers; a column or request field that may be absent is an Option. */
module Types {

  datatype Option<T> = None | Some(value: T) {
    /** SQL COALESCE(this, current): an absent value keeps the current one. */
    function GetOr(current: T): T {
      match this
      case Some(v) => v
      case None => current
    }
  }

  /** What a controller answers instead of a row. */
  datatype Failure =
    | MissingFields        // 400, a required field is missing or falsy
    | InvalidMovementType  // 400, movement_type outside IN, OUT, ADJUSTMENT
    | NotFound             // 404, no row with the given id
    | AlreadyExists        // 400, a unique-constraint violation the controller maps (23505)
    | Internal             // 500, any other failure, after a rollback where there is a transaction

  datatype Result<T> = Ok(value: T) | Err(failure: Failure)

  /** The HTTP status each failure is reported with. */
  function HttpStatus(f: Failure): (code: int)
    ensures code == 404 <==> f == NotFound
    ensures code == 500 <==> f == Internal
    ensures code == 400 <==> f in {MissingFields, InvalidMovementType, AlreadyExists}
  {
    match f
    case MissingFields => 400
    case InvalidMovementType => 400
    case NotFound => 404
    case AlreadyExists => 400
    case Internal => 500
  }

  datatype MovementKind = In | Out | Adjustment

  datatype StockStatus = OutOfStock | LowStock | InStock

  datatype BatchStatus = Expired | ExpiringSoon | ValidBatch

  datatype AlertKind = OutOfStockAlert | LowStockAlert | ExpiringSoonAlert

  /** The alert messages the controllers write, with the values they interpolate. */
  datatype AlertMessage =
    | StockLevel(quantity: int)                          // "Stock level is q"
    | StockLevelAfter(quantity: int, kind: MovementKind) // "Stock level is q after K movement"
    | BatchExpires(batchNumber: string, expiry: int)     // "Batch b expires on d"

  datatype Category = Category(id: int, name: string, description: Option<string>, parentId: Option<int>)

  datatype Product = Product(id: int, name: string, description: Option<string>, categoryId: Option<int>)

  datatype Sku = Sku(
    id: int, productId: int, code: string, variant: Option<string>,
    cost: int, selling: int, tax: int, active: bool)

  /** The inventory row of one SKU (the table is keyed by sku_id). */
  datatype Inventory = Inventory(quantity: int, minimum: int, maximum: Option<int>)

  datatype Movement = Movement(
    id: int, skuId: int, batchId: Option<int>, kind: MovementKind, quantity: int,
    reference: Option<string>, notes: Option<string>, createdAt: int)

  datatype Batch = Batch(
    id: int, skuId: int, number: string, quantity: int,
    manufactured: Option<int>, expiry: Option<int>, received: Option<int>)

  datatype Alert = Alert(
    id: int, skuId: int, kind: AlertKind, message: AlertMessage,
    resolved: bool, createdAt: int, resolvedAt: Option<int>)

  /** Request bodies. A field the client left out is None. */
  datatype MovementRequest = MovementRequest(
    skuId: Option<int>, batchId: Option<int>, movementType: Option<string>,
    quantity: Option<int>, reference: Option<string>, notes: Option<string>)

  datatype BatchRequest = BatchRequest(
    skuId: Option<int>, batchNumber: Option<string>, quantity: Option<int>,
    manufactured: Option<int>, expiry: Option<int>, received: Option<int>)

  datatype SkuRequest = SkuRequest(
    productId: Option<int>, code: Option<string>, variant: Option<string>,
    cost: Option<int>, selling: Option<int>, tax: Option<int>,
    initialQuantity: Option<int>, minimum: Option<int>, maximum: Option<int>)

  /** One element of the `skus` list of a product-creation request. */
  datatype SkuEntry = SkuEntry(
    code: string, variant: Option<string>, cost: int, selling: int, tax: Option<int>,
    initialQuantity: Option<int>, minimum: Option<int>, maximum: Option<int>)

  datatype ProductRequest = ProductRequest(
    name: Option<string>, description: Option<string>, categoryId: Option<int>,
    skus: seq<SkuEntry>)

  datatype SkuPatch = SkuPatch(
    code: Option<string>, variant: Option<string>, cost: Option<int>,
    selling: Option<int>, tax: Option<int>, active: Option<bool>)

  /** What a successful stock movement answers with. */
  datatype MovementReceipt = MovementReceipt(movement: Movement, inventory: Inventory)
}
