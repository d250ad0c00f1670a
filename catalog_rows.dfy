/** The rows the catalog controllers insert and the partial updates they apply:
    SKU and inventory rows with their defaults (skuController.js, productController.js),
    and the COALESCE updates of SKUs, products and categories. */
module CatalogRows {
  import opened Types
  import opened Requests

  /** createSKU's required fields: a truthy product_id and sku_code, and prices that are
      not undefined (a price of 0 is accepted). */
  predicate SkuRequestComplete(req: SkuRequest) {
    Given(req.productId) && GivenText(req.code) && req.cost.Some? && req.selling.Some?
  }

  lemma ZeroPricesAccepted(req: SkuRequest)
    requires Given(req.productId) && GivenText(req.code)
    requires req.cost == Some(0) && req.selling == Some(0)
    ensures SkuRequestComplete(req)
  {
  }

  /** The SKU row both createSKU and createProduct insert:
      `variant_name || null`, `tax_percentage || 0`; a new SKU is active. */
  function NewSku(id: int, productId: int, code: string, variant: Option<string>,
                  cost: int, selling: int, tax: Option<int>): (s: Sku)
    ensures s.id == id && s.productId == productId && s.code == code
    ensures s.cost == cost && s.selling == selling && s.active
    ensures s.tax == tax.GetOr(0)
    ensures s.variant == OrNullText(variant)
  {
    Sku(id, productId, code, OrNullText(variant), cost, selling, OrDefault(tax, 0), true)
  }

  /** The inventory row a new SKU gets: `initial_quantity || 0`,
      `minimum_stock_level || 10`, `maximum_stock_level || null`. */
  function NewInventory(initial: Option<int>, minimum: Option<int>, maximum: Option<int>): (inv: Inventory)
    ensures inv.quantity == initial.GetOr(0)
    ensures inv.minimum != 0
    ensures inv.minimum == 10 <==> minimum.None? || minimum.value in {0, 10}
    ensures Given(minimum) ==> inv.minimum == minimum.value
    ensures inv.maximum.Some? <==> Given(maximum)
    ensures inv.maximum.Some? ==> inv.maximum == maximum && inv.maximum.value != 0
  {
    Inventory(OrDefault(initial, 0), OrDefault(minimum, 10), OrNull(maximum))
  }

  /** updateSKU: every column is COALESCE(given, current); the id and product stay. */
  function PatchSku(s: Sku, p: SkuPatch): (r: Sku)
    ensures r.id == s.id && r.productId == s.productId
    ensures p.code.Some? ==> r.code == p.code.value
    ensures p.code.None? ==> r.code == s.code
    ensures p.variant.Some? ==> r.variant == p.variant
    ensures p.variant.None? ==> r.variant == s.variant
    ensures p.cost.Some? ==> r.cost == p.cost.value
    ensures p.cost.None? ==> r.cost == s.cost
    ensures p.selling.Some? ==> r.selling == p.selling.value
    ensures p.selling.None? ==> r.selling == s.selling
    ensures p.tax.Some? ==> r.tax == p.tax.value
    ensures p.tax.None? ==> r.tax == s.tax
    ensures p.active.Some? ==> r.active == p.active.value
    ensures p.active.None? ==> r.active == s.active
  {
    Sku(s.id, s.productId, p.code.GetOr(s.code),
        if p.variant.Some? then p.variant else s.variant,
        p.cost.GetOr(s.cost), p.selling.GetOr(s.selling), p.tax.GetOr(s.tax),
        p.active.GetOr(s.active))
  }

  /** Applying the same SKU patch twice is applying it once, and an empty patch changes nothing. */
  lemma PatchSkuIdempotent(s: Sku, p: SkuPatch)
    ensures PatchSku(PatchSku(s, p), p) == PatchSku(s, p)
    ensures PatchSku(s, SkuPatch(None, None, None, None, None, None)) == s
  {
  }

  /** updateProduct: name and description are COALESCEd, category_id is always
      overwritten with `category_id || null`. */
  function PatchProduct(p: Product, name: Option<string>, description: Option<string>,
                        categoryId: Option<int>): (r: Product)
    ensures r.id == p.id
    ensures name.None? ==> r.name == p.name
    ensures name.Some? ==> r.name == name.value
    ensures description.None? ==> r.description == p.description
    ensures description.Some? ==> r.description == description
    ensures r.categoryId.Some? <==> Given(categoryId)
    ensures r.categoryId.Some? ==> r.categoryId == categoryId
  {
    Product(p.id, name.GetOr(p.name), if description.Some? then description else p.description,
            OrNull(categoryId))
  }

  /** updateCategory: name and description are COALESCEd, parent_id is always
      overwritten with `parent_id || null` and may name the category itself. */
  function PatchCategory(c: Category, name: Option<string>, description: Option<string>,
                         parentId: Option<int>): (r: Category)
    ensures r.id == c.id
    ensures name.None? ==> r.name == c.name
    ensures name.Some? ==> r.name == name.value
    ensures description.None? ==> r.description == c.description
    ensures description.Some? ==> r.description == description
    ensures r.parentId.Some? <==> Given(parentId)
    ensures r.parentId.Some? ==> r.parentId == parentId
  {
    Category(c.id, name.GetOr(c.name), if description.Some? then description else c.description,
             OrNull(parentId))
  }

  /** Leaving category_id out of an update detaches the product from its category. */
  lemma OmittedCategoryClears(p: Product, name: Option<string>, description: Option<string>)
    ensures PatchProduct(p, name, description, None).categoryId == None
  {
  }

  /** Nothing stops a category from becoming its own parent. */
  lemma SelfParentAllowed(c: Category)
    requires c.id != 0
    ensures PatchCategory(c, None, None, Some(c.id)).parentId == Some(c.id)
  {
  }
}
