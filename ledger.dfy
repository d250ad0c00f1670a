/** The movement log as a ledger: the net change it records for one SKU. */
module Ledger {
  import opened Types
  import opened StockRules

  /** The change a movement applies to its SKU's on-hand quantity. */
  function Delta(m: Movement): int {
    SignedDelta(m.kind, m.quantity)
  }

  /** The sum of the signed deltas of the movements of `sku` in `log`. */
  function NetDelta(log: seq<Movement>, sku: int): int {
    if log == [] then 0
    else (if log[0].skuId == sku then Delta(log[0]) else 0) + NetDelta(log[1..], sku)
  }

  /** The net change of two consecutive stretches of the log is the sum of theirs. */
  lemma {:induction false} NetDeltaConcat(a: seq<Movement>, b: seq<Movement>, sku: int)
    ensures NetDelta(a + b, sku) == NetDelta(a, sku) + NetDelta(b, sku)
  {
    if a == [] {
      assert a + b == b;
    } else {
      assert (a + b)[1..] == a[1..] + b;
      NetDeltaConcat(a[1..], b, sku);
    }
  }

  /** Appending a movement changes its own SKU's net by its delta and no other SKU's. */
  lemma NetDeltaAppend(log: seq<Movement>, m: Movement, sku: int)
    ensures NetDelta(log + [m], sku) == NetDelta(log, sku) + (if m.skuId == sku then Delta(m) else 0)
  {
    NetDeltaConcat(log, [m], sku);
    assert NetDelta([m], sku) == (if m.skuId == sku then Delta(m) else 0) + NetDelta([], sku);
  }

  /** Movements of other SKUs never contribute, wherever they are interleaved. */
  lemma {:induction false} NetDeltaIgnoresOthers(log: seq<Movement>, sku: int)
    requires forall i :: 0 <= i < |log| ==> log[i].skuId != sku
    ensures NetDelta(log, sku) == 0
  {
    if log != [] {
      NetDeltaIgnoresOthers(log[1..], sku);
    }
  }

  /** The SKU's row after the movement: its quantity moved by the signed delta, its levels kept.
      A movement whose SKU has no row changes nothing (addStockMovement rolls it back). */
  function Apply(inventory: map<int, Inventory>, m: Movement): (r: map<int, Inventory>)
    ensures r.Keys == inventory.Keys
    ensures forall s :: s in r && s != m.skuId ==> r[s] == inventory[s]
    ensures m.skuId in r ==> r[m.skuId] == inventory[m.skuId].(quantity := inventory[m.skuId].quantity + Delta(m))
  {
    if m.skuId in inventory then
      inventory[m.skuId := inventory[m.skuId].(quantity := inventory[m.skuId].quantity + Delta(m))]
    else inventory
  }

  /** The inventory after applying a run of movements one at a time, in log order. */
  function ApplyAll(inventory: map<int, Inventory>, log: seq<Movement>): (r: map<int, Inventory>)
    ensures r.Keys == inventory.Keys
  {
    if log == [] then inventory else ApplyAll(Apply(inventory, log[0]), log[1..])
  }

  /** Replaying movements one by one ends with each SKU at its starting quantity plus the
      net of its signed deltas, with its levels untouched. */
  lemma {:induction false} ApplyAllNet(inventory: map<int, Inventory>, log: seq<Movement>, s: int)
    requires s in inventory
    ensures s in ApplyAll(inventory, log)
    ensures ApplyAll(inventory, log)[s].quantity == inventory[s].quantity + NetDelta(log, s)
    ensures ApplyAll(inventory, log)[s].minimum == inventory[s].minimum
    ensures ApplyAll(inventory, log)[s].maximum == inventory[s].maximum
  {
    if log != [] {
      ApplyAllNet(Apply(inventory, log[0]), log[1..], s);
    }
  }
}
