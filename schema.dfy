/** The integrity the database keeps across the ledger's tables (keys, unique
    constraints, serial ids, timestamps) and the reconciliation of on-hand quantities
    with the movement log, stated on table values, with one lemma per kind of write
    showing that the write keeps it. */
module Schema {
  import opened Types
  import opened Ledger

  // ---------------------------------------------------------------- unique constraints

  /** Two different SKUs have different codes. */
  ghost predicate CodesDiffer(skus: map<int, Sku>, a: int, b: int) {
    a in skus && b in skus && a != b ==> skus[a].code != skus[b].code
  }

  /** The unique constraint on skus.sku_code. */
  ghost predicate UniqueCodes(skus: map<int, Sku>) {
    forall a, b :: CodesDiffer(skus, a, b)
  }

  predicate CodeTaken(skus: map<int, Sku>, code: string) {
    exists k :: k in skus && skus[k].code == code
  }

  /** Two different category rows have different ids and different names. */
  ghost predicate CategoriesDiffer(cs: seq<Category>, i: int, j: int) {
    0 <= i < j < |cs| ==> cs[i].id != cs[j].id && cs[i].name != cs[j].name
  }

  /** Category ids are a key and category names are unique. */
  ghost predicate UniqueCategories(cs: seq<Category>) {
    forall i, j :: CategoriesDiffer(cs, i, j)
  }

  predicate NameTaken(cs: seq<Category>, name: string) {
    exists i :: 0 <= i < |cs| && cs[i].name == name
  }

  /** Two different batches of one SKU have different numbers. */
  ghost predicate BatchesDiffer(bs: seq<Batch>, i: int, j: int) {
    0 <= i < j < |bs| ==> bs[i].skuId != bs[j].skuId || bs[i].number != bs[j].number
  }

  /** Batch numbers are unique within a SKU. */
  ghost predicate UniqueBatchNumbers(bs: seq<Batch>) {
    forall i, j :: BatchesDiffer(bs, i, j)
  }

  predicate BatchTaken(bs: seq<Batch>, skuId: int, number: string) {
    exists i :: 0 <= i < |bs| && bs[i].skuId == skuId && bs[i].number == number
  }

  /** A later state of an alert row: only the resolution columns change, and a resolved
      alert stays resolved. */
  predicate AlertEvolved(before: Alert, after: Alert) {
    && after.id == before.id && after.skuId == before.skuId && after.kind == before.kind
    && after.message == before.message && after.createdAt == before.createdAt
    && (before.resolved ==> after.resolved)
  }

  // ---------------------------------------------------------------- table invariants
  // Each table's invariant quantifies over a named per-row (or per-pair) predicate, so
  // that a proof says which rows it looks at.

  /** Category row i has an id the serial already handed out. */
  ghost predicate CategoryNumbered(cs: seq<Category>, next: int, i: int) {
    0 <= i < |cs| ==> cs[i].id < next
  }

  ghost predicate CategoriesOk(cs: seq<Category>, next: int) {
    && UniqueCategories(cs)
    && (forall i :: CategoryNumbered(cs, next, i))
  }

  /** The product under key k has id k from the serial. */
  ghost predicate ProductKeyed(ps: map<int, Product>, next: int, k: int) {
    k in ps ==> ps[k].id == k && k < next
  }

  ghost predicate ProductsOk(ps: map<int, Product>, next: int) {
    forall k :: ProductKeyed(ps, next, k)
  }

  /** The SKU under key k has id k and an inventory row; inventory rows have serial ids. */
  ghost predicate SkuKeyed(skus: map<int, Sku>, inventory: map<int, Inventory>, next: int, k: int) {
    && (k in skus ==> skus[k].id == k && k in inventory)
    && (k in inventory ==> k < next)
  }

  /** SKUs are keyed by their id, their codes are unique and each has an inventory row. */
  ghost predicate SkusOk(skus: map<int, Sku>, inventory: map<int, Inventory>, next: int) {
    && (forall k :: SkuKeyed(skus, inventory, next, k))
    && UniqueCodes(skus)
  }

  /** Log row i has a serial id and was created before now. */
  ghost predicate MovementStamped(ms: seq<Movement>, next: int, clock: int, i: int) {
    0 <= i < |ms| ==> ms[i].id < next && ms[i].createdAt < clock
  }

  /** An earlier row of a log was created strictly earlier and has a smaller id. */
  ghost predicate MovedBefore(ms: seq<Movement>, i: int, j: int) {
    0 <= i < j < |ms| ==> ms[i].createdAt < ms[j].createdAt && ms[i].id < ms[j].id
  }

  /** Movement ids come from the serial, and ids and created_at strictly increase along
      the log. */
  ghost predicate MovementsOk(ms: seq<Movement>, next: int, clock: int) {
    && (forall i :: MovementStamped(ms, next, clock, i))
    && (forall i, j :: MovedBefore(ms, i, j))
  }

  ghost predicate BatchNumbered(bs: seq<Batch>, next: int, i: int) {
    0 <= i < |bs| ==> bs[i].id < next
  }

  ghost predicate BatchesOk(bs: seq<Batch>, next: int) {
    && (forall i :: BatchNumbered(bs, next, i))
    && UniqueBatchNumbers(bs)
  }

  ghost predicate AlertStamped(als: seq<Alert>, next: int, clock: int, i: int) {
    0 <= i < |als| ==> als[i].id < next && als[i].createdAt < clock
  }

  ghost predicate RaisedBefore(als: seq<Alert>, i: int, j: int) {
    0 <= i < j < |als| ==> als[i].createdAt < als[j].createdAt && als[i].id < als[j].id
  }

  ghost predicate AlertsOk(als: seq<Alert>, next: int, clock: int) {
    && (forall i :: AlertStamped(als, next, clock, i))
    && (forall i, j :: RaisedBefore(als, i, j))
  }

  /** Each SKU's on-hand quantity is the last value written to it directly (at creation
      or by an override) plus the signed deltas of its movements logged since. */
  ghost predicate Reconciled(inventory: map<int, Inventory>, ms: seq<Movement>,
                             baseline: map<int, int>, since: map<int, nat>, s: int) {
    s in inventory ==>
      && s in baseline && s in since && since[s] <= |ms|
      && inventory[s].quantity == baseline[s] + NetDelta(ms[since[s]..], s)
  }

  ghost predicate Ledgered(inventory: map<int, Inventory>, ms: seq<Movement>,
                           baseline: map<int, int>, since: map<int, nat>) {
    forall s :: Reconciled(inventory, ms, baseline, since, s)
  }

  // ---------------------------------------------------------------- writes that keep them

  /** Logging at most one movement stamped now with the next id keeps the log ordered. */
  lemma MovementsLogged(ms: seq<Movement>, next: int, clock: int, added: seq<Movement>)
    requires MovementsOk(ms, next, clock) && |added| <= 1
    requires forall m :: m in added ==> m.id == next && m.createdAt == clock
    ensures MovementsOk(ms + added, next + |added|, clock + 1)
  {
    var r := ms + added;
    forall i, j ensures MovedBefore(r, i, j) {
      if 0 <= i < j < |r| {
        if j < |ms| {
          assert MovedBefore(ms, i, j);
        } else {
          assert r[j] in added && r[i] == ms[i];
          assert MovementStamped(ms, next, clock, i);
        }
      }
    }
    var next', clock' := next + |added|, clock + 1;
    forall i ensures MovementStamped(r, next', clock', i) {
      if 0 <= i < |ms| {
        assert r[i] == ms[i] && MovementStamped(ms, next, clock, i);
      } else if |ms| <= i < |r| {
        assert r[i] in added;
      }
    }
  }

  /** Time passing keeps the log before the clock. */
  lemma MovementsTicked(ms: seq<Movement>, next: int, clock: int)
    requires MovementsOk(ms, next, clock)
    ensures MovementsOk(ms, next, clock + 1)
  {
    var clock' := clock + 1;
    forall i ensures MovementStamped(ms, next, clock', i) {
      assert MovementStamped(ms, next, clock, i);
    }
  }

  /** Raising at most one alert stamped now with the next id keeps the alerts ordered. */
  lemma AlertsRaised(als: seq<Alert>, next: int, clock: int, added: seq<Alert>)
    requires AlertsOk(als, next, clock) && |added| <= 1
    requires forall a :: a in added ==> a.id == next && a.createdAt == clock
    ensures AlertsOk(als + added, next + |added|, clock + 1)
  {
    var r := als + added;
    forall i, j ensures RaisedBefore(r, i, j) {
      if 0 <= i < j < |r| {
        if j < |als| {
          assert RaisedBefore(als, i, j);
        } else {
          assert r[j] in added && r[i] == als[i];
          assert AlertStamped(als, next, clock, i);
        }
      }
    }
    var next', clock' := next + |added|, clock + 1;
    forall i ensures AlertStamped(r, next', clock', i) {
      if 0 <= i < |als| {
        assert r[i] == als[i] && AlertStamped(als, next, clock, i);
      } else if |als| <= i < |r| {
        assert r[i] in added;
      }
    }
  }

  /** Resolving alerts touches neither their ids nor their stamps. */
  lemma AlertsResolved(als: seq<Alert>, next: int, clock: int, after: seq<Alert>)
    requires AlertsOk(als, next, clock) && |after| == |als|
    requires forall i :: 0 <= i < |als| ==> AlertEvolved(als[i], after[i])
    ensures AlertsOk(after, next, clock + 1)
  {
    forall i, j ensures RaisedBefore(after, i, j) {
      assert RaisedBefore(als, i, j);
    }
    var clock' := clock + 1;
    forall i ensures AlertStamped(after, next, clock', i) {
      assert AlertStamped(als, next, clock, i);
    }
  }

  /** A batch number the SKU does not have yet, with the next id, keeps batches unique. */
  lemma BatchRecorded(bs: seq<Batch>, next: int, b: Batch)
    requires BatchesOk(bs, next) && b.id == next && !BatchTaken(bs, b.skuId, b.number)
    ensures BatchesOk(bs + [b], next + 1)
  {
    var r := bs + [b];
    forall i, j ensures BatchesDiffer(r, i, j) {
      if 0 <= i < j < |r| {
        if j < |bs| {
          assert BatchesDiffer(bs, i, j);
        } else {
          assert r[i] == bs[i] && r[j] == b;
        }
      }
    }
    var next' := next + 1;
    forall i ensures BatchNumbered(r, next', i) {
      if 0 <= i < |bs| {
        assert r[i] == bs[i] && BatchNumbered(bs, next, i);
      }
    }
  }

  /** A product row under the next id. */
  lemma ProductAdded(ps: map<int, Product>, next: int, p: Product)
    requires ProductsOk(ps, next) && p.id == next
    ensures next !in ps && ProductsOk(ps[next := p], next + 1)
  {
    assert ProductKeyed(ps, next, next);
    var after := ps[next := p];
    var next' := next + 1;
    forall k ensures ProductKeyed(after, next', k) {
      assert ProductKeyed(ps, next, k);
    }
  }

  /** Rewriting the product row under its own id. */
  lemma ProductReplaced(ps: map<int, Product>, next: int, p: Product)
    requires ProductsOk(ps, next) && p.id in ps
    ensures ProductsOk(ps[p.id := p], next)
  {
    var after := ps[p.id := p];
    forall k ensures ProductKeyed(after, next, k) {
      assert ProductKeyed(ps, next, k);
    }
  }

  lemma ProductRemoved(ps: map<int, Product>, next: int, id: int)
    requires ProductsOk(ps, next)
    ensures ProductsOk(ps - {id}, next)
  {
    var after := ps - {id};
    forall k ensures ProductKeyed(after, next, k) {
      assert ProductKeyed(ps, next, k);
    }
  }

  /** Inserting a SKU with the next id and an unused code, together with its inventory row. */
  lemma SkuInserted(skus: map<int, Sku>, inventory: map<int, Inventory>, next: int, sku: Sku, inv: Inventory)
    requires SkusOk(skus, inventory, next) && sku.id == next && !CodeTaken(skus, sku.code)
    ensures next !in skus && next !in inventory
    ensures SkusOk(skus[next := sku], inventory[next := inv], next + 1)
  {
    assert SkuKeyed(skus, inventory, next, next);
    var after, stock := skus[next := sku], inventory[next := inv];
    forall a, b ensures CodesDiffer(after, a, b) {
      assert CodesDiffer(skus, a, b);
    }
    var next' := next + 1;
    forall k ensures SkuKeyed(after, stock, next', k) {
      assert SkuKeyed(skus, inventory, next, k);
    }
  }

  /** Deleting a SKU row leaves its inventory row behind, which the invariant allows. */
  lemma SkuRemoved(skus: map<int, Sku>, inventory: map<int, Inventory>, next: int, id: int)
    requires SkusOk(skus, inventory, next)
    ensures SkusOk(skus - {id}, inventory, next)
  {
    var after := skus - {id};
    forall a, b ensures CodesDiffer(after, a, b) {
      assert CodesDiffer(skus, a, b);
    }
    forall k ensures SkuKeyed(after, inventory, next, k) {
      assert SkuKeyed(skus, inventory, next, k);
    }
  }

  /** Rewriting an existing inventory row keeps every SKU's row in place. */
  lemma StockRewritten(skus: map<int, Sku>, inventory: map<int, Inventory>, next: int, id: int, inv: Inventory)
    requires SkusOk(skus, inventory, next) && id in inventory
    ensures SkusOk(skus, inventory[id := inv], next)
  {
    var stock := inventory[id := inv];
    forall k ensures SkuKeyed(skus, stock, next, k) {
      assert SkuKeyed(skus, inventory, next, k);
    }
  }

  /** Rewriting an existing SKU row, keeping its id, with a code no other SKU holds. */
  lemma SkuReplaced(skus: map<int, Sku>, inventory: map<int, Inventory>, next: int, sku: Sku)
    requires SkusOk(skus, inventory, next) && sku.id in skus
    requires forall k :: k in skus && k != sku.id ==> skus[k].code != sku.code
    ensures SkusOk(skus[sku.id := sku], inventory, next)
  {
    var after := skus[sku.id := sku];
    forall a, b ensures CodesDiffer(after, a, b) {
      assert CodesDiffer(skus, a, b);
    }
    forall k ensures SkuKeyed(after, inventory, next, k) {
      assert SkuKeyed(skus, inventory, next, k);
    }
  }

  /** Applying a movement's delta to its SKU's row while logging it keeps the reconciliation. */
  lemma MovementApplied(inventory: map<int, Inventory>, ms: seq<Movement>,
                        baseline: map<int, int>, since: map<int, nat>, m: Movement, inv: Inventory)
    requires Ledgered(inventory, ms, baseline, since) && m.skuId in inventory
    requires inv.quantity == inventory[m.skuId].quantity + Delta(m)
    ensures Ledgered(inventory[m.skuId := inv], ms + [m], baseline, since)
  {
    var after, log := inventory[m.skuId := inv], ms + [m];
    forall t ensures Reconciled(after, log, baseline, since, t) {
      assert Reconciled(inventory, ms, baseline, since, t);
      if t in inventory {
        assert (ms + [m])[since[t]..] == ms[since[t]..] + [m];
        NetDeltaAppend(ms[since[t]..], m, t);
      }
    }
  }

  /** Writing a quantity directly restarts that SKU's reconciliation at the end of the log. */
  lemma QuantityWritten(inventory: map<int, Inventory>, ms: seq<Movement>,
                        baseline: map<int, int>, since: map<int, nat>, id: int, inv: Inventory)
    requires Ledgered(inventory, ms, baseline, since)
    ensures Ledgered(inventory[id := inv], ms, baseline[id := inv.quantity], since[id := |ms|])
  {
    var after, baseline', since' := inventory[id := inv], baseline[id := inv.quantity], since[id := |ms|];
    forall t ensures Reconciled(after, ms, baseline', since', t) {
      if t == id {
        assert ms[|ms|..] == [];
      } else {
        assert Reconciled(inventory, ms, baseline, since, t);
      }
    }
  }

  /** The row at `i` shares neither its id nor its name with any other row. */
  lemma CategoryDistinct(cs: seq<Category>, next: int, i: int)
    requires CategoriesOk(cs, next) && 0 <= i < |cs|
    ensures forall j :: 0 <= j < |cs| && j != i ==> cs[j].id != cs[i].id && cs[j].name != cs[i].name
  {
    forall j | 0 <= j < |cs| && j != i ensures cs[j].id != cs[i].id && cs[j].name != cs[i].name {
      if j < i {
        assert CategoriesDiffer(cs, j, i);
      } else {
        assert CategoriesDiffer(cs, i, j);
      }
    }
  }

  /** Appending a category with the next id and an unused name. */
  lemma CategoryAppended(cs: seq<Category>, next: int, c: Category)
    requires CategoriesOk(cs, next) && c.id == next && !NameTaken(cs, c.name)
    ensures CategoriesOk(cs + [c], next + 1)
  {
    var r := cs + [c];
    forall i, j ensures CategoriesDiffer(r, i, j) {
      if 0 <= i < j < |r| {
        if j < |cs| {
          assert CategoriesDiffer(cs, i, j);
        } else {
          assert r[i] == cs[i] && r[j] == c;
          assert CategoryNumbered(cs, next, i);
        }
      }
    }
    var next' := next + 1;
    forall i ensures CategoryNumbered(r, next', i) {
      if 0 <= i < |cs| {
        assert r[i] == cs[i] && CategoryNumbered(cs, next, i);
      }
    }
  }

  /** Rewriting the row at `i` with the same id and a name no other row holds. */
  lemma CategoryReplaced(cs: seq<Category>, next: int, i: int, c: Category)
    requires CategoriesOk(cs, next) && 0 <= i < |cs| && c.id == cs[i].id
    requires forall j :: 0 <= j < |cs| && j != i ==> cs[j].name != c.name
    ensures CategoriesOk(cs[i := c], next)
  {
    CategoryDistinct(cs, next, i);
    var r := cs[i := c];
    forall a, b ensures CategoriesDiffer(r, a, b) {
      assert CategoriesDiffer(cs, a, b);
    }
    forall a ensures CategoryNumbered(r, next, a) {
      assert CategoryNumbered(cs, next, a);
    }
  }

  /** Removing the row at `i` keeps ids and names unique and removes only that row. */
  lemma CategoryRemoved(cs: seq<Category>, next: int, i: nat)
    requires i < |cs| && CategoriesOk(cs, next)
    ensures CategoriesOk(cs[..i] + cs[i + 1..], next)
    ensures |cs[..i] + cs[i + 1..]| == |cs| - 1
    ensures forall c :: c in cs[..i] + cs[i + 1..] <==> c in cs && c.id != cs[i].id
  {
    var r := cs[..i] + cs[i + 1..];
    assert forall j :: 0 <= j < |r| ==> r[j] == cs[if j < i then j else j + 1];
    forall a, b ensures CategoriesDiffer(r, a, b) {
      if 0 <= a < b < |r| {
        assert CategoriesDiffer(cs, if a < i then a else a + 1, if b < i then b else b + 1);
      }
    }
    forall a ensures CategoryNumbered(r, next, a) {
      if 0 <= a < |r| {
        assert CategoryNumbered(cs, next, if a < i then a else a + 1);
      }
    }
    forall c ensures c in r <==> c in cs && c.id != cs[i].id {
      if c in r {
        var j :| 0 <= j < |r| && r[j] == c;
        var k := if j < i then j else j + 1;
        assert cs[k] == c && k != i;
        if k < i {
          assert CategoriesDiffer(cs, k, i);
        } else {
          assert CategoriesDiffer(cs, i, k);
        }
      }
      if c in cs && c.id != cs[i].id {
        var j :| 0 <= j < |cs| && cs[j] == c;
        assert j != i;
        assert r[if j < i then j else j - 1] == c;
      }
    }
  }
}
