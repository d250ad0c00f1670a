/** The read side of the controllers: looking a row up by id, the ORDER BY ... LIMIT of
    the listings, and the listings themselves with their inner JOINs, filters and
    computed columns. */
module Queries {
  import opened Types
  import opened StockRules

  // ---------------------------------------------------------------- lookup by id

  /** The position of the first row whose key is `id`, if any (`WHERE id = $1`). */
  function Find<T>(rows: seq<T>, key: T -> int, id: int): (r: Option<nat>)
    ensures r.Some? ==> r.value < |rows| && key(rows[r.value]) == id
    ensures r.None? <==> forall i :: 0 <= i < |rows| ==> key(rows[i]) != id
  {
    if rows == [] then None
    else if key(rows[0]) == id then Some(0)
    else
      match Find(rows[1..], key, id)
      case None => None
      case Some(i) => Some(i + 1)
  }

  /** The rows that satisfy `keep`, in table order (`WHERE ...`). */
  function Select<T(!new)>(rows: seq<T>, keep: T -> bool): (r: seq<T>)
    ensures |r| <= |rows|
    ensures forall x :: x in r <==> x in rows && keep(x)
    ensures forall x :: multiset(r)[x] == if keep(x) then multiset(rows)[x] else 0
  {
    if rows == [] then []
    else
      assert rows == [rows[0]] + rows[1..];
      (if keep(rows[0]) then [rows[0]] else []) + Select(rows[1..], keep)
  }

  // ---------------------------------------------------------------- ORDER BY created_at DESC LIMIT n

  /** A log whose stamps strictly increase in append order. */
  ghost predicate Chronological<T>(log: seq<T>, stamp: T -> int) {
    forall i, j :: 0 <= i < j < |log| ==> stamp(log[i]) < stamp(log[j])
  }

  ghost predicate NewestFirst<T>(r: seq<T>, stamp: T -> int) {
    forall i, j :: 0 <= i < j < |r| ==> stamp(r[i]) > stamp(r[j])
  }

  /** At most `limit` rows satisfying `keep`, taken from the end of the log backwards. */
  function Newest<T>(log: seq<T>, keep: T -> bool, stamp: T -> int, limit: nat): (r: seq<T>)
    ensures |r| <= limit
    ensures forall x :: x in r ==> x in log && keep(x)
    decreases |log|
  {
    if limit == 0 || log == [] then []
    else
      var last := log[|log| - 1];
      var older := log[..|log| - 1];
      assert log == older + [last];
      if keep(last) then [last] + Newest(older, keep, stamp, limit - 1)
      else Newest(older, keep, stamp, limit)
  }

  /** Without a limit in the way, every row satisfying `keep` is returned. */
  lemma {:induction false} NewestComplete<T>(log: seq<T>, keep: T -> bool, stamp: T -> int, limit: nat)
    requires limit >= |log|
    ensures forall x :: x in log && keep(x) ==> x in Newest(log, keep, stamp, limit)
    decreases |log|
  {
    if log != [] {
      var last, older := log[|log| - 1], log[..|log| - 1];
      assert log == older + [last];
      if keep(last) {
        NewestComplete(older, keep, stamp, limit - 1);
      } else {
        NewestComplete(older, keep, stamp, limit);
      }
    }
  }

  /** Every row before the last of a chronological log is older than the last. */
  lemma OlderThanLast<T>(log: seq<T>, stamp: T -> int, y: T)
    requires Chronological(log, stamp) && |log| > 0 && y in log[..|log| - 1]
    ensures stamp(y) < stamp(log[|log| - 1])
  {
    var i :| 0 <= i < |log| - 1 && log[..|log| - 1][i] == y;
    assert log[i] == y;
  }

  lemma ChronologicalPrefix<T>(log: seq<T>, stamp: T -> int, n: nat)
    requires Chronological(log, stamp) && n <= |log|
    ensures Chronological(log[..n], stamp)
  {
    forall i, j | 0 <= i < j < n ensures stamp(log[..n][i]) < stamp(log[..n][j]) {
      assert log[..n][i] == log[i] && log[..n][j] == log[j];
    }
  }

  /** On a chronological log the result is newest first. */
  lemma {:induction false} NewestSorted<T>(log: seq<T>, keep: T -> bool, stamp: T -> int, limit: nat)
    requires Chronological(log, stamp)
    ensures NewestFirst(Newest(log, keep, stamp, limit), stamp)
    decreases |log|
  {
    if limit > 0 && log != [] {
      var last, older := log[|log| - 1], log[..|log| - 1];
      ChronologicalPrefix(log, stamp, |log| - 1);
      if keep(last) {
        NewestSorted(older, keep, stamp, limit - 1);
        var rest := Newest(older, keep, stamp, limit - 1);
        var r := [last] + rest;
        forall i, j | 0 <= i < j < |r| ensures stamp(r[i]) > stamp(r[j]) {
          assert r[j] == rest[j - 1];
          if i == 0 {
            assert rest[j - 1] in rest;
            OlderThanLast(log, stamp, r[j]);
          } else {
            assert r[i] == rest[i - 1];
          }
        }
      } else {
        NewestSorted(older, keep, stamp, limit);
      }
    }
  }

  /** On a chronological log a row satisfying `keep` is left out only when the result
      is full of rows newer than it. */
  lemma {:induction false} NewestFull<T>(log: seq<T>, keep: T -> bool, stamp: T -> int, limit: nat)
    requires Chronological(log, stamp)
    ensures forall x :: x in log && keep(x) && x !in Newest(log, keep, stamp, limit) ==>
              |Newest(log, keep, stamp, limit)| == limit
              && forall y :: y in Newest(log, keep, stamp, limit) ==> stamp(x) < stamp(y)
    decreases |log|
  {
    if limit > 0 && log != [] {
      var last, older := log[|log| - 1], log[..|log| - 1];
      assert log == older + [last];
      ChronologicalPrefix(log, stamp, |log| - 1);
      var lim := if keep(last) then limit - 1 else limit;
      NewestFull(older, keep, stamp, lim);
      var r, rest := Newest(log, keep, stamp, limit), Newest(older, keep, stamp, lim);
      assert r == if keep(last) then [last] + rest else rest;
      forall x | x in log && keep(x) && x !in r
        ensures |r| == limit && forall y :: y in r ==> stamp(x) < stamp(y)
      {
        assert x in older;
        OlderThanLast(log, stamp, x);
      }
    }
  }

  /** Both ordering facts, for callers that cannot test Chronological themselves. */
  lemma NewestOrder<T>(log: seq<T>, keep: T -> bool, stamp: T -> int, limit: nat)
    ensures Chronological(log, stamp) ==> NewestFirst(Newest(log, keep, stamp, limit), stamp)
    ensures Chronological(log, stamp) ==>
              forall x :: x in log && keep(x) && x !in Newest(log, keep, stamp, limit) ==>
                |Newest(log, keep, stamp, limit)| == limit
                && forall y :: y in Newest(log, keep, stamp, limit) ==> stamp(x) < stamp(y)
  {
    if Chronological(log, stamp) {
      NewestSorted(log, keep, stamp, limit);
      NewestFull(log, keep, stamp, limit);
    }
  }

  // ---------------------------------------------------------------- ORDER BY <key> ASC

  predicate Sorted<T>(s: seq<T>, le: (T, T) -> bool) {
    forall i, j :: 0 <= i < j < |s| ==> le(s[i], s[j])
  }

  ghost predicate TotalPreorder<T(!new)>(le: (T, T) -> bool) {
    && (forall a, b :: le(a, b) || le(b, a))
    && (forall a, b, c :: le(a, b) && le(b, c) ==> le(a, c))
  }

  function Insert<T>(x: T, s: seq<T>, le: (T, T) -> bool): (r: seq<T>)
    ensures |r| == |s| + 1
    ensures multiset(r) == multiset(s) + multiset{x}
  {
    if s == [] then [x]
    else if le(x, s[0]) then [x] + s
    else
      assert s == [s[0]] + s[1..];
      [s[0]] + Insert(x, s[1..], le)
  }

  lemma {:induction false} InsertSorted<T(!new)>(x: T, s: seq<T>, le: (T, T) -> bool)
    requires TotalPreorder(le) && Sorted(s, le)
    ensures Sorted(Insert(x, s, le), le)
  {
    if s != [] && !le(x, s[0]) {
      var rest := Insert(x, s[1..], le);
      InsertSorted(x, s[1..], le);
      forall j | 0 <= j < |rest| ensures le(s[0], rest[j]) {
        var y := rest[j];
        assert y in multiset(rest);
        if y != x {
          assert y in multiset(s[1..]);
          var k :| 0 <= k < |s[1..]| && s[1..][k] == y;
          assert s[k + 1] == y;
        }
      }
    }
  }

  /** Insertion sort: a permutation of its input. */
  function SortBy<T>(s: seq<T>, le: (T, T) -> bool): (r: seq<T>)
    ensures |r| == |s|
    ensures multiset(r) == multiset(s)
  {
    if s == [] then []
    else
      assert s == [s[0]] + s[1..];
      Insert(s[0], SortBy(s[1..], le), le)
  }

  lemma {:induction false} SortBySorted<T(!new)>(s: seq<T>, le: (T, T) -> bool)
    requires TotalPreorder(le)
    ensures Sorted(SortBy(s, le), le)
  {
    if s != [] {
      SortBySorted(s[1..], le);
      InsertSorted(s[0], SortBy(s[1..], le), le);
    }
  }

  /** Two permutations of each other hold the same elements. */
  lemma SameElements<T>(a: seq<T>, b: seq<T>)
    requires multiset(a) == multiset(b)
    ensures forall x :: x in a <==> x in b
  {
    forall x ensures x in a <==> x in b {
      assert x in a <==> x in multiset(a);
      assert x in b <==> x in multiset(b);
    }
  }

  // ---------------------------------------------------------------- inner JOINs and filters

  /** The inner JOINs on skus and products of every listing: a row whose SKU or product
      row is gone is not listed. */
  predicate Joined(skuId: int, skus: map<int, Sku>, products: map<int, Product>) {
    skuId in skus && skus[skuId].productId in products
  }

  /** `if (sku_id) query += ' WHERE ... sku_id = $1'`; None is an absent or empty parameter. */
  predicate MatchesSku(skuId: int, filter: Option<int>) {
    filter.None? || filter.value == skuId
  }

  // ---------------------------------------------------------------- getStockMovements

  predicate MovementListed(m: Movement, skus: map<int, Sku>, products: map<int, Product>, filter: Option<int>) {
    Joined(m.skuId, skus, products) && MatchesSku(m.skuId, filter)
  }

  /** The newest 100 listed movements, newest first. */
  function ListMovements(movements: seq<Movement>, skus: map<int, Sku>, products: map<int, Product>,
                         filter: Option<int>): (r: seq<Movement>)
    ensures |r| <= 100
    ensures forall m :: m in r ==> m in movements && MovementListed(m, skus, products, filter)
    ensures Chronological(movements, (m: Movement) => m.createdAt) ==>
              forall i, j :: 0 <= i < j < |r| ==> r[i].createdAt > r[j].createdAt
    ensures Chronological(movements, (m: Movement) => m.createdAt) ==>
              forall m :: m in movements && MovementListed(m, skus, products, filter) && m !in r ==>
                |r| == 100 && forall n :: n in r ==> m.createdAt < n.createdAt
  {
    var keep, stamp := (m: Movement) => MovementListed(m, skus, products, filter), (m: Movement) => m.createdAt;
    NewestOrder(movements, keep, stamp, 100);
    Newest(movements, keep, stamp, 100)
  }

  // ---------------------------------------------------------------- getStockAlerts

  /** `if (is_resolved !== undefined) ... is_resolved = (is_resolved === 'true')` */
  predicate AlertListed(a: Alert, skus: map<int, Sku>, products: map<int, Product>, resolved: Option<string>) {
    Joined(a.skuId, skus, products) && (resolved.None? || a.resolved == (resolved.value == "true"))
  }

  /** Every listed alert, newest first. */
  function ListAlerts(alerts: seq<Alert>, skus: map<int, Sku>, products: map<int, Product>,
                      resolved: Option<string>): (r: seq<Alert>)
    ensures forall a :: a in r <==> a in alerts && AlertListed(a, skus, products, resolved)
    ensures Chronological(alerts, (a: Alert) => a.createdAt) ==>
              forall i, j :: 0 <= i < j < |r| ==> r[i].createdAt > r[j].createdAt
  {
    var keep, stamp := (a: Alert) => AlertListed(a, skus, products, resolved), (a: Alert) => a.createdAt;
    NewestComplete(alerts, keep, stamp, |alerts|);
    NewestOrder(alerts, keep, stamp, |alerts|);
    Newest(alerts, keep, stamp, |alerts|)
  }

  // ---------------------------------------------------------------- getBatches

  datatype BatchRow = BatchRow(batch: Batch, status: BatchStatus)

  function WithStatus(bs: seq<Batch>, today: int): (r: seq<BatchRow>)
    ensures |r| == |bs|
    ensures forall i :: 0 <= i < |bs| ==> r[i] == BatchRow(bs[i], BatchStatusOf(bs[i].expiry, today))
    ensures forall row :: row in r <==> row.batch in bs && row.status == BatchStatusOf(row.batch.expiry, today)
    ensures forall b: Batch :: multiset(r)[BatchRow(b, BatchStatusOf(b.expiry, today))] == multiset(bs)[b]
  {
    if bs == [] then []
    else
      assert bs == [bs[0]] + bs[1..];
      [BatchRow(bs[0], BatchStatusOf(bs[0].expiry, today))] + WithStatus(bs[1..], today)
  }

  /** ORDER BY expiry_date ASC, with NULL expiry dates last. */
  predicate ExpiryFirst(a: BatchRow, b: BatchRow) {
    b.batch.expiry.None? || (a.batch.expiry.Some? && a.batch.expiry.value <= b.batch.expiry.value)
  }

  lemma ExpiryFirstTotalPreorder()
    ensures TotalPreorder(ExpiryFirst)
  {
  }

  predicate BatchListed(b: Batch, skus: map<int, Sku>, products: map<int, Product>, filter: Option<int>) {
    Joined(b.skuId, skus, products) && MatchesSku(b.skuId, filter)
  }

  /** The listed batches with their status on `today`, by expiry date. */
  function ListBatches(batches: seq<Batch>, skus: map<int, Sku>, products: map<int, Product>,
                       filter: Option<int>, today: int): (r: seq<BatchRow>)
    ensures forall row :: row in r ==>
              row.batch in batches && BatchListed(row.batch, skus, products, filter)
              && row.status == BatchStatusOf(row.batch.expiry, today)
    ensures forall b :: b in batches && BatchListed(b, skus, products, filter) ==>
              BatchRow(b, BatchStatusOf(b.expiry, today)) in r
    ensures forall b: Batch :: multiset(r)[BatchRow(b, BatchStatusOf(b.expiry, today))]
                        == if BatchListed(b, skus, products, filter) then multiset(batches)[b] else 0
    ensures Sorted(r, ExpiryFirst)
  {
    var listed := Select(batches, (b: Batch) => BatchListed(b, skus, products, filter));
    assert forall b :: b in listed <==> b in batches && BatchListed(b, skus, products, filter);
    var rows := WithStatus(listed, today);
    var r := SortBy(rows, ExpiryFirst);
    ExpiryFirstTotalPreorder();
    SortBySorted(rows, ExpiryFirst);
    SameElements(r, rows);
    r
  }

  // ---------------------------------------------------------------- getAllCategories

  datatype CategoryRow = CategoryRow(category: Category, productCount: nat)

  /** `(SELECT COUNT(*) FROM products WHERE category_id = c.id)` */
  function ProductCount(products: map<int, Product>, categoryId: int): nat {
    |set p | p in products && products[p].categoryId == Some(categoryId)|
  }

  function WithCounts(cs: seq<Category>, products: map<int, Product>): (r: seq<CategoryRow>)
    ensures |r| == |cs|
    ensures forall row :: row in r <==> row.category in cs && row.productCount == ProductCount(products, row.category.id)
  {
    if cs == [] then []
    else
      assert cs == [cs[0]] + cs[1..];
      [CategoryRow(cs[0], ProductCount(products, cs[0].id))] + WithCounts(cs[1..], products)
  }

  /** Names compared character by character (code-point order). */
  predicate NameLe(a: string, b: string) {
    a == [] || (b != [] && (a[0] < b[0] || (a[0] == b[0] && NameLe(a[1..], b[1..]))))
  }

  lemma {:induction false} NameLeTotal(a: string, b: string)
    ensures NameLe(a, b) || NameLe(b, a)
  {
    if a != [] && b != [] && a[0] == b[0] {
      NameLeTotal(a[1..], b[1..]);
    }
  }

  lemma {:induction false} NameLeTransitive(a: string, b: string, c: string)
    requires NameLe(a, b) && NameLe(b, c)
    ensures NameLe(a, c)
  {
    if a != [] && a[0] == b[0] && b[0] == c[0] {
      NameLeTransitive(a[1..], b[1..], c[1..]);
    }
  }

  predicate ByName(x: CategoryRow, y: CategoryRow) {
    NameLe(x.category.name, y.category.name)
  }

  lemma ByNameTotalPreorder()
    ensures TotalPreorder(ByName)
  {
    forall x: CategoryRow, y: CategoryRow ensures ByName(x, y) || ByName(y, x) {
      NameLeTotal(x.category.name, y.category.name);
    }
    forall x: CategoryRow, y: CategoryRow, z: CategoryRow | ByName(x, y) && ByName(y, z)
      ensures ByName(x, z)
    {
      NameLeTransitive(x.category.name, y.category.name, z.category.name);
    }
  }

  /** Every category once, with the number of products filed under it, by name. */
  function ListCategories(categories: seq<Category>, products: map<int, Product>): (r: seq<CategoryRow>)
    ensures |r| == |categories|
    ensures forall row :: row in r ==>
              row.category in categories && row.productCount == ProductCount(products, row.category.id)
    ensures forall c :: c in categories ==> CategoryRow(c, ProductCount(products, c.id)) in r
    ensures Sorted(r, ByName)
  {
    var rows := WithCounts(categories, products);
    ByNameTotalPreorder();
    SortBySorted(rows, ByName);
    SameElements(SortBy(rows, ByName), rows);
    SortBy(rows, ByName)
  }
}
