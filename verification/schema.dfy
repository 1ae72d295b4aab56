/** The inventory database as a value: one map from row id to record per table
    (app.py:59-121), the integrity the schema and the handlers maintain, and the keyed
    lookups (`filter_by(...).first()`) and fresh row ids the handlers use. */
module Schema {
  import opened Common

  /** Row ids (integer primary keys). */
  type Id = int

  /** A calendar date as a day number; later dates are larger. */
  type Day = int

  datatype Supplier = Supplier(
    name: string,
    vatNumber: Option<string>,
    taxCode: Option<string>,
    email: Option<string>,
    phone: Option<string>,
    address: Option<string>,
    notes: Option<string>)

  datatype Category = Category(name: string, description: Option<string>)

  /** Cost and price are floats in the source; here they are reals. */
  datatype Product = Product(
    sku: string,
    name: string,
    categoryId: Option<Id>,
    supplierId: Option<Id>,
    unit: Option<string>,
    vat: Option<int>,
    cost: Option<real>,
    price: Option<real>,
    stockQty: Option<int>,
    minStock: Option<int>,
    notes: Option<string>)

  datatype PriceList = PriceList(
    name: string,
    channel: Option<string>,
    currency: Option<string>,
    notes: Option<string>)

  datatype PriceListItem = PriceListItem(priceListId: Id, productId: Id, price: real)

  datatype Lot = Lot(
    productId: Id,
    lotCode: string,
    expiry: Option<Day>,
    qty: Option<int>,
    notes: Option<string>)

  datatype Db = Db(
    suppliers: map<Id, Supplier>,
    categories: map<Id, Category>,
    products: map<Id, Product>,
    priceLists: map<Id, PriceList>,
    items: map<Id, PriceListItem>,
    lots: map<Id, Lot>)

  const EmptyDb := Db(map[], map[], map[], map[], map[], map[])

  // ---------------------------------------------------------------------------
  // Integrity: foreign keys (app.py:80-81, 106-107, 115) and unique columns
  // (app.py:61, 72, 78, 97), plus at most one price per (list, product) pair.

  predicate LinkOk<T>(ref: Option<Id>, table: map<Id, T>) {
    ref.None? || ref.value in table
  }

  ghost predicate ProductLinksValid(db: Db) {
    forall p :: p in db.products ==>
      LinkOk(db.products[p].categoryId, db.categories) && LinkOk(db.products[p].supplierId, db.suppliers)
  }

  ghost predicate LotsValid(db: Db) {
    forall l :: l in db.lots ==> db.lots[l].productId in db.products
  }

  ghost predicate ItemsValid(db: Db) {
    forall i :: i in db.items ==>
      db.items[i].productId in db.products && db.items[i].priceListId in db.priceLists
  }

  ghost predicate UniqueSkus(products: map<Id, Product>) {
    forall a, b :: a in products && b in products && products[a].sku == products[b].sku ==> a == b
  }

  ghost predicate UniqueCategoryNames(categories: map<Id, Category>) {
    forall a, b :: a in categories && b in categories && categories[a].name == categories[b].name ==> a == b
  }

  ghost predicate UniqueSupplierNames(suppliers: map<Id, Supplier>) {
    forall a, b :: a in suppliers && b in suppliers && suppliers[a].name == suppliers[b].name ==> a == b
  }

  ghost predicate UniquePriceListNames(priceLists: map<Id, PriceList>) {
    forall a, b :: a in priceLists && b in priceLists && priceLists[a].name == priceLists[b].name ==> a == b
  }

  ghost predicate OneItemPerPair(items: map<Id, PriceListItem>) {
    forall a, b ::
      a in items && b in items
      && items[a].priceListId == items[b].priceListId && items[a].productId == items[b].productId
      ==> a == b
  }

  ghost predicate Valid(db: Db) {
    && ProductLinksValid(db) && LotsValid(db) && ItemsValid(db)
    && UniqueSkus(db.products) && UniqueCategoryNames(db.categories)
    && UniqueSupplierNames(db.suppliers) && UniquePriceListNames(db.priceLists)
    && OneItemPerPair(db.items)
  }

  // ---------------------------------------------------------------------------
  // Row ids in ascending order, first match, fresh id.

  ghost predicate Increasing(s: seq<Id>) {
    forall i, j :: 0 <= i < j < |s| ==> s[i] < s[j]
  }

  lemma {:induction false} MinExists(s: set<Id>)
    requires s != {}
    ensures exists m :: m in s && forall x :: x in s ==> m <= x
  {
    var y := PickOne(s);
    if s != {y} {
      var z := PickOne(s - {y});
      MinExists(s - {y});
      var m :| m in s - {y} && forall x :: x in s - {y} ==> m <= x;
      assert forall x :: x in s ==> x == y || x in s - {y};
    } else {
      assert forall x :: x in s ==> y <= x;
    }
  }

  lemma PickOne(s: set<Id>) returns (y: Id)
    requires s != {}
    ensures y in s
  {
    if forall x :: x !in s {
      assert false;
    }
    y :| y in s;
  }

  /** The ids of a table in ascending order: the order a scan of the table visits them. */
  function SortedIds(s: set<Id>): (r: seq<Id>)
    ensures Increasing(r)
    ensures forall x :: x in r <==> x in s
    decreases |s|
  {
    if s == {} then []
    else
      MinExists(s);
      var m :| m in s && forall x :: x in s ==> m <= x;
      [m] + SortedIds(s - {m})
  }

  /** Every id of the table is visited exactly once. */
  lemma {:induction false} SortedIdsOnce(s: set<Id>)
    ensures multiset(SortedIds(s)) == multiset(s)
    decreases |s|
  {
    if s != {} {
      var r := SortedIds(s);
      var m := r[0];
      assert r[1..] == SortedIds(s - {m});
      SortedIdsOnce(s - {m});
      assert r == [m] + r[1..];
      assert s == {m} + (s - {m});
    }
  }

  function FirstIn<T>(ids: seq<Id>, table: map<Id, T>, P: T -> bool): (r: Option<Id>)
    requires forall i :: 0 <= i < |ids| ==> ids[i] in table
    ensures r.Some? ==> r.value in table && P(table[r.value])
    ensures r.None? ==> forall i :: 0 <= i < |ids| ==> !P(table[ids[i]])
  {
    if ids == [] then None
    else if P(table[ids[0]]) then Some(ids[0])
    else FirstIn(ids[1..], table, P)
  }

  /** `Table.query.filter(P).first()`: some row satisfying `P`, or `None` when no row does. */
  function FindRow<T>(table: map<Id, T>, P: T -> bool): (r: Option<Id>)
    ensures r.Some? ==> r.value in table && P(table[r.value])
    ensures r.None? ==> forall x :: x in table ==> !P(table[x])
  {
    var ids := SortedIds(table.Keys);
    var r := FirstIn(ids, table, P);
    assert r.None? ==> forall x :: x in table ==> !P(table[x]) by {
      if r.None? {
        forall x | x in table ensures !P(table[x]) {
          var i :| 0 <= i < |ids| && ids[i] == x;
        }
      }
    }
    r
  }

  /** A fresh row id: one more than the largest in use (SQLite's rowid choice), 1 for
      an empty table. */
  function NewId<T>(table: map<Id, T>): (r: Id)
    ensures r !in table && r >= 1
    ensures forall x :: x in table ==> x < r
  {
    var ids := SortedIds(table.Keys);
    if ids == [] then 1
    else
      var top := ids[|ids| - 1];
      assert forall x :: x in table ==> x <= top by {
        forall x | x in table ensures x <= top {
          var i :| 0 <= i < |ids| && ids[i] == x;
          assert i == |ids| - 1 || ids[i] < top;
        }
      }
      if top < 1 then 1 else top + 1
  }

  /** `Product.query.filter_by(sku=sku).first()` */
  function ProductBySku(products: map<Id, Product>, sku: string): (r: Option<Id>)
    ensures r.Some? ==> r.value in products && products[r.value].sku == sku
    ensures r.None? ==> forall x :: x in products ==> products[x].sku != sku
  {
    FindRow(products, (p: Product) => p.sku == sku)
  }

  /** `Category.query.filter_by(name=name).first()` */
  function CategoryByName(categories: map<Id, Category>, name: string): (r: Option<Id>)
    ensures r.Some? ==> r.value in categories && categories[r.value].name == name
    ensures r.None? ==> forall x :: x in categories ==> categories[x].name != name
  {
    FindRow(categories, (c: Category) => c.name == name)
  }

  /** `Supplier.query.filter_by(name=name).first()` */
  function SupplierByName(suppliers: map<Id, Supplier>, name: string): (r: Option<Id>)
    ensures r.Some? ==> r.value in suppliers && suppliers[r.value].name == name
    ensures r.None? ==> forall x :: x in suppliers ==> suppliers[x].name != name
  {
    FindRow(suppliers, (s: Supplier) => s.name == name)
  }

  /** `PriceListItem.query.filter_by(price_list_id=list, product_id=product).first()` */
  function ItemFor(items: map<Id, PriceListItem>, list: Id, product: Id): (r: Option<Id>)
    ensures r.Some? ==> r.value in items && items[r.value].priceListId == list && items[r.value].productId == product
    ensures r.None? ==> forall x :: x in items ==> !(items[x].priceListId == list && items[x].productId == product)
  {
    FindRow(items, (it: PriceListItem) => it.priceListId == list && it.productId == product)
  }

  /** The ids of the items priced for one (list, product) pair. */
  ghost function ItemsFor(items: map<Id, PriceListItem>, list: Id, product: Id): set<Id> {
    set x | x in items && items[x].priceListId == list && items[x].productId == product
  }

  /** The name of a product's category, if it has one. */
  function CategoryName(db: Db, p: Product): Option<string> {
    if p.categoryId.Some? && p.categoryId.value in db.categories
    then Some(db.categories[p.categoryId.value].name) else None
  }

  /** The name of a product's supplier, if it has one. */
  function SupplierName(db: Db, p: Product): Option<string> {
    if p.supplierId.Some? && p.supplierId.value in db.suppliers
    then Some(db.suppliers[p.supplierId.value].name) else None
  }
}
