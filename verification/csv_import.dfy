/** The product CSV import (app.py:411-462): every row with a non-empty `sku` creates or
    updates the product with that sku, finding or creating its category and supplier by
    name, and the whole file is one transaction. */
module CsvImport {
  import opened Common
  import opened Text
  import opened Numbers
  import opened Schema
  import opened Handlers

  /** One CSV row as `csv.DictReader` yields it: a column missing from the header is absent
      from the map; a row shorter than the header holds `None` for the missing cells. */
  type Row = map<string, Option<string>>

  /** `row.get(col)` */
  function Cell(row: Row, col: string): Option<string> {
    if col in row then row[col] else None
  }

  /** `row.get('name', '')`: only a column missing from the header gets the default. */
  function NameCell(row: Row): (r: Option<string>)
    ensures r.None? <==> "name" in row && row["name"].None?
    ensures "name" !in row ==> r == Some("")
  {
    if "name" in row then row["name"] else Some("")
  }

  /** `if not sku: continue` lets the row through only when its sku is a non-empty string. */
  predicate HasSku(row: Row) {
    Cell(row, "sku").Some? && Cell(row, "sku").value != ""
  }

  /** `cell or d` for a text cell. */
  function CellOr(cell: Option<string>, d: string): string {
    if cell.None? || cell.value == "" then d else cell.value
  }

  /** `cell or None` for a text cell. */
  function NonEmpty(cell: Option<string>): Option<string> {
    if cell.None? || cell.value == "" then None else cell
  }

  /** `float(cell or 0)` with `except: 0`. */
  function FloatCell(cell: Option<string>, parseFloat: string -> Option<real>): (v: real)
    ensures cell.Some? && cell.value != "" && parseFloat(cell.value).Some? ==> v == parseFloat(cell.value).value
    ensures v != 0.0 ==> cell.Some? && parseFloat(cell.value) == Some(v)
  {
    match cell
    case None => 0.0
    case Some(s) =>
      if s == "" then 0.0
      else match parseFloat(s)
           case None => 0.0
           case Some(v) => v
  }

  /** `(cell or '').strip()`: the category or supplier name a row asks for. */
  function NameIn(cell: Option<string>): string {
    Strip(OrEmpty(cell))
  }

  /** Links to the category called `name`, adding it when no category has that name; a
      blank name links to nothing and adds nothing. */
  function LinkCategory(categories: map<Id, Category>, name: string): (r: (Option<Id>, map<Id, Category>))
    ensures name == [] ==> r == (None, categories)
    ensures name != [] ==> r.0.Some? && r.0.value in r.1 && r.1[r.0.value].name == name
    ensures name != [] && r.0.value !in categories ==> r.1 == categories[r.0.value := Category(name, None)]
    ensures name != [] && r.0.value in categories ==> r.1 == categories
  {
    if name == [] then (None, categories)
    else match CategoryByName(categories, name)
      case Some(c) => (Some(c), categories)
      case None =>
        var c := NewId(categories);
        (Some(c), categories[c := Category(name, None)])
  }

  /** Links to the supplier called `name`, adding it when no supplier has that name; a
      blank name links to nothing and adds nothing. */
  function LinkSupplier(suppliers: map<Id, Supplier>, name: string): (r: (Option<Id>, map<Id, Supplier>))
    ensures name == [] ==> r == (None, suppliers)
    ensures name != [] ==> r.0.Some? && r.0.value in r.1 && r.1[r.0.value].name == name
    ensures name != [] && r.0.value !in suppliers ==>
      r.1 == suppliers[r.0.value := Supplier(name, None, None, None, None, None, None)]
    ensures name != [] && r.0.value in suppliers ==> r.1 == suppliers
  {
    if name == [] then (None, suppliers)
    else match SupplierByName(suppliers, name)
      case Some(s) => (Some(s), suppliers)
      case None =>
        var s := NewId(suppliers);
        (Some(s), suppliers[s := Supplier(name, None, None, None, None, None, None)])
  }

  /** `Product(sku=sku, name=name)` */
  function NewProduct(sku: string, name: string): Product {
    Product(sku, name, None, None, None, None, None, None, None, None, None)
  }

  /** Finds the product with this sku, adding `Product(sku=sku, name=name)` when there is
      none. */
  function UpsertProduct(products: map<Id, Product>, sku: string, name: string): (r: (Id, map<Id, Product>))
    ensures r.0 in r.1 && r.1[r.0].sku == sku
    ensures r.0 in products <==> ProductBySku(products, sku) == Some(r.0)
    ensures forall q :: q in r.1 <==> q in products || q == r.0
    ensures r.0 in products ==> r.1 == products
    ensures r.0 !in products ==> r.1 == products[r.0 := NewProduct(sku, name)]
  {
    match ProductBySku(products, sku)
    case Some(id) => (id, products)
    case None =>
      var id := NewId(products);
      (id, products[id := NewProduct(sku, name)])
  }

  /** The values a row writes into its product besides the name and the links, after
      the `or` defaults and the `int()` / `float()` fallbacks. */
  datatype Fields = Fields(
    unit: string, vat: int, cost: real, price: real, stockQty: int, minStock: int,
    notes: Option<string>)

  function RowFields(row: Row, parseFloat: string -> Option<real>): (f: Fields)
    ensures f.unit != ""
    ensures f.notes.None? || f.notes.value != ""
  {
    Fields(
      CellOr(Cell(row, "unit"), "pezzi"),
      IntCell(Cell(row, "vat")),
      FloatCell(Cell(row, "cost"), parseFloat),
      FloatCell(Cell(row, "price"), parseFloat),
      IntCell(Cell(row, "stock_qty")),
      IntCell(Cell(row, "min_stock")),
      NonEmpty(Cell(row, "notes")))
  }

  /** The product after the row's cells are written into it; a link the row leaves blank
      keeps its old value. */
  function Refresh(p: Product, name: string, cat: Option<Id>, sup: Option<Id>, f: Fields): Product {
    p.(name := name,
       categoryId := if cat.Some? then cat else p.categoryId,
       supplierId := if sup.Some? then sup else p.supplierId,
       unit := Some(f.unit), vat := Some(f.vat), cost := Some(f.cost), price := Some(f.price),
       stockQty := Some(f.stockQty), minStock := Some(f.minStock), notes := f.notes)
  }

  /** The product holds this sku, name and these values. */
  predicate Holds(p: Product, sku: string, name: string, f: Fields) {
    && p.sku == sku && p.name == name
    && p.unit == Some(f.unit) && p.vat == Some(f.vat) && p.cost == Some(f.cost)
    && p.price == Some(f.price) && p.stockQty == Some(f.stockQty) && p.minStock == Some(f.minStock)
    && p.notes == f.notes
  }

  /** Writes one product by sku, linking it to the categories and suppliers named. */
  function Upsert(db: Db, sku: string, name: string, catName: string, supName: string, f: Fields): (d: Db)
    ensures d.lots == db.lots && d.items == db.items && d.priceLists == db.priceLists
    ensures UpsertProduct(db.products, sku, name).0 in d.products
    ensures Holds(d.products[UpsertProduct(db.products, sku, name).0], sku, name, f)
    ensures forall q :: q in db.products ==> q in d.products
  {
    var up := UpsertProduct(db.products, sku, name);
    var lc := LinkCategory(db.categories, catName);
    var ls := LinkSupplier(db.suppliers, supName);
    db.(products := up.1[up.0 := Refresh(up.1[up.0], name, lc.0, ls.0, f)], categories := lc.1, suppliers := ls.1)
  }

  /** One pass of the loop body: the new database and whether the row was counted. A
      skipped row changes nothing; a row whose name cell is `None` breaks the NOT NULL
      constraint on the product name, which aborts the import. */
  function ImportRow(db: Db, row: Row, parseFloat: string -> Option<real>): (r: Result<(Db, bool), Error>)
    ensures !HasSku(row) ==> r == Success((db, false))
    ensures HasSku(row) ==> (r.Failure? <==> NameCell(row).None?)
    ensures r.Failure? ==> r.error == NullName
    ensures r.Success? ==> r.value.1 == HasSku(row)
    ensures r.Success? ==>
      var d := r.value.0;
      d.lots == db.lots && d.items == db.items && d.priceLists == db.priceLists
  {
    if !HasSku(row) then Success((db, false))
    else match NameCell(row)
    case None => Failure(NullName)
    case Some(name) =>
      var d := Upsert(db, Cell(row, "sku").value, name, NameIn(Cell(row, "category")),
                      NameIn(Cell(row, "supplier")), RowFields(row, parseFloat));
      Success((d, true))
  }

  /** A row with a sku and a name writes the product holding that sku: the name, the
      unit or `pezzi` when the unit cell is blank, the numbers as `int()` and `float()`
      read them (0 when they fail), and the notes or NULL when they are blank. */
  lemma ImportRowWrites(db: Db, row: Row, parseFloat: string -> Option<real>)
    requires HasSku(row) && NameCell(row).Some?
    ensures var r := ImportRow(db, row, parseFloat);
      var pid := UpsertProduct(db.products, Cell(row, "sku").value, NameCell(row).value).0;
      && r.Success? && pid in r.value.0.products
      && var p := r.value.0.products[pid];
      && p.sku == Cell(row, "sku").value && p.name == NameCell(row).value
      && p.unit == Some(if Filled(Cell(row, "unit")) then Cell(row, "unit").value else "pezzi")
      && p.notes == (if Filled(Cell(row, "notes")) then Cell(row, "notes") else None)
      && p.vat == Some(IntCell(Cell(row, "vat")))
      && p.stockQty == Some(IntCell(Cell(row, "stock_qty")))
      && p.minStock == Some(IntCell(Cell(row, "min_stock")))
      && p.cost == Some(FloatCell(Cell(row, "cost"), parseFloat))
      && p.price == Some(FloatCell(Cell(row, "price"), parseFloat))
  {
    var sku := Cell(row, "sku").value;
    var name := NameCell(row).value;
    var f := RowFields(row, parseFloat);
    UpsertWrites(db, sku, name, NameIn(Cell(row, "category")), NameIn(Cell(row, "supplier")), f);
  }

  /** The cell holds a non-empty string: what Python's `or` keeps. */
  predicate Filled(cell: Option<string>) {
    cell.Some? && cell.value != ""
  }

  /** The link a blank cell leaves in place: the product's old one, or none for a new
      product. */
  function KeptCategory(db: Db, pid: Id): Option<Id> {
    if pid in db.products then db.products[pid].categoryId else None
  }

  function KeptSupplier(db: Db, pid: Id): Option<Id> {
    if pid in db.products then db.products[pid].supplierId else None
  }

  /** A category is added only when no category has the name, so names stay unique. */
  lemma LinkCategoryUnique(categories: map<Id, Category>, name: string)
    ensures var r := LinkCategory(categories, name);
      && (name != [] && r.0.value !in categories ==> forall c :: c in categories ==> categories[c].name != name)
      && (UniqueCategoryNames(categories) ==> UniqueCategoryNames(r.1))
  {
  }

  /** A supplier is added only when no supplier has the name, so names stay unique. */
  lemma LinkSupplierUnique(suppliers: map<Id, Supplier>, name: string)
    ensures var r := LinkSupplier(suppliers, name);
      && (name != [] && r.0.value !in suppliers ==> forall s :: s in suppliers ==> suppliers[s].name != name)
      && (UniqueSupplierNames(suppliers) ==> UniqueSupplierNames(r.1))
  {
  }

  /** A product is added only when no product has the sku, so skus stay unique. */
  lemma UpsertProductUnique(products: map<Id, Product>, sku: string, name: string)
    ensures var r := UpsertProduct(products, sku, name);
      && (r.0 !in products ==> forall q :: q in products ==> products[q].sku != sku)
      && (UniqueSkus(products) ==> UniqueSkus(r.1))
  {
  }

  /** Writing a product by sku keeps the database valid: skus and category and supplier
      names stay unique, and every link points at an existing row. */
  lemma UpsertPreservesValid(db: Db, sku: string, name: string, catName: string, supName: string, f: Fields)
    requires Valid(db)
    ensures Valid(Upsert(db, sku, name, catName, supName, f))
  {
    var up := UpsertProduct(db.products, sku, name);
    var lc := LinkCategory(db.categories, catName);
    var ls := LinkSupplier(db.suppliers, supName);
    UpsertProductUnique(db.products, sku, name);
    LinkCategoryUnique(db.categories, catName);
    LinkSupplierUnique(db.suppliers, supName);
    ValidAfterUpsert(db, up.0, up.1, Refresh(up.1[up.0], name, lc.0, ls.0, f), lc.1, ls.1);
  }

  /** Writing product `pid` and growing the category and supplier tables keeps the
      database valid, provided the sku stays unique and the product's links resolve. */
  lemma ValidAfterUpsert(db: Db, pid: Id, products: map<Id, Product>, p: Product,
                         categories: map<Id, Category>, suppliers: map<Id, Supplier>)
    requires Valid(db)
    requires forall q :: q in products <==> q in db.products || q == pid
    requires forall q :: q in db.products && q != pid ==> products[q] == db.products[q]
    requires UniqueSkus(products) && p.sku == products[pid].sku
    requires db.categories.Keys <= categories.Keys && UniqueCategoryNames(categories)
    requires db.suppliers.Keys <= suppliers.Keys && UniqueSupplierNames(suppliers)
    requires LinkOk(p.categoryId, categories) && LinkOk(p.supplierId, suppliers)
    ensures Valid(db.(products := products[pid := p], categories := categories, suppliers := suppliers))
  {
    var d := db.(products := products[pid := p], categories := categories, suppliers := suppliers);
    assert UniqueSkus(d.products) by {
      forall a, b | a in d.products && b in d.products && d.products[a].sku == d.products[b].sku
        ensures a == b
      {
        assert d.products[a].sku == products[a].sku && d.products[b].sku == products[b].sku;
      }
    }
    assert ProductLinksValid(d) by {
      forall q | q in d.products
        ensures LinkOk(d.products[q].categoryId, d.categories) && LinkOk(d.products[q].supplierId, d.suppliers)
      {
        if q != pid {
          assert q in db.products;
        }
      }
    }
  }

  /** Writing a product by sku touches one product: the one that had the sku, or a new
      one when none had it. Every other product stays as it was. */
  lemma UpsertTouchesOne(db: Db, sku: string, name: string, catName: string, supName: string, f: Fields)
    ensures
      var pid := UpsertProduct(db.products, sku, name).0;
      var d := Upsert(db, sku, name, catName, supName, f);
      && (pid in db.products <==> ProductBySku(db.products, sku) == Some(pid))
      && (pid !in db.products ==> forall q :: q in db.products ==> db.products[q].sku != sku)
      && (forall q :: q in d.products <==> q in db.products || q == pid)
      && (forall q :: q in db.products && q != pid ==> d.products[q] == db.products[q])
  {
    UpsertProductUnique(db.products, sku, name);
    var up := UpsertProduct(db.products, sku, name);
    var d := Upsert(db, sku, name, catName, supName, f);
    assert d.products == up.1[up.0 := d.products[up.0]];
  }

  /** Categories and suppliers are only added: the existing ones keep their ids and
      names. */
  lemma UpsertKeepsNames(db: Db, sku: string, name: string, catName: string, supName: string, f: Fields)
    ensures
      var d := Upsert(db, sku, name, catName, supName, f);
      && (forall c :: c in db.categories ==> c in d.categories && d.categories[c] == db.categories[c])
      && (forall s :: s in db.suppliers ==> s in d.suppliers && d.suppliers[s] == db.suppliers[s])
  {
  }

  /** The product written holds the sku, the name and the row's values, and is linked to
      the category and supplier named, or keeps its old links where the name is blank. */
  lemma UpsertWrites(db: Db, sku: string, name: string, catName: string, supName: string, f: Fields)
    ensures
      var pid := UpsertProduct(db.products, sku, name).0;
      var d := Upsert(db, sku, name, catName, supName, f);
      && pid in d.products
      && Holds(d.products[pid], sku, name, f)
      && (catName != [] ==> CategoryName(d, d.products[pid]) == Some(catName))
      && (catName == [] ==> d.products[pid].categoryId == KeptCategory(db, pid))
      && (supName != [] ==> SupplierName(d, d.products[pid]) == Some(supName))
      && (supName == [] ==> d.products[pid].supplierId == KeptSupplier(db, pid))
  {
    var up := UpsertProduct(db.products, sku, name);
    if up.0 in db.products {
      assert up.1[up.0] == db.products[up.0];
    }
  }

  /** Importing a row keeps the database valid. */
  lemma ImportRowPreservesValid(db: Db, row: Row, parseFloat: string -> Option<real>)
    requires Valid(db)
    ensures ImportRow(db, row, parseFloat).Success? ==> Valid(ImportRow(db, row, parseFloat).value.0)
  {
    if HasSku(row) && NameCell(row).Some? {
      UpsertPreservesValid(db, Cell(row, "sku").value, NameCell(row).value, NameIn(Cell(row, "category")),
                           NameIn(Cell(row, "supplier")), RowFields(row, parseFloat));
    }
  }

  /** A row that aborts the import: it has a sku but its name cell is `None`. */
  predicate Aborts(row: Row) {
    HasSku(row) && NameCell(row).None?
  }

  predicate SomeRowAborts(rows: seq<Row>) {
    exists i :: 0 <= i < |rows| && Aborts(rows[i])
  }

  /** The loop over the rows, in file order: the database after the rows and the number
      of rows counted, or the error of the first row that aborts. */
  function ImportAll(db: Db, rows: seq<Row>, parseFloat: string -> Option<real>): (r: Result<(Db, nat), Error>)
    ensures r.Success? ==> r.value.1 <= |rows|
    decreases |rows|
  {
    if rows == [] then Success((db, 0))
    else ImportNext(ImportAll(db, rows[..|rows| - 1], parseFloat), rows[|rows| - 1], parseFloat)
  }

  /** One turn of the loop: the next row applied to the database and count so far; an
      earlier failure stays. */
  function ImportNext(acc: Result<(Db, nat), Error>, row: Row, parseFloat: string -> Option<real>): (r: Result<(Db, nat), Error>)
    ensures acc.Failure? ==> r == acc
    ensures r.Success? ==> acc.Success? && acc.value.1 <= r.value.1 <= acc.value.1 + 1
  {
    if acc.Failure? then acc
    else
      var r := ImportRow(acc.value.0, row, parseFloat);
      if r.Failure? then Failure(r.error)
      else Success((r.value.0, if r.value.1 then acc.value.1 + 1 else acc.value.1))
  }

  /** The import of rows followed by one more row is one more turn of the loop. */
  lemma ImportAllAppend(db: Db, rows: seq<Row>, row: Row, parseFloat: string -> Option<real>)
    ensures ImportAll(db, rows + [row], parseFloat) == ImportNext(ImportAll(db, rows, parseFloat), row, parseFloat)
  {
    var all := rows + [row];
    assert all[..|all| - 1] == rows;
  }

  /** A turn of the loop on a row that is written and counted. */
  lemma ImportNextCounts(acc: Result<(Db, nat), Error>, row: Row, parseFloat: string -> Option<real>)
    requires acc.Success?
    requires ImportRow(acc.value.0, row, parseFloat).Success? && ImportRow(acc.value.0, row, parseFloat).value.1
    ensures var r := ImportNext(acc, row, parseFloat);
      && r.Success? && r.value.1 == acc.value.1 + 1
      && r.value.0 == ImportRow(acc.value.0, row, parseFloat).value.0
  {
  }

  /** The import handler: the rows are applied and committed together; when one row
      aborts, nothing is committed. */
  function ImportProducts(db: Db, rows: seq<Row>, parseFloat: string -> Option<real>): (e: Effect<nat>)
    ensures e.reply.Failure? ==> e.db == db && e.reply.error == NullName
    ensures e.reply.Success? ==> e.db.lots == db.lots && e.db.items == db.items && e.db.priceLists == db.priceLists
  {
    ImportAllKeepsOthers(db, rows, parseFloat);
    match ImportAll(db, rows, parseFloat)
    case Failure(e) => Effect(db, Failure(e))
    case Success((d, n)) => Effect(d, Success(n))
  }

  /** The import leaves lots, price lists and their items alone, and only fails with
      `NullName`. */
  lemma {:induction false} ImportAllKeepsOthers(db: Db, rows: seq<Row>, parseFloat: string -> Option<real>)
    ensures var r := ImportAll(db, rows, parseFloat);
      && (r.Failure? ==> r.error == NullName)
      && (r.Success? ==> r.value.0.lots == db.lots && r.value.0.items == db.items && r.value.0.priceLists == db.priceLists)
    decreases |rows|
  {
    if rows != [] {
      ImportAllKeepsOthers(db, rows[..|rows| - 1], parseFloat);
    }
  }

  /** The import fails exactly when some row aborts. */
  lemma {:induction false} ImportAllFailsIff(db: Db, rows: seq<Row>, parseFloat: string -> Option<real>)
    ensures ImportAll(db, rows, parseFloat).Failure? <==> SomeRowAborts(rows)
    decreases |rows|
  {
    if rows != [] {
      ImportAllFailsIff(db, rows[..|rows| - 1], parseFloat);
      AbortsSnoc(rows);
    }
  }

  lemma AbortsSnoc(rows: seq<Row>)
    requires rows != []
    ensures SomeRowAborts(rows) <==> SomeRowAborts(rows[..|rows| - 1]) || Aborts(rows[|rows| - 1])
  {
    var front := rows[..|rows| - 1];
    if exists i :: 0 <= i < |rows| && Aborts(rows[i]) {
      var i :| 0 <= i < |rows| && Aborts(rows[i]);
      if i < |rows| - 1 {
        assert front[i] == rows[i];
      }
    }
    if exists i :: 0 <= i < |front| && Aborts(front[i]) {
      var i :| 0 <= i < |front| && Aborts(front[i]);
      assert rows[i] == front[i];
    }
  }

  /** The indices of the rows that have a sku. */
  function SkuRows(rows: seq<Row>): set<int> {
    set i | 0 <= i < |rows| && HasSku(rows[i])
  }

  /** The count the import reports is the number of rows with a sku: a sku that appears
      twice is counted twice. */
  lemma {:induction false} ImportAllCount(db: Db, rows: seq<Row>, parseFloat: string -> Option<real>)
    requires ImportAll(db, rows, parseFloat).Success?
    ensures ImportAll(db, rows, parseFloat).value.1 == |SkuRows(rows)|
    decreases |rows|
  {
    if rows != [] {
      var front := rows[..|rows| - 1];
      ImportAllCount(db, front, parseFloat);
      SkuRowsSnoc(rows);
    }
  }

  lemma SkuRowsSnoc(rows: seq<Row>)
    requires rows != []
    ensures |SkuRows(rows)| == |SkuRows(rows[..|rows| - 1])| + if HasSku(rows[|rows| - 1]) then 1 else 0
  {
    var front := rows[..|rows| - 1];
    var last := |rows| - 1;
    assert SkuRows(front) == set i | 0 <= i < last && HasSku(rows[i]);
    if HasSku(rows[last]) {
      assert SkuRows(rows) == SkuRows(front) + {last};
    } else {
      assert SkuRows(rows) == SkuRows(front);
    }
  }

  /** The import keeps the database valid. */
  lemma {:induction false} ImportAllPreservesValid(db: Db, rows: seq<Row>, parseFloat: string -> Option<real>)
    requires Valid(db)
    ensures ImportAll(db, rows, parseFloat).Success? ==> Valid(ImportAll(db, rows, parseFloat).value.0)
    decreases |rows|
  {
    if rows != [] {
      var front := rows[..|rows| - 1];
      ImportAllPreservesValid(db, front, parseFloat);
      if ImportAll(db, front, parseFloat).Success? {
        ImportRowPreservesValid(ImportAll(db, front, parseFloat).value.0, rows[|rows| - 1], parseFloat);
      }
    }
  }

  /** After a product is written by sku, looking the sku up again finds that product,
      so a later row with the same sku adds no product. */
  lemma UpsertFindsWritten(db: Db, sku: string, name: string, catName: string, supName: string, f: Fields,
                           name': string)
    requires Valid(db)
    ensures var d := Upsert(db, sku, name, catName, supName, f);
      UpsertProduct(d.products, sku, name') == (UpsertProduct(db.products, sku, name).0, d.products)
  {
    var d := Upsert(db, sku, name, catName, supName, f);
    var pid := UpsertProduct(db.products, sku, name).0;
    UpsertPreservesValid(db, sku, name, catName, supName, f);
    UpsertWrites(db, sku, name, catName, supName, f);
    var found := ProductBySku(d.products, sku);
    assert d.products[pid].sku == sku;
    assert found == Some(pid);
  }

  /** Writing the same row twice is the same as writing it once. */
  lemma UpsertIdempotent(db: Db, sku: string, name: string, catName: string, supName: string, f: Fields)
    requires Valid(db)
    ensures var d := Upsert(db, sku, name, catName, supName, f);
      Upsert(d, sku, name, catName, supName, f) == d
  {
    var d := Upsert(db, sku, name, catName, supName, f);
    var pid := UpsertProduct(db.products, sku, name).0;
    UpsertFindsWritten(db, sku, name, catName, supName, f, name);
    UpsertPreservesValid(db, sku, name, catName, supName, f);
    var lc := LinkCategory(db.categories, catName);
    var ls := LinkSupplier(db.suppliers, supName);
    var lc' := LinkCategory(d.categories, catName);
    var ls' := LinkSupplier(d.suppliers, supName);
    if catName != [] {
      assert CategoryByName(d.categories, catName) == lc.0;
    }
    if supName != [] {
      assert SupplierByName(d.suppliers, supName) == ls.0;
    }
    assert lc' == (lc.0, d.categories);
    assert ls' == (ls.0, d.suppliers);
    assert Refresh(d.products[pid], name, lc.0, ls.0, f) == d.products[pid];
    assert d.products[pid := d.products[pid]] == d.products;
  }

  /** Importing the same row twice leaves the database as importing it once. */
  lemma ImportRowIdempotent(db: Db, row: Row, parseFloat: string -> Option<real>)
    requires Valid(db) && ImportRow(db, row, parseFloat).Success?
    ensures var d := ImportRow(db, row, parseFloat).value.0;
      ImportRow(d, row, parseFloat) == ImportRow(db, row, parseFloat)
  {
    if HasSku(row) {
      UpsertIdempotent(db, Cell(row, "sku").value, NameCell(row).value, NameIn(Cell(row, "category")),
                       NameIn(Cell(row, "supplier")), RowFields(row, parseFloat));
    }
  }

  /** Two rows with the same sku update one product: the second adds no product. Both
      are counted. */
  lemma SameSkuTouchesOneProduct(db: Db, first: Row, second: Row, parseFloat: string -> Option<real>)
    requires Valid(db)
    requires HasSku(first) && HasSku(second) && Cell(first, "sku") == Cell(second, "sku")
    requires NameCell(first).Some? && NameCell(second).Some?
    ensures var r := ImportAll(db, [first, second], parseFloat);
      && r.Success? && r.value.1 == 2
      && var d1 := ImportRow(db, first, parseFloat).value.0;
      forall q :: q in r.value.0.products <==> q in d1.products
  {
    var rows := [first, second];
    assert rows[..1] == [first] && [first][..0] == [];
    var d1 := ImportRow(db, first, parseFloat).value.0;
    assert ImportAll(db, [first], parseFloat) == Success((d1, 1));
    var d2 := ImportRow(d1, second, parseFloat).value.0;
    assert ImportAll(db, rows, parseFloat) == Success((d2, 2));
    var sku := Cell(first, "sku").value;
    UpsertFindsWritten(db, sku, NameCell(first).value, NameIn(Cell(first, "category")),
                       NameIn(Cell(first, "supplier")), RowFields(first, parseFloat), NameCell(second).value);
    UpsertTouchesOne(d1, sku, NameCell(second).value, NameIn(Cell(second, "category")),
                     NameIn(Cell(second, "supplier")), RowFields(second, parseFloat));
  }
}
