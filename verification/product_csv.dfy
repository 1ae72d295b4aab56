/** The product CSV export (app.py:396-409) and how it reads back through the import
    (app.py:411-462): a file exported and imported again into the same database leaves
    every exported row as it was, given the conditions stated on the round-trip lemma. */
module ProductCsv {
  import opened Common
  import opened Text
  import opened Numbers
  import opened Queries
  import opened Schema
  import opened CsvImport
  import opened Reports

  /** One exported line, in the header's column order: `sku, name, category, supplier,
      unit, vat, cost, price, stock_qty, min_stock, notes`. */
  datatype ExportRow = ExportRow(
    sku: string, name: string, category: string, supplier: string, unit: string,
    vat: int, cost: real, price: real, stockQty: int, minStock: int, notes: string)

  /** `(p.notes or '').replace('\n', ' ')[:500]` */
  function Sanitize(notes: Option<string>): (r: string)
    ensures |r| <= 500
    ensures forall i :: 0 <= i < |r| ==> r[i] != '\n'
  {
    Clip(NewlinesToSpaces(OrEmpty(notes)), 500)
  }

  /** Notes as the export writes them: within 500 characters and without `'\n'`. */
  predicate CleanNotes(notes: string) {
    |notes| <= 500 && forall i :: 0 <= i < |notes| ==> notes[i] != '\n'
  }

  /** Notes without line breaks and within 500 characters are exported as they are. */
  lemma SanitizeKeepsClean(notes: string)
    requires CleanNotes(notes)
    ensures Sanitize(Some(notes)) == notes
  {
    assert NewlinesToSpaces(notes) == notes;
  }

  /** Sanitizing notes that were already sanitized changes nothing. */
  lemma SanitizeIdempotent(notes: Option<string>)
    ensures Sanitize(Some(Sanitize(notes))) == Sanitize(notes)
  {
    SanitizeKeepsClean(Sanitize(notes));
  }

  /** The exported line of one product: NULLs become empty text or 0, and the category
      and supplier are shown by name. */
  function ExportRowOf(db: Db, pid: Id): (r: ExportRow)
    requires pid in db.products
    ensures |r.notes| <= 500 && forall i :: 0 <= i < |r.notes| ==> r.notes[i] != '\n'
    ensures r.sku == db.products[pid].sku && r.name == db.products[pid].name
  {
    var p := db.products[pid];
    ExportRow(p.sku, p.name, OrEmpty(CategoryName(db, p)), OrEmpty(SupplierName(db, p)),
              OrEmpty(p.unit), OrZero(p.vat), OrZeroReal(p.cost), OrZeroReal(p.price),
              OrZero(p.stockQty), OrZero(p.minStock), Sanitize(p.notes))
  }

  /** `Product.query.order_by(Product.name.asc())`: every product once, by name. */
  function ExportOrder(db: Db): (r: seq<Id>)
    ensures multiset(r) == multiset(db.products.Keys)
    ensures forall i :: 0 <= i < |r| ==> r[i] in db.products
    ensures forall i, j :: 0 <= i < j < |r| ==> StrLe(NameKey(db, r[i]), NameKey(db, r[j]))
  {
    var ids := SortedIds(db.products.Keys);
    SortedIdsOnce(db.products.Keys);
    var r := ByName(db, ids);
    SameMembers(ids, r, db.products.Keys);
    r
  }

  lemma SameMembers(a: seq<Id>, b: seq<Id>, s: set<Id>)
    requires multiset(a) == multiset(b)
    requires forall x :: x in a ==> x in s
    ensures forall i :: 0 <= i < |b| ==> b[i] in s
  {
    forall i | 0 <= i < |b| ensures b[i] in s {
      var x := b[i];
      assert x in multiset(b);
      assert x in a;
    }
  }

  /** The export: one line per product, every product once, by name. */
  function ExportProducts(db: Db): (rows: seq<ExportRow>)
    ensures |rows| == |db.products|
    ensures forall i, j :: 0 <= i < j < |rows| ==> StrLe(rows[i].name, rows[j].name)
    ensures forall i :: 0 <= i < |rows| ==> rows[i] == ExportRowOf(db, ExportOrder(db)[i])
  {
    var order := ExportOrder(db);
    assert |order| == |multiset(order)| == |db.products.Keys|;
    seq(|order|, i requires 0 <= i < |order| => ExportRowOf(db, order[i]))
  }

  /** How `csv.writer` shows `x or 0` for a float column: the integer 0 for zero, the
      float's own text otherwise. */
  function NumberText(x: real, showReal: real -> string): string {
    if x == 0.0 then "0" else showReal(x)
  }

  /** The exported line as the import reads it back: every column present and filled. */
  function Cells(r: ExportRow, showReal: real -> string): (row: Row)
    ensures "sku" in row && "name" in row && "category" in row && "supplier" in row
  {
    map["sku" := Some(r.sku), "name" := Some(r.name), "category" := Some(r.category),
        "supplier" := Some(r.supplier), "unit" := Some(r.unit), "vat" := Some(IntToString(r.vat)),
        "cost" := Some(NumberText(r.cost, showReal)), "price" := Some(NumberText(r.price, showReal)),
        "stock_qty" := Some(IntToString(r.stockQty)), "min_stock" := Some(IntToString(r.minStock)),
        "notes" := Some(r.notes)]
  }

  /** Each column of the line reads back as the text written for it. */
  lemma CellsRead(r: ExportRow, showReal: real -> string)
    ensures var row := Cells(r, showReal);
      && Cell(row, "sku") == Some(r.sku) && NameCell(row) == Some(r.name)
      && Cell(row, "category") == Some(r.category) && Cell(row, "supplier") == Some(r.supplier)
      && Cell(row, "unit") == Some(r.unit) && Cell(row, "vat") == Some(IntToString(r.vat))
      && Cell(row, "cost") == Some(NumberText(r.cost, showReal))
      && Cell(row, "price") == Some(NumberText(r.price, showReal))
      && Cell(row, "stock_qty") == Some(IntToString(r.stockQty))
      && Cell(row, "min_stock") == Some(IntToString(r.minStock))
      && Cell(row, "notes") == Some(r.notes)
  {
  }

  /** An exported integer reads back as itself. */
  lemma IntCellRoundTrip(v: int)
    ensures IntCell(Some(IntToString(v))) == v
  {
    IntRoundTrip(v);
    assert ParseInt("") == None;
  }

  /** An exported float reads back as itself when the float parser reads back what the
      float printer shows, and rejects empty text as `float('')` does. */
  lemma FloatCellRoundTrip(x: real, showReal: real -> string, parseFloat: string -> Option<real>)
    requires x != 0.0 ==> parseFloat(showReal(x)) == Some(x)
    requires parseFloat("0") == Some(0.0) && parseFloat("") == None
    ensures FloatCell(Some(NumberText(x, showReal)), parseFloat) == x
  {
  }

  /** The float parser reads back what the float printer shows for the line's cost and
      price, reads "0" as 0.0 and rejects empty text as `float('')` does. */
  predicate FloatsReadBack(r: ExportRow, showReal: real -> string, parseFloat: string -> Option<real>) {
    && (r.cost != 0.0 ==> parseFloat(showReal(r.cost)) == Some(r.cost))
    && (r.price != 0.0 ==> parseFloat(showReal(r.price)) == Some(r.price))
    && parseFloat("0") == Some(0.0) && parseFloat("") == None
  }

  /** The values the import takes from an exported line are the line's own. */
  lemma RowFieldsOfCells(r: ExportRow, showReal: real -> string, parseFloat: string -> Option<real>)
    requires r.unit != ""
    requires FloatsReadBack(r, showReal, parseFloat)
    ensures RowFields(Cells(r, showReal), parseFloat)
      == Fields(r.unit, r.vat, r.cost, r.price, r.stockQty, r.minStock, if r.notes == "" then None else Some(r.notes))
  {
    CellsRead(r, showReal);
    IntCellRoundTrip(r.vat);
    IntCellRoundTrip(r.stockQty);
    IntCellRoundTrip(r.minStock);
    FloatCellRoundTrip(r.cost, showReal, parseFloat);
    FloatCellRoundTrip(r.price, showReal, parseFloat);
  }

  /** Importing an exported line into the database it came from updates that same product,
      adds no product, and leaves the product's exported line unchanged. This needs a
      non-empty sku (a blank one is skipped), a non-empty unit (a blank one comes back as
      `pezzi`), category and supplier names without surrounding blanks (the import strips
      them before looking them up), and a float parser that reads back the printed cost
      and price. */
  lemma ExportImportRoundTrip(db: Db, pid: Id, showReal: real -> string, parseFloat: string -> Option<real>)
    requires Valid(db) && pid in db.products
    requires db.products[pid].sku != "" && db.products[pid].unit.Some? && db.products[pid].unit.value != ""
    requires Strip(ExportRowOf(db, pid).category) == ExportRowOf(db, pid).category
    requires Strip(ExportRowOf(db, pid).supplier) == ExportRowOf(db, pid).supplier
    requires FloatsReadBack(ExportRowOf(db, pid), showReal, parseFloat)
    ensures var r := ExportRowOf(db, pid);
      var res := ImportRow(db, Cells(r, showReal), parseFloat);
      && res.Success? && res.value.1
      && (forall q :: q in res.value.0.products <==> q in db.products)
      && ExportRowOf(res.value.0, pid) == r
  {
    var r := ExportRowOf(db, pid);
    var row := Cells(r, showReal);
    var f := RowFields(row, parseFloat);
    RowFieldsOfCells(r, showReal, parseFloat);
    ImportsAsUpsert(db, r, showReal, parseFloat);
    var d := Upsert(db, r.sku, r.name, r.category, r.supplier, f);
    UpsertSameProduct(db, pid, r.name, r.category, r.supplier, f);
    UpsertWrites(db, r.sku, r.name, r.category, r.supplier, f);
    SanitizeIdempotent(db.products[pid].notes);
    CategoryReexported(db, pid, r.name, r.category, r.supplier, f);
    SupplierReexported(db, pid, r.name, r.category, r.supplier, f);
    Rewritten(d, pid, r, f);
  }

  /** An exported line imported into a database that has no product with its sku (an
      empty one, say) creates one product, and that product exports the same line. The
      conditions are those of `ExportImportRoundTrip`; the notes of an exported line
      are already sanitized. */
  lemma ExportedLineRecreates(db: Db, r: ExportRow, showReal: real -> string, parseFloat: string -> Option<real>)
    requires forall q :: q in db.products ==> db.products[q].sku != r.sku
    requires r.sku != "" && r.unit != "" && Sanitize(Some(r.notes)) == r.notes
    requires Strip(r.category) == r.category && Strip(r.supplier) == r.supplier
    requires FloatsReadBack(r, showReal, parseFloat)
    ensures var res := ImportRow(db, Cells(r, showReal), parseFloat);
      var pid := UpsertProduct(db.products, r.sku, r.name).0;
      && res.Success? && res.value.1
      && pid !in db.products
      && (forall q :: q in res.value.0.products <==> q in db.products || q == pid)
      && ExportRowOf(res.value.0, pid) == r
  {
    var f := RowFields(Cells(r, showReal), parseFloat);
    RowFieldsOfCells(r, showReal, parseFloat);
    ImportsAsUpsert(db, r, showReal, parseFloat);
    NewProductWritten(db, r, f);
  }

  /** A sample line: a new product priced 2.5, with no category, supplier or notes. */
  function SampleLine(): ExportRow {
    ExportRow("A-1", "Olio", "", "", "litri", 22, 0.0, 2.5, 4, 1, "")
  }

  /** A printer and a parser that agree on the sample's price. */
  function SampleShow(x: real): string {
    "2.5"
  }

  function SampleParse(s: string): Option<real> {
    if s == "0" then Some(0.0) else if s == "2.5" then Some(2.5) else None
  }

  lemma SampleLineConditions()
    ensures Strip("") == "" && Sanitize(Some("")) == ""
    ensures FloatsReadBack(SampleLine(), SampleShow, SampleParse)
  {
    assert Strip("") == "";
    SanitizeKeepsClean("");
    SampleReadsBack();
  }

  lemma SampleReadsBack()
    ensures SampleParse(SampleShow(2.5)) == Some(2.5)
    ensures SampleParse("0") == Some(0.0) && SampleParse("") == None
  {
    assert |"2.5"| == 3 && |"0"| == 1 && |""| == 0;
  }

  /** The conditions of `ExportedLineRecreates` can all be met: the sample line, imported
      into an empty database, creates one product whose exported line is the sample. */
  lemma SampleLineRecreates()
    ensures var res := ImportRow(Db(map[], map[], map[], map[], map[], map[]), Cells(SampleLine(), SampleShow), SampleParse);
      var pid := UpsertProduct(map[], "A-1", "Olio").0;
      && res.Success? && (forall q :: q in res.value.0.products <==> q == pid)
      && ExportRowOf(res.value.0, pid) == SampleLine()
  {
    SampleLineConditions();
    ExportedLineRecreates(Db(map[], map[], map[], map[], map[], map[]), SampleLine(), SampleShow, SampleParse);
  }

  /** Writing a line's columns by a sku no product holds adds one product, which exports
      that line. */
  lemma NewProductWritten(db: Db, r: ExportRow, f: Fields)
    requires forall q :: q in db.products ==> db.products[q].sku != r.sku
    requires Sanitize(Some(r.notes)) == r.notes
    requires Strip(r.category) == r.category && Strip(r.supplier) == r.supplier
    requires f == Fields(r.unit, r.vat, r.cost, r.price, r.stockQty, r.minStock, if r.notes == "" then None else Some(r.notes))
    ensures var d := Upsert(db, r.sku, r.name, r.category, r.supplier, f);
      var pid := UpsertProduct(db.products, r.sku, r.name).0;
      && pid !in db.products
      && (forall q :: q in d.products <==> q in db.products || q == pid)
      && ExportRowOf(d, pid) == r
  {
    var d := Upsert(db, r.sku, r.name, r.category, r.supplier, f);
    var pid := UpsertProduct(db.products, r.sku, r.name).0;
    NewSkuAdds(db, r.sku, r.name, r.category, r.supplier, f);
    NewProductLinks(db, r.sku, r.name, r.category, r.supplier, f);
    Rewritten(d, pid, r, f);
  }

  /** A sku no product holds is written under a new id, next to the old products. */
  lemma NewSkuAdds(db: Db, sku: string, name: string, catName: string, supName: string, f: Fields)
    requires forall q :: q in db.products ==> db.products[q].sku != sku
    ensures var pid := UpsertProduct(db.products, sku, name).0;
      && pid !in db.products
      && forall q :: q in Upsert(db, sku, name, catName, supName, f).products <==> q in db.products || q == pid
  {
    UpsertTouchesOne(db, sku, name, catName, supName, f);
    assert ProductBySku(db.products, sku) == None;
  }

  /** A new product holds the written columns and exactly the category and supplier names
      written (blank names link nothing). */
  lemma NewProductLinks(db: Db, sku: string, name: string, catName: string, supName: string, f: Fields)
    requires UpsertProduct(db.products, sku, name).0 !in db.products
    ensures var pid := UpsertProduct(db.products, sku, name).0;
      var d := Upsert(db, sku, name, catName, supName, f);
      && pid in d.products && Holds(d.products[pid], sku, name, f)
      && OrEmpty(CategoryName(d, d.products[pid])) == catName
      && OrEmpty(SupplierName(d, d.products[pid])) == supName
  {
    UpsertWrites(db, sku, name, catName, supName, f);
  }

  /** An exported line with a sku is imported as a write of its own columns. */
  lemma ImportsAsUpsert(db: Db, r: ExportRow, showReal: real -> string, parseFloat: string -> Option<real>)
    requires r.sku != "" && Strip(r.category) == r.category && Strip(r.supplier) == r.supplier
    ensures ImportRow(db, Cells(r, showReal), parseFloat)
      == Success((Upsert(db, r.sku, r.name, r.category, r.supplier, RowFields(Cells(r, showReal), parseFloat)), true))
  {
    CellsRead(r, showReal);
    var row := Cells(r, showReal);
    assert HasSku(row);
    assert NameIn(Cell(row, "category")) == r.category && NameIn(Cell(row, "supplier")) == r.supplier;
  }

  /** Writing by the sku of an existing product writes that product and adds none. */
  lemma UpsertSameProduct(db: Db, pid: Id, name: string, catName: string, supName: string, f: Fields)
    requires Valid(db) && pid in db.products
    ensures var sku := db.products[pid].sku;
      && UpsertProduct(db.products, sku, name).0 == pid
      && forall q :: q in Upsert(db, sku, name, catName, supName, f).products <==> q in db.products
  {
    var sku := db.products[pid].sku;
    UpsertTouchesOne(db, sku, name, catName, supName, f);
  }

  /** The category column reads back: a blank one keeps the old link, a stripped name
      finds the category it names. */
  lemma CategoryReexported(db: Db, pid: Id, name: string, catName: string, supName: string, f: Fields)
    requires Valid(db) && pid in db.products
    requires catName == OrEmpty(CategoryName(db, db.products[pid]))
    requires UpsertProduct(db.products, db.products[pid].sku, name).0 == pid
    ensures var d := Upsert(db, db.products[pid].sku, name, catName, supName, f);
      pid in d.products && OrEmpty(CategoryName(d, d.products[pid])) == catName
  {
    var sku := db.products[pid].sku;
    UpsertWrites(db, sku, name, catName, supName, f);
    if catName == [] {
      var d := Upsert(db, sku, name, catName, supName, f);
      assert d.categories == db.categories;
      assert d.products[pid].categoryId == db.products[pid].categoryId;
    }
  }

  /** The supplier column reads back, as the category column does. */
  lemma SupplierReexported(db: Db, pid: Id, name: string, catName: string, supName: string, f: Fields)
    requires Valid(db) && pid in db.products
    requires supName == OrEmpty(SupplierName(db, db.products[pid]))
    requires UpsertProduct(db.products, db.products[pid].sku, name).0 == pid
    ensures var d := Upsert(db, db.products[pid].sku, name, catName, supName, f);
      pid in d.products && OrEmpty(SupplierName(d, d.products[pid])) == supName
  {
    var sku := db.products[pid].sku;
    UpsertWrites(db, sku, name, catName, supName, f);
    if supName == [] {
      var d := Upsert(db, sku, name, catName, supName, f);
      assert d.suppliers == db.suppliers;
      assert d.products[pid].supplierId == db.products[pid].supplierId;
    }
  }

  /** The product written back exports the same line: each column is the one exported. */
  lemma Rewritten(d: Db, pid: Id, r: ExportRow, f: Fields)
    requires pid in d.products
    requires f == Fields(r.unit, r.vat, r.cost, r.price, r.stockQty, r.minStock, if r.notes == "" then None else Some(r.notes))
    requires Holds(d.products[pid], r.sku, r.name, f)
    requires Sanitize(Some(r.notes)) == r.notes
    requires OrEmpty(CategoryName(d, d.products[pid])) == r.category
    requires OrEmpty(SupplierName(d, d.products[pid])) == r.supplier
    ensures ExportRowOf(d, pid) == r
  {
  }

  // ---------------------------------------------------------------------------
  // A whole exported file imported into an empty database

  /** The exported file as the import reads it: one row per line, in file order. */
  function FileRows(lines: seq<ExportRow>, showReal: real -> string): (rows: seq<Row>)
    ensures |rows| == |lines|
  {
    if lines == [] then [] else FileRows(lines[..|lines| - 1], showReal) + [Cells(lines[|lines| - 1], showReal)]
  }

  /** The conditions under which one exported line reads back as itself, as in
      `ExportedLineRecreates`. */
  predicate Reimportable(r: ExportRow, showReal: real -> string, parseFloat: string -> Option<real>) {
    && r.sku != "" && r.unit != ""
    && Unpadded(r.category) && Unpadded(r.supplier)
    && FloatsReadBack(r, showReal, parseFloat)
  }

  /** No two lines of the file share a sku. */
  predicate DistinctSkus(lines: seq<ExportRow>) {
    forall i, j :: 0 <= i < j < |lines| ==> lines[i].sku != lines[j].sku
  }

  /** A file whose lines each read back as themselves and whose skus are distinct. */
  predicate ReimportableFile(lines: seq<ExportRow>, showReal: real -> string, parseFloat: string -> Option<real>) {
    && (forall i :: 0 <= i < |lines| ==> Reimportable(lines[i], showReal, parseFloat) && CleanNotes(lines[i].notes))
    && DistinctSkus(lines)
  }

  /** All lines of such a file but the last form such a file too, and the last line
      reads back as itself with a sku of its own. */
  lemma FrontReimportable(lines: seq<ExportRow>, showReal: real -> string, parseFloat: string -> Option<real>)
    requires lines != [] && ReimportableFile(lines, showReal, parseFloat)
    ensures var front, last := lines[..|lines| - 1], lines[|lines| - 1];
      && ReimportableFile(front, showReal, parseFloat)
      && Reimportable(last, showReal, parseFloat) && CleanNotes(last.notes)
      && forall i :: 0 <= i < |front| ==> front[i].sku != last.sku
  {
    var front := lines[..|lines| - 1];
    assert forall i :: 0 <= i < |front| ==> front[i] == lines[i];
  }

  /** Exporting every product of a database and importing the file into an empty
      database commits, counts every product, and the new database exports exactly the
      same lines: as many, and each line of one export is a line of the other. Only the
      order of products with equal names may differ. Every product must meet the
      conditions of `ExportedLineRecreates`. */
  lemma ExportFileRecreates(db: Db, showReal: real -> string, parseFloat: string -> Option<real>)
    requires Valid(db)
    requires forall q :: q in db.products ==> Reimportable(ExportRowOf(db, q), showReal, parseFloat)
    ensures var lines := ExportProducts(db);
      var res := ImportAll(EmptyDb, FileRows(lines, showReal), parseFloat);
      && res.Success? && res.value.1 == |db.products|
      && |res.value.0.products| == |db.products|
      && |ExportProducts(res.value.0)| == |lines|
      && forall r :: r in ExportProducts(res.value.0) <==> r in lines
  {
    var lines := ExportProducts(db);
    var order := ExportOrder(db);
    OrderDistinct(order, db.products.Keys);
    forall i | 0 <= i < |lines|
      ensures Reimportable(lines[i], showReal, parseFloat) && CleanNotes(lines[i].notes)
    {
      assert lines[i] == ExportRowOf(db, order[i]);
    }
    forall i, j | 0 <= i < j < |lines| ensures lines[i].sku != lines[j].sku {
      assert lines[i].sku == db.products[order[i]].sku && lines[j].sku == db.products[order[j]].sku;
    }
    assert Valid(EmptyDb);
    var ids := LinesRecreate(EmptyDb, lines, showReal, parseFloat);
    var d := ImportAll(EmptyDb, FileRows(lines, showReal), parseFloat).value.0;
    SameExport(d, ids, lines);
  }

  /** An id sequence that lists a key set once per key has no repeats. */
  lemma OrderDistinct(order: seq<Id>, keys: set<Id>)
    requires multiset(order) == multiset(keys)
    ensures forall i, j :: 0 <= i < j < |order| ==> order[i] != order[j]
  {
    forall i, j | 0 <= i < j < |order| ensures order[i] != order[j] {
      var x := order[i];
      assert order == order[..j] + order[j..];
      assert order[..j][i] == x && order[j..][0] == order[j];
      assert multiset(order)[x] == multiset(order[..j])[x] + multiset(order[j..])[x];
      assert multiset(order[..j])[x] >= 1 && multiset(keys)[x] <= 1;
    }
  }

  /** The products of `d` are exactly `ids`, and product `ids[i]` exports line `i`. */
  ghost predicate Recreates(d: Db, lines: seq<ExportRow>, ids: seq<Id>) {
    && |ids| == |lines| && |d.products| == |lines|
    && (forall q :: q in d.products <==> q in ids)
    && (forall i :: 0 <= i < |lines| ==> ids[i] in d.products && ExportRowOf(d, ids[i]) == lines[i])
  }

  /** A database that recreates `lines` exports exactly those lines. */
  lemma SameExport(d: Db, ids: seq<Id>, lines: seq<ExportRow>)
    requires Recreates(d, lines, ids)
    ensures |ExportProducts(d)| == |lines|
    ensures forall r :: r in ExportProducts(d) <==> r in lines
  {
    forall r | r in ExportProducts(d) ensures r in lines {
      var q := ExportedBy(d, r);
      ExportedIsLine(d, ids, lines, q);
    }
    forall r | r in lines ensures r in ExportProducts(d) {
      LineIsExported(d, ids, lines, r);
    }
  }

  lemma ExportedIsLine(d: Db, ids: seq<Id>, lines: seq<ExportRow>, q: Id)
    requires |ids| == |lines|
    requires forall q :: q in d.products ==> q in ids
    requires forall i :: 0 <= i < |lines| ==> ids[i] in d.products && ExportRowOf(d, ids[i]) == lines[i]
    requires q in d.products
    ensures ExportRowOf(d, q) in lines
  {
    var i :| 0 <= i < |ids| && ids[i] == q;
    assert lines[i] == ExportRowOf(d, q);
  }

  /** Every exported line is the line of some product. */
  lemma ExportedBy(d: Db, r: ExportRow) returns (q: Id)
    requires r in ExportProducts(d)
    ensures q in d.products && ExportRowOf(d, q) == r
  {
    var out := ExportProducts(d);
    var j :| 0 <= j < |out| && out[j] == r;
    q := ExportOrder(d)[j];
  }

  lemma LineIsExported(d: Db, ids: seq<Id>, lines: seq<ExportRow>, r: ExportRow)
    requires |ids| == |lines|
    requires forall i :: 0 <= i < |lines| ==> ids[i] in d.products && ExportRowOf(d, ids[i]) == lines[i]
    requires r in lines
    ensures r in ExportProducts(d)
  {
    var out := ExportProducts(d);
    var order := ExportOrder(d);
    var i :| 0 <= i < |lines| && lines[i] == r;
    var q := ids[i];
    assert q in multiset(d.products.Keys);
    assert q in multiset(order);
    var j :| 0 <= j < |order| && order[j] == q;
    assert out[j] == r;
  }

  /** Importing the lines of a file with distinct skus, each meeting the conditions of
      `ExportedLineRecreates`, into a database holding no products commits, counts every
      line and creates one product per line, product `ids[i]` exporting line `i`. */
  lemma {:induction false} LinesRecreate(d0: Db, lines: seq<ExportRow>, showReal: real -> string,
                                         parseFloat: string -> Option<real>) returns (ids: seq<Id>)
    requires Valid(d0) && |d0.products| == 0
    requires ReimportableFile(lines, showReal, parseFloat)
    ensures var res := ImportAll(d0, FileRows(lines, showReal), parseFloat);
      res.Success? && res.value.1 == |lines| && Recreates(res.value.0, lines, ids)
    decreases |lines|
  {
    if lines == [] {
      ids := [];
      assert FileRows(lines, showReal) == [];
    } else {
      var front, last := lines[..|lines| - 1], lines[|lines| - 1];
      FrontReimportable(lines, showReal, parseFloat);
      var ids0 := LinesRecreate(d0, front, showReal, parseFloat);
      var prev := ImportAll(d0, FileRows(front, showReal), parseFloat);
      ImportAllPreservesValid(d0, FileRows(front, showReal), parseFloat);
      var pid := RecreateStep(prev.value.0, ids0, front, last, showReal, parseFloat);
      assert FileRows(lines, showReal) == FileRows(front, showReal) + [Cells(last, showReal)];
      ImportAllSnoc(d0, FileRows(front, showReal), Cells(last, showReal), parseFloat);
      SplitLast(lines);
      ids := ids0 + [pid];
    }
  }

  /** A non-empty sequence is its front followed by its last element. */
  lemma SplitLast<T>(s: seq<T>)
    requires s != []
    ensures s == s[..|s| - 1] + [s[|s| - 1]]
  {
  }

  /** A row that is written and counted, after rows that all commit. */
  lemma ImportAllSnoc(db: Db, rows: seq<Row>, row: Row, parseFloat: string -> Option<real>)
    requires var prev := ImportAll(db, rows, parseFloat);
      && prev.Success?
      && ImportRow(prev.value.0, row, parseFloat).Success?
      && ImportRow(prev.value.0, row, parseFloat).value.1
    ensures var prev := ImportAll(db, rows, parseFloat);
      var res := ImportAll(db, rows + [row], parseFloat);
      && res.Success? && res.value.1 == prev.value.1 + 1
      && res.value.0 == ImportRow(prev.value.0, row, parseFloat).value.0
  {
    ImportAllAppend(db, rows, row, parseFloat);
    ImportNextCounts(ImportAll(db, rows, parseFloat), row, parseFloat);
  }

  /** One more line: it adds a new product exporting that line, and the products added
      before keep exporting theirs. */
  lemma RecreateStep(d: Db, ids: seq<Id>, front: seq<ExportRow>, r: ExportRow, showReal: real -> string,
                     parseFloat: string -> Option<real>) returns (pid: Id)
    requires Valid(d) && Recreates(d, front, ids)
    requires forall i :: 0 <= i < |front| ==> front[i].sku != r.sku
    requires Reimportable(r, showReal, parseFloat) && CleanNotes(r.notes)
    ensures var res := ImportRow(d, Cells(r, showReal), parseFloat);
      res.Success? && res.value.1 && Recreates(res.value.0, front + [r], ids + [pid])
  {
    NoSkuClash(d, ids, front, r);
    RecreateAdds(d, r, showReal, parseFloat);
    RecreateKeepsAll(d, ids, front, r, showReal, parseFloat);
    pid := UpsertProduct(d.products, r.sku, r.name).0;
    Extend(d, ImportRow(d, Cells(r, showReal), parseFloat).value.0, ids, pid, front, r);
  }

  /** Importing a line whose sku no product holds leaves every product of a database
      that recreates `front` exporting its line. */
  lemma RecreateKeepsAll(d: Db, ids: seq<Id>, front: seq<ExportRow>, r: ExportRow, showReal: real -> string,
                         parseFloat: string -> Option<real>)
    requires Valid(d) && Recreates(d, front, ids)
    requires forall q :: q in d.products ==> d.products[q].sku != r.sku
    requires r.sku != "" && Unpadded(r.category) && Unpadded(r.supplier)
    ensures var res := ImportRow(d, Cells(r, showReal), parseFloat);
      && res.Success?
      && forall i :: 0 <= i < |front| ==> ids[i] in res.value.0.products && ExportRowOf(res.value.0, ids[i]) == front[i]
  {
    forall i | 0 <= i < |front|
      ensures var res := ImportRow(d, Cells(r, showReal), parseFloat);
        ids[i] in res.value.0.products && ExportRowOf(res.value.0, ids[i]) == front[i]
    {
      RecreateKeeps(d, r, ids[i], showReal, parseFloat);
    }
  }

  /** A database `d1` that keeps the products of a database recreating `front`, with
      their lines, and adds one product `pid` exporting `r`, recreates `front + [r]`. */
  lemma Extend(d: Db, d1: Db, ids: seq<Id>, pid: Id, front: seq<ExportRow>, r: ExportRow)
    requires Recreates(d, front, ids) && pid !in d.products
    requires forall q :: q in d1.products <==> q in d.products || q == pid
    requires pid in d1.products && ExportRowOf(d1, pid) == r
    requires forall i :: 0 <= i < |front| ==> ids[i] in d1.products && ExportRowOf(d1, ids[i]) == front[i]
    ensures Recreates(d1, front + [r], ids + [pid])
  {
    OneMoreKey(d.products, d1.products, pid);
    ExtendIds(d1, ids, pid, front, r);
  }

  /** The ids of the products exporting all lines but the last, followed by the one
      exporting the last line, are the ids of products exporting every line. */
  lemma ExtendIds(d: Db, ids: seq<Id>, pid: Id, front: seq<ExportRow>, last: ExportRow)
    requires |ids| == |front|
    requires forall i :: 0 <= i < |ids| ==> ids[i] in d.products && ExportRowOf(d, ids[i]) == front[i]
    requires pid in d.products && ExportRowOf(d, pid) == last
    ensures forall i :: 0 <= i <= |ids| ==>
      (ids + [pid])[i] in d.products && ExportRowOf(d, (ids + [pid])[i]) == (front + [last])[i]
  {
  }

  /** A line whose sku no product holds adds one product, which exports that line. */
  lemma RecreateAdds(d: Db, r: ExportRow, showReal: real -> string, parseFloat: string -> Option<real>)
    requires forall q :: q in d.products ==> d.products[q].sku != r.sku
    requires Reimportable(r, showReal, parseFloat) && CleanNotes(r.notes)
    ensures var res := ImportRow(d, Cells(r, showReal), parseFloat);
      var pid := UpsertProduct(d.products, r.sku, r.name).0;
      && res.Success? && res.value.1 && pid !in d.products
      && (forall q :: q in res.value.0.products <==> q in d.products || q == pid)
      && pid in res.value.0.products && ExportRowOf(res.value.0, pid) == r
  {
    SanitizeKeepsClean(r.notes);
    StripUnpadded(r.category);
    StripUnpadded(r.supplier);
    ExportedLineRecreates(d, r, showReal, parseFloat);
  }

  /** A map that gains one new key grows by one. */
  lemma OneMoreKey<T>(m: map<Id, T>, m1: map<Id, T>, k: Id)
    requires k !in m
    requires forall q :: q in m1 <==> q in m || q == k
    ensures |m1| == |m| + 1
  {
    var keys := m.Keys + {k};
    forall q ensures q in m1.Keys <==> q in keys {
      assert q in m1.Keys <==> q in m1;
    }
    assert m1.Keys == keys;
  }

  /** Importing a line whose sku no product holds leaves every existing product exporting
      the line it exported before. */
  lemma RecreateKeeps(d: Db, r: ExportRow, q: Id, showReal: real -> string, parseFloat: string -> Option<real>)
    requires Valid(d) && q in d.products
    requires forall q :: q in d.products ==> d.products[q].sku != r.sku
    requires r.sku != "" && Unpadded(r.category) && Unpadded(r.supplier)
    ensures var res := ImportRow(d, Cells(r, showReal), parseFloat);
      && res.Success? && q in res.value.0.products
      && ExportRowOf(res.value.0, q) == ExportRowOf(d, q)
  {
    StripUnpadded(r.category);
    StripUnpadded(r.supplier);
    ImportsAsUpsert(d, r, showReal, parseFloat);
    var f := RowFields(Cells(r, showReal), parseFloat);
    var d1 := Upsert(d, r.sku, r.name, r.category, r.supplier, f);
    UpsertTouchesOne(d, r.sku, r.name, r.category, r.supplier, f);
    UpsertKeepsNames(d, r.sku, r.name, r.category, r.supplier, f);
    assert UpsertProduct(d.products, r.sku, r.name).0 != q;
    ExportKept(d, d1, q);
  }

  /** No product of `d` holds the sku of a line that differs in sku from every line
      `d`'s products export. */
  lemma NoSkuClash(d: Db, ids: seq<Id>, front: seq<ExportRow>, r: ExportRow)
    requires Recreates(d, front, ids)
    requires forall i :: 0 <= i < |front| ==> front[i].sku != r.sku
    ensures forall q :: q in d.products ==> d.products[q].sku != r.sku
  {
    forall q | q in d.products ensures d.products[q].sku != r.sku {
      var i :| 0 <= i < |ids| && ids[i] == q;
      assert ExportRowOf(d, ids[i]).sku == front[i].sku;
    }
  }

  /** A product left as it was exports the same line, as long as the categories and
      suppliers it links to keep their names. */
  lemma ExportKept(d: Db, d1: Db, q: Id)
    requires ProductLinksValid(d) && q in d.products && q in d1.products
    requires d1.products[q] == d.products[q]
    requires forall c :: c in d.categories ==> c in d1.categories && d1.categories[c] == d.categories[c]
    requires forall s :: s in d.suppliers ==> s in d1.suppliers && d1.suppliers[s] == d.suppliers[s]
    ensures ExportRowOf(d1, q) == ExportRowOf(d, q)
  {
    var p := d.products[q];
    assert LinkOk(p.categoryId, d.categories) && LinkOk(p.supplierId, d.suppliers);
    if p.categoryId.Some? {
      var c := p.categoryId.value;
      assert c in d.categories;
      assert c in d1.categories && d1.categories[c] == d.categories[c];
    }
    if p.supplierId.Some? {
      var c := p.supplierId.value;
      assert c in d.suppliers;
      assert c in d1.suppliers && d1.suppliers[c] == d.suppliers[c];
    }
  }
}
