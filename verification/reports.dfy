/** The read-only views: the dashboard counters (app.py:204-209), the product search
    (app.py:309-317) and the expiring-lots report with its CSV and PDF exports
    (app.py:593-707). Each is a query over the database value. */
module Reports {
  import opened Common
  import opened Text
  import opened Numbers
  import opened Queries
  import opened Schema

  // ---------------------------------------------------------------------------
  // Dashboard (app.py:204-209)

  /** `stock_qty <= min_stock AND min_stock > 0`: a NULL on either side fails the
      comparison, so a product without a stock or a minimum is never low. */
  predicate LowStock(p: Product) {
    p.stockQty.Some? && p.minStock.Some? && p.stockQty.value <= p.minStock.value && p.minStock.value > 0
  }

  /** The number of products running low. */
  function LowStockCount(db: Db): (n: nat)
    ensures n <= |db.products|
    ensures n == 0 <==> forall id :: id in db.products ==> !LowStock(db.products[id])
  {
    LowIdsCard(db);
    |LowIds(db)|
  }

  function LowIds(db: Db): set<Id> {
    set id | id in db.products && LowStock(db.products[id])
  }

  lemma LowIdsCard(db: Db)
    ensures |LowIds(db)| <= |db.products|
    ensures LowIds(db) == {} <==> forall id :: id in db.products ==> !LowStock(db.products[id])
  {
    var low := LowIds(db);
    assert db.products.Keys == low + (db.products.Keys - low);
    if low != {} {
      var id := PickOne(low);
    }
  }

  /** The dashboard's count of lots expiring within 30 days: any lot with an expiry date
      on or before `today + 30`, already expired ones included. */
  function ExpiringSoonCount(db: Db, today: Day): (n: nat)
    ensures n <= |db.lots|
  {
    var soon := set l | l in db.lots && db.lots[l].expiry.Some? && db.lots[l].expiry.value <= today + 30;
    assert db.lots.Keys == soon + (db.lots.Keys - soon);
    |soon|
  }

  // ---------------------------------------------------------------------------
  // Request arguments

  /** `int(request.args.get('days', '30'))`: `None` when `int()` raises. */
  function DaysArg(arg: Option<string>): Option<int> {
    match arg
    case None => Some(30)
    case Some(s) => ParseInt(s)
  }

  /** The report page falls back to 30 days when `int()` raises (app.py:593-596); the two
      exports do not catch the error (app.py:619, 650). */
  function ViewDays(arg: Option<string>): int {
    match DaysArg(arg)
    case None => 30
    case Some(d) => d
  }

  /** `request.args.get(name, '').strip()` */
  function FilterArg(arg: Option<string>): (r: string)
    ensures r == [] || (!IsSpace(r[0]) && !IsSpace(r[|r| - 1]))
    ensures arg.None? ==> r == ""
  {
    Strip(OrEmpty(arg))
  }

  /** Where both parse the argument, the page and the exports use the same number of
      days; without the argument both use 30. */
  lemma DaysAgree(arg: Option<string>)
    ensures DaysArg(arg).Some? ==> ViewDays(arg) == DaysArg(arg).value
    ensures arg.None? ==> DaysArg(arg) == Some(30) && ViewDays(arg) == 30
    ensures DaysArg(arg).None? ==> ViewDays(arg) == 30
  {
  }

  /** Any number written as `str(n)` is read back as `n` days, by the page and the
      exports alike. */
  lemma DaysOfNumber(n: int)
    ensures DaysArg(Some(IntToString(n))) == Some(n)
    ensures ViewDays(Some(IntToString(n))) == n
  {
    IntRoundTrip(n);
  }

  // ---------------------------------------------------------------------------
  // Expiring lots (app.py:593-707)

  /** The report's filter, joined with the lot's product: an expiry date no later than
      `until`, and the product's category and supplier names equal to the filters that
      are not empty. A lot whose product is missing drops out of the inner join. */
  predicate InReport(db: Db, l: Id, until: Day, category: string, supplier: string)
    requires l in db.lots
  {
    var lot := db.lots[l];
    && lot.expiry.Some? && lot.expiry.value <= until
    && lot.productId in db.products
    && (category == "" || CategoryName(db, db.products[lot.productId]) == Some(category))
    && (supplier == "" || SupplierName(db, db.products[lot.productId]) == Some(supplier))
  }

  function ExpiringIds(db: Db, until: Day, category: string, supplier: string): set<Id> {
    set l | l in db.lots && InReport(db, l, until, category, supplier)
  }

  /** The sort key `Lot.expiry_date`. */
  function ExpiryKey(db: Db, l: Id): Day {
    if l in db.lots && db.lots[l].expiry.Some? then db.lots[l].expiry.value else 0
  }

  /** The report query: every lot passing the filter exactly once, by ascending expiry
      date. SQL leaves the order of lots with the same date open; this model fixes one. */
  function ExpiringLots(db: Db, until: Day, category: string, supplier: string): (r: seq<Id>)
    ensures multiset(r) == multiset(ExpiringIds(db, until, category, supplier))
    ensures forall l :: l in r <==> l in db.lots && InReport(db, l, until, category, supplier)
    ensures forall i, j :: 0 <= i < j < |r| ==> ExpiryKey(db, r[i]) <= ExpiryKey(db, r[j])
    ensures Joined(db, r)
  {
    var le := (a: Id, b: Id) => ExpiryKey(db, a) <= ExpiryKey(db, b);
    var r := Sort(ScannedLots(db, until, category, supplier), le);
    assert forall l :: l in r <==> l in multiset(r);
    MembersJoined(db, r);
    r
  }

  /** The lots passing the filter, in the order a scan of the table meets them. */
  function ScannedLots(db: Db, until: Day, category: string, supplier: string): (kept: seq<Id>)
    ensures multiset(kept) == multiset(ExpiringIds(db, until, category, supplier))
  {
    var ids := SortedIds(db.lots.Keys);
    SortedIdsOnce(db.lots.Keys);
    var P := (l: Id) => l in db.lots && InReport(db, l, until, category, supplier);
    FilterOfScan(ids, db.lots.Keys, P, ExpiringIds(db, until, category, supplier));
    Filter(ids, P)
  }

  /** On a valid database the dashboard counts the lots the report lists for 30 days
      without filters: the inner join drops no lot. */
  lemma DashboardMatchesReport(db: Db, today: Day)
    requires Valid(db)
    ensures ExpiringSoonCount(db, today) == |ExpiringLots(db, today + 30, "", "")|
  {
    assert LotsValid(db);
    SoonIsExpiring(db, today);
    var r := ExpiringLots(db, today + 30, "", "");
    calc {
      |r|;
      |multiset(r)|;
      |multiset(ExpiringIds(db, today + 30, "", ""))|;
      |ExpiringIds(db, today + 30, "", "")|;
    }
  }

  lemma SoonIsExpiring(db: Db, today: Day)
    requires LotsValid(db)
    ensures ExpiringSoonCount(db, today) == |ExpiringIds(db, today + 30, "", "")|
  {
    var soon := set l | l in db.lots && db.lots[l].expiry.Some? && db.lots[l].expiry.value <= today + 30;
    var ids := ExpiringIds(db, today + 30, "", "");
    forall l ensures l in soon <==> l in ids {
      if l in db.lots {
        assert db.lots[l].productId in db.products;
      }
    }
    assert soon == ids;
  }

  /** One line of the CSV export: the lot's expiry date, the product's sku and name, the
      lot code, the quantity (an empty cell for NULL), and the category and supplier
      names (empty when unset). */
  datatype ExpiryRow = ExpiryRow(
    expiry: Day, sku: string, product: string, lotCode: string, qty: Option<int>,
    category: string, supplier: string)

  function ExpiryRowOf(db: Db, l: Id): ExpiryRow
    requires l in db.lots && db.lots[l].productId in db.products
  {
    var lot := db.lots[l];
    var p := db.products[lot.productId];
    ExpiryRow(ExpiryKey(db, l), p.sku, p.name, lot.lotCode, lot.qty,
              OrEmpty(CategoryName(db, p)), OrEmpty(SupplierName(db, p)))
  }

  /** One line of the PDF report: the product text cut to 40 characters, the lot code to
      12, the quantity with NULL shown as 0. */
  datatype PdfLine = PdfLine(expiry: Day, product: string, lotCode: string, qty: string)

  function PdfLineOf(db: Db, l: Id): PdfLine
    requires l in db.lots && db.lots[l].productId in db.products
  {
    var lot := db.lots[l];
    var p := db.products[lot.productId];
    PdfLine(ExpiryKey(db, l), Clip(p.name + " (" + p.sku + ")", 40), Clip(lot.lotCode, 12),
            IntToString(OrZero(lot.qty)))
  }

  /** The report page: the days shown and the lots listed. */
  function ExpiringView(db: Db, today: Day, daysArg: Option<string>, categoryArg: Option<string>,
                        supplierArg: Option<string>): (int, seq<Id>)
  {
    var days := ViewDays(daysArg);
    (days, ReportQuery(db, today, days, categoryArg, supplierArg))
  }

  /** The query the page and both exports run (app.py:601-610, 624-633, 655-664): the
      lots due within `days` of `today` under the stripped filters. */
  function ReportQuery(db: Db, today: Day, days: int, categoryArg: Option<string>,
                       supplierArg: Option<string>): (r: seq<Id>)
    ensures Joined(db, r)
  {
    ExpiringLots(db, today + days, FilterArg(categoryArg), FilterArg(supplierArg))
  }

  /** Every listed lot exists and so does its product. */
  predicate Joined(db: Db, lots: seq<Id>) {
    forall i :: 0 <= i < |lots| ==> lots[i] in db.lots && db.lots[lots[i]].productId in db.products
  }

  lemma MembersJoined(db: Db, lots: seq<Id>)
    requires forall l :: l in lots ==> l in db.lots && db.lots[l].productId in db.products
    ensures Joined(db, lots)
  {
    forall i | 0 <= i < |lots| ensures lots[i] in db.lots && db.lots[lots[i]].productId in db.products {
      var l := lots[i];
      assert l in lots;
    }
  }

  function CsvRows(db: Db, lots: seq<Id>): (rows: seq<ExpiryRow>)
    requires Joined(db, lots)
    ensures |rows| == |lots|
  {
    seq(|lots|, i requires 0 <= i < |lots| => ExpiryRowOf(db, lots[i]))
  }

  function PdfLines(db: Db, lots: seq<Id>): (lines: seq<PdfLine>)
    requires Joined(db, lots)
    ensures |lines| == |lots|
  {
    seq(|lots|, i requires 0 <= i < |lots| => PdfLineOf(db, lots[i]))
  }

  /** The lots the exports list: `None` when `days` is not an integer. */
  function ExportLots(db: Db, today: Day, daysArg: Option<string>, categoryArg: Option<string>,
                      supplierArg: Option<string>): (r: Option<seq<Id>>)
    ensures r.Some? <==> DaysArg(daysArg).Some?
    ensures r.Some? ==> Joined(db, r.value)
  {
    match DaysArg(daysArg)
    case None => None
    case Some(days) => Some(ReportQuery(db, today, days, categoryArg, supplierArg))
  }

  /** When the exports accept the `days` argument they list the lots the page shows. */
  lemma ExportsMatchView(db: Db, today: Day, daysArg: Option<string>, categoryArg: Option<string>,
                         supplierArg: Option<string>)
    ensures DaysArg(daysArg).Some? ==>
      ExportLots(db, today, daysArg, categoryArg, supplierArg)
        == Some(ExpiringView(db, today, daysArg, categoryArg, supplierArg).1)
  {
    if DaysArg(daysArg).Some? {
      DaysAgree(daysArg);
    }
  }

  /** The CSV export: one row per lot the page lists, or the error `int()` raises. */
  function ExpiringCsv(db: Db, today: Day, daysArg: Option<string>, categoryArg: Option<string>,
                       supplierArg: Option<string>): (r: Option<seq<ExpiryRow>>)
    ensures r.Some? <==> DaysArg(daysArg).Some?
    ensures r.Some? ==> |r.value| == |ExpiringView(db, today, daysArg, categoryArg, supplierArg).1|
    ensures r.Some? ==> r.value == CsvRows(db, ExpiringView(db, today, daysArg, categoryArg, supplierArg).1)
  {
    ExportsMatchView(db, today, daysArg, categoryArg, supplierArg);
    match ExportLots(db, today, daysArg, categoryArg, supplierArg)
    case None => None
    case Some(lots) => Some(CsvRows(db, lots))
  }

  /** The PDF export: one line per lot the page lists, or the error `int()` raises. */
  function ExpiringPdf(db: Db, today: Day, daysArg: Option<string>, categoryArg: Option<string>,
                       supplierArg: Option<string>): (r: Option<seq<PdfLine>>)
    ensures r.Some? <==> DaysArg(daysArg).Some?
    ensures r.Some? ==> |r.value| == |ExpiringView(db, today, daysArg, categoryArg, supplierArg).1|
    ensures r.Some? ==> r.value == PdfLines(db, ExpiringView(db, today, daysArg, categoryArg, supplierArg).1)
  {
    ExportsMatchView(db, today, daysArg, categoryArg, supplierArg);
    match ExportLots(db, today, daysArg, categoryArg, supplierArg)
    case None => None
    case Some(lots) => Some(PdfLines(db, lots))
  }

  /** Every CSV row of the report honours the filters: the date is within the window, the
      category and supplier columns equal the filters that were given, and the rows run by
      date. */
  lemma CsvRowsHonourFilters(db: Db, until: Day, category: string, supplier: string)
    ensures var lots := ExpiringLots(db, until, category, supplier);
      var rows := CsvRows(db, lots);
      && (forall i :: 0 <= i < |rows| ==> rows[i].expiry <= until)
      && (forall i :: 0 <= i < |rows| ==> category == "" || rows[i].category == category)
      && (forall i :: 0 <= i < |rows| ==> supplier == "" || rows[i].supplier == supplier)
      && (forall i, j :: 0 <= i < j < |rows| ==> rows[i].expiry <= rows[j].expiry)
  {
    var lots := ExpiringLots(db, until, category, supplier);
    forall i | 0 <= i < |lots| ensures InReport(db, lots[i], until, category, supplier) {
      var l := lots[i];
      assert l in lots;
    }
    RowsHonour(db, lots, until, category, supplier);
  }

  lemma RowsHonour(db: Db, lots: seq<Id>, until: Day, category: string, supplier: string)
    requires Joined(db, lots)
    requires forall i :: 0 <= i < |lots| ==> InReport(db, lots[i], until, category, supplier)
    requires forall i, j :: 0 <= i < j < |lots| ==> ExpiryKey(db, lots[i]) <= ExpiryKey(db, lots[j])
    ensures var rows := CsvRows(db, lots);
      && (forall i :: 0 <= i < |rows| ==> rows[i].expiry <= until)
      && (forall i :: 0 <= i < |rows| ==> category == "" || rows[i].category == category)
      && (forall i :: 0 <= i < |rows| ==> supplier == "" || rows[i].supplier == supplier)
      && (forall i, j :: 0 <= i < j < |rows| ==> rows[i].expiry <= rows[j].expiry)
  {
    var rows := CsvRows(db, lots);
    forall i | 0 <= i < |rows| ensures rows[i] == ExpiryRowOf(db, lots[i]) {
    }
  }

  /** Row `i` of the CSV export and line `i` of the PDF export describe the same lot: the
      PDF shows the same date, the lot code and "name (sku)" cut to width, and the
      quantity as a number that reads back as the CSV quantity (0 for an empty cell). */
  lemma PdfFollowsCsv(db: Db, lots: seq<Id>)
    requires Joined(db, lots)
    ensures var rows := CsvRows(db, lots);
      var lines := PdfLines(db, lots);
      forall i :: 0 <= i < |lots| ==>
        && rows[i].lotCode == db.lots[lots[i]].lotCode && rows[i].qty == db.lots[lots[i]].qty
        && lines[i].expiry == rows[i].expiry
        && lines[i].lotCode == Clip(rows[i].lotCode, 12)
        && lines[i].product == Clip(rows[i].product + " (" + rows[i].sku + ")", 40)
        && ParseInt(lines[i].qty) == Some(OrZero(rows[i].qty))
  {
    forall i | 0 <= i < |lots| ensures ParseInt(IntToString(OrZero(db.lots[lots[i]].qty))) == Some(OrZero(db.lots[lots[i]].qty)) {
      IntRoundTrip(OrZero(db.lots[lots[i]].qty));
    }
  }

  /** The PDF columns are cut to fit: the product text is a prefix of
      "name (sku)" of at most 40 characters, the whole text when it fits; the lot code
      a prefix of at most 12. */
  lemma PdfLineFits(db: Db, l: Id)
    requires l in db.lots && db.lots[l].productId in db.products
    ensures var line := PdfLineOf(db, l);
      var p := db.products[db.lots[l].productId];
      var text := p.name + " (" + p.sku + ")";
      && |line.product| <= 40 && line.product == text[..|line.product|]
      && (|text| <= 40 ==> line.product == text)
      && |line.lotCode| <= 12 && line.lotCode == db.lots[l].lotCode[..|line.lotCode|]
  {
  }

  // ---------------------------------------------------------------------------
  // Product search (app.py:309-317)

  /** `name ILIKE '%q%' OR sku ILIKE '%q%'`, skipped when `q` is empty. */
  predicate MatchesText(p: Product, q: string) {
    q == "" || ILike(p.name, "%" + q + "%") || ILike(p.sku, "%" + q + "%")
  }

  predicate InSearch(db: Db, id: Id, q: string, category: string)
    requires id in db.products
  {
    && MatchesText(db.products[id], q)
    && (category == "" || CategoryName(db, db.products[id]) == Some(category))
  }

  function SearchIds(db: Db, q: string, category: string): set<Id> {
    set id | id in db.products && InSearch(db, id, q, category)
  }

  /** The sort key `Product.name`. */
  function NameKey(db: Db, id: Id): string {
    if id in db.products then db.products[id].name else ""
  }

  /** `ORDER BY name`: string order on the names. */
  function NameOrder(db: Db): (Id, Id) -> bool {
    (a: Id, b: Id) => StrLe(NameKey(db, a), NameKey(db, b))
  }

  lemma NameOrderTotal(db: Db)
    ensures TotalPreorder(NameOrder(db))
  {
    var le := NameOrder(db);
    forall a, b ensures le(a, b) || le(b, a) {
      StrLeTotal(NameKey(db, a), NameKey(db, b));
    }
    forall a, b, c | le(a, b) && le(b, c) ensures le(a, c) {
      StrLeTransitive(NameKey(db, a), NameKey(db, b), NameKey(db, c));
    }
  }

  /** The given products by name. */
  function ByName(db: Db, ids: seq<Id>): (r: seq<Id>)
    ensures multiset(r) == multiset(ids)
    ensures forall i, j :: 0 <= i < j < |r| ==> StrLe(NameKey(db, r[i]), NameKey(db, r[j]))
  {
    NameOrderTotal(db);
    Sort(ids, NameOrder(db))
  }

  /** The product list: every product matching the search text and the category filter,
      once each, by name. */
  function SearchProducts(db: Db, qArg: Option<string>, categoryArg: Option<string>): (r: seq<Id>)
    ensures multiset(r) == multiset(SearchIds(db, FilterArg(qArg), FilterArg(categoryArg)))
    ensures forall i, j :: 0 <= i < j < |r| ==> StrLe(NameKey(db, r[i]), NameKey(db, r[j]))
  {
    var q := FilterArg(qArg);
    var category := FilterArg(categoryArg);
    ByName(db, ScannedProducts(db, q, category))
  }

  /** The products passing the search, in the order a scan of the table meets them. */
  function ScannedProducts(db: Db, q: string, category: string): (kept: seq<Id>)
    ensures multiset(kept) == multiset(SearchIds(db, q, category))
  {
    var ids := SortedIds(db.products.Keys);
    SortedIdsOnce(db.products.Keys);
    var P := (id: Id) => id in db.products && InSearch(db, id, q, category);
    FilterOfScan(ids, db.products.Keys, P, SearchIds(db, q, category));
    Filter(ids, P)
  }

  /** For search text without `%` or `_`, a product matches exactly when the text occurs
      in its name or its sku, ignoring ASCII case. */
  lemma SearchFindsSubstrings(p: Product, q: string)
    requires Literal(q)
    ensures MatchesText(p, q) <==> ContainsFolded(p.name, q) || ContainsFolded(p.sku, q)
  {
    SearchPatternIsSubstring(p.name, q);
    SearchPatternIsSubstring(p.sku, q);
    if q == "" {
      assert OccursAt(p.name, q, 0);
    }
  }
}
