# Inventory store: a Dafny model of the business rules of `app.py`

The system is a small Flask application for running a shop's inventory. It keeps
suppliers, categories and products, the lots of each product with their expiry dates,
and price lists with one price per product. Its route handlers change these tables in
place. It also offers read-only views: a dashboard, a product search and an
expiring-lots report with CSV and PDF exports. Products can be exported to CSV and
imported from CSV.

This project models the tables as maps from row id to record and proves what the
handlers and the views do with them.

- `common.dfy` (`Common`): `Option`, `Result`, and Python's `x or 0` / `x or ''`.
- `text.dfy` (`Text`): `str.strip()`, ASCII case folding, SQL `ILIKE` with `%` and
  `_`, cutting text to a width, newline replacement, and the string order used by
  `ORDER BY`.
- `numbers.dfy` (`Numbers`): Python's `int()` and `str()` on integers, with their
  round trip.
- `queries.dfy` (`Queries`): a `WHERE` filter and an `ORDER BY` sort on sequences.
- `schema.dfy` (`Schema`): the six record types (app.py:59-121). It defines the
  database value `Db` and the integrity rules `Valid` (foreign keys, unique
  columns, one price per list/product pair). It also gives
  `filter_by(...).first()` lookups and fresh ids.
- `handlers.dfy` (`Handlers`): each state-changing handler as a function from the
  old database to the new database and the reply. A handler that fails leaves the
  database unchanged.
- `csv_import.dfy` (`CsvImport`): the product import, one row at a time and over
  the whole file.
- `reports.dfy` (`Reports`): the dashboard counters, the product search and the
  expiring-lots report with its CSV and PDF rows.
- `product_csv.dfy` (`ProductCsv`): the product export and its round trip through
  the import.
- `persistence.dfy` (`Persistence`): the class `Store`. It holds one map field per
  table and has one method per handler, doing the handler's steps on those fields.
  The import is a `while` loop. Each method is proved to end in the state and reply
  the matching function gives, so every lemma about the functions holds of the store.

Inputs that come from outside the program are parameters:
- today's date, as an integer day number;
- the float parser (`string -> Option<real>`) and the float printer (`real -> string`);
- the request arguments, as `Option<string>`: absent, or the text sent.

The code and the system's written description disagree in three places. The model
follows the code:
- **Stock and lots.** The description says a product's `stock_qty` always equals the
  sum of its lots' quantities. The code does not keep that invariant.
  - The edit form and the import write the stock directly.
  - Removing a lot clamps the stock at zero.
  - Removing a lot does not check whose lot it is (app.py:386-390).

  The model proves a weaker fact instead. Adding a lot, and removing a product's own
  lot without clamping, leave the gap between stock and lot total unchanged
  (`AddLotKeepsDrift`, `RemoveOwnLotKeepsDrift`). `RemoveForeignLot` shows how the
  missing ownership check breaks even that.
- **Export and re-import.** The description says exporting the products and importing
  them again reproduces them. The code reproduces the exported lines, not the product
  fields, and only under conditions. What the export and the import normalize:
  - notes are cut to 500 characters, with each `'\n'` turned into a space;
  - empty notes come back as NULL notes;
  - a NULL `vat`, `cost`, `price`, `stock_qty` or `min_stock` is written as 0 and comes
    back as 0;
  - a NULL or empty unit comes back as `pezzi`;
  - a product with an empty sku is skipped by the import;
  - category and supplier names are stripped before they are looked up.

  The round-trip lemmas therefore compare exported lines (`ExportRowOf`), and they ask:
  - a non-empty sku and a non-empty unit;
  - category and supplier names with no whitespace at either end, which stripping
    leaves alone;
  - a cost and a price that print as text the float parser reads back, with a parser
    that reads `0` as zero and refuses the empty string.

  `ExportImportRoundTrip` and `ExportedLineRecreates` state this for one line, and
  `ExportFileRecreates` for a whole exported file imported into an empty database.
- **The `days` argument.** The expiring-lots page falls back to 30 days when `days`
  is not an integer (app.py:593-596). The CSV and PDF exports do not catch the error
  (app.py:619, 650). `ExportLots` is `None` in that case, and `ExportsMatchView`
  shows the two agree whenever the argument parses.

## Model

| member | source | states |
|---|---|---|
| Schema.SortedIds | app.py:59-121 | the ids of a table in strictly ascending order, exactly the table's keys |
| Schema.SortedIdsOnce | app.py:59-121 | a table scan visits every row exactly once (same multiset as the key set) |
| Schema.FindRow | app.py:424 | `filter(P).first()`: a row satisfying `P` when one exists, `None` exactly when none does |
| Schema.NewId | app.py:59-121 | a fresh primary key: not in use, positive, above every id in use |
| Schema.ProductBySku | app.py:424 | the product found has that sku; `None` means no product has it |
| Schema.CategoryByName | app.py:433 | the category found has that name; `None` means no category has it |
| Schema.SupplierByName | app.py:440 | the supplier found has that name; `None` means no supplier has it |
| Schema.ItemFor | app.py:518 | the item found belongs to that list and product; `None` means the pair has no item |
| Handlers.AddLot | app.py:366-382 | fails with NotFound exactly when the product is missing, changing nothing; otherwise adds the new lot (quantity `qty or 0`) under a fresh id, raises the product's stock by that quantity (a missing stock counts as 0) and leaves every other row alone |
| Handlers.RemoveLot | app.py:384-393 | fails with NotFound exactly when the product or the lot is missing; otherwise deletes exactly that lot and sets product `pid`'s stock to `max(0, stock - qty)`, never negative, touching no other product |
| Handlers.AddLotKeepsDrift | app.py:371-377 | adding a lot moves a product's stock and its lot total by the same amount, for every product |
| Handlers.RemoveOwnLotKeepsDrift | app.py:386-390 | removing a product's own lot, when the clamp does not bite, keeps every product's stock-minus-lots gap |
| Handlers.RemoveForeignLot | app.py:386-390 | removing a lot of another product leaves the owner's stock as it was while its lot total drops by the lot's quantity |
| Handlers.LotTotalSplit | app.py:371-390 | the lot total of a product is one lot's contribution plus the total of the rest, whichever lot is taken first |
| Handlers.AddLotPreservesValid | app.py:366-382 | adding a lot keeps every foreign key and unique column intact |
| Handlers.RemoveLotPreservesValid | app.py:384-393 | removing a lot keeps the database valid |
| Handlers.DeleteSupplier | app.py:252-261 | NotFound exactly when the supplier is missing; Conflict exactly when a product links to it; failures change nothing; success removes only that supplier |
| Handlers.DeleteCategory | app.py:291-300 | NotFound exactly when the category is missing; Conflict exactly when a product links to it; failures change nothing; success removes only that category |
| Handlers.DeleteSupplierPreservesValid | app.py:252-261 | the guarded delete keeps the database valid |
| Handlers.DeleteCategoryPreservesValid | app.py:291-300 | the guarded delete keeps the database valid |
| Handlers.SupplierGuardExact | app.py:255-257 | on a database whose product links are valid, removing a supplier keeps them valid exactly when no product links to it: the guard refuses exactly the deletes that would break a link |
| Handlers.CategoryGuardExact | app.py:294-296 | the same for categories: the guard tests exactly the condition that keeps product links valid |
| Handlers.DeleteProduct | app.py:352-358 | NotFound exactly when the product is missing; success removes the product, exactly its lots and exactly its price items (the cascade at app.py:90-91), and keeps every other row |
| Handlers.DeletePriceList | app.py:497-503 | NotFound exactly when the list is missing; success removes the list and exactly its items (the cascade at app.py:102) and keeps every other row |
| Handlers.DeleteProductPreservesValid | app.py:352-358 | the cascading delete leaves no lot or item pointing at the removed product |
| Handlers.DeletePriceListPreservesValid | app.py:497-503 | the cascading delete leaves no item pointing at the removed list |
| Handlers.LotCascadeExact | app.py:91 | on a database whose lots point at products, removing a product keeps that true exactly when no lot belongs to it, which is why the delete must take the product's lots with it |
| Handlers.ProductIdOfNumber | app.py:515 | a product id sent as `str(pid)` is read back as `pid`; a missing `product_id` field is refused |
| Handlers.UpsertPrice | app.py:512-533 | failures change nothing; NotFound exactly when the list is missing; BadProductId exactly when the list exists and `product_id` is missing or not an integer; InvalidPrice exactly when the id parses and a non-empty value does not parse; MissingProduct only for an id with no product |
| Handlers.SetPrice | app.py:516-533 | once the list and the product id are known: failures change nothing; NotFound exactly when the list is missing; InvalidPrice exactly when a non-empty value does not parse; MissingProduct only for an id with no product |
| Handlers.UpsertPriceClears | app.py:517-523 | an empty or missing value leaves no item for the pair, reports Removed exactly when there was one, and keeps every other item |
| Handlers.UpsertPriceSets | app.py:524-531 | a parsed value leaves exactly one item for the pair, carrying that price, and keeps every other item |
| Handlers.UpsertPricePreservesValid | app.py:512-533 | the upsert keeps at most one item per (list, product) pair and every foreign key |
| Handlers.SetPricePreservesValid | app.py:516-533 | setting or clearing the price of a known product id keeps the database valid |
| CsvImport.NameCell | app.py:426-428 | `row.get('name', '')`: NULL exactly when the row's name cell holds NULL (a line shorter than the header), `''` when there is no name column |
| CsvImport.RowFields | app.py:447-458 | the unit read from a row is never empty (`or 'pezzi'`), and the notes are either NULL or non-empty text (`or None`) |
| CsvImport.FloatCell | app.py:450-453 | a non-empty cell the float parser accepts reads as the parsed value; a non-zero value came from such a cell; anything else reads as 0 |
| CsvImport.LinkCategory | app.py:430-438 | a blank name links nothing and adds nothing; otherwise links to a category with exactly that name, adding `Category(name)` under a fresh id only when none exists |
| CsvImport.LinkSupplier | app.py:431-445 | the same for suppliers |
| CsvImport.LinkCategoryUnique | app.py:433-436 | a category is added only when no category has the name, so category names stay unique |
| CsvImport.UpsertProduct | app.py:424-427 | the product with the sku, created as `Product(sku, name)` under a fresh id exactly when no product has the sku |
| CsvImport.ImportRow | app.py:420-459 | a row without a sku is skipped and not counted; otherwise the row fails exactly when its name is NULL, and is counted when it succeeds; lots, price lists and items are untouched |
| CsvImport.UpsertTouchesOne | app.py:424-428 | a row touches one product, the one holding its sku or a new one when none does; every other product is unchanged |
| CsvImport.Upsert | app.py:424-458 | writing a row keeps lots, price lists and items, keeps every product, and leaves the sku's product holding the sku, the name and the row's values |
| CsvImport.ImportRowWrites | app.py:420-458 | a row with a sku and a name succeeds and writes its product: unit the cell or `pezzi` when empty, notes the cell or NULL when empty, each integer `int(cell or 0)` and each float `float(cell or 0)` with the `except` fallback |
| CsvImport.UpsertWrites | app.py:428-458 | the written product holds the sku, the name and the row's values; a non-blank category or supplier name links to an entity with exactly that name, a blank one keeps the old link |
| CsvImport.UpsertKeepsNames | app.py:430-445 | existing categories and suppliers keep their ids and names |
| CsvImport.UpsertPreservesValid | app.py:420-459 | writing a row keeps skus, category names and supplier names unique and every link valid |
| CsvImport.ImportRowPreservesValid | app.py:420-459 | a successful row keeps the database valid |
| CsvImport.ImportProducts | app.py:411-462 | the import either commits or fails with NullName leaving the database unchanged; it never changes lots, price lists or items |
| CsvImport.ImportNext | app.py:420-459 | one turn of the loop: a failure so far stays that failure; a success raises the count by at most one |
| CsvImport.ImportAll | app.py:419-459 | the count reported by a committed import is at most the number of rows |
| CsvImport.ImportAllFailsIff | app.py:420-460 | the import fails exactly when some row has a sku and a NULL name |
| CsvImport.ImportAllCount | app.py:419-459 | the count reported is the number of rows with a non-empty sku |
| CsvImport.ImportAllKeepsOthers | app.py:420-460 | over the whole file, lots, price lists and items are untouched and the only failure is NullName |
| CsvImport.ImportAllPreservesValid | app.py:420-460 | a committed import leaves the database valid |
| CsvImport.UpsertIdempotent | app.py:424-458 | writing the same row twice equals writing it once |
| CsvImport.ImportRowIdempotent | app.py:420-459 | importing the same row twice leaves the database as importing it once |
| CsvImport.SameSkuTouchesOneProduct | app.py:421-459 | two rows with the same sku are both counted but the second adds no product |
| Numbers.IntRoundTrip | app.py:448-457 | `int(str(n)) == n` for every integer |
| Numbers.IntCell | app.py:448-457 | `int(cell or 0)` with `except: 0`: a non-empty cell `int()` accepts reads as its value; a non-zero value came from such a cell; anything else, a cell padded with a separator U+001C-U+001F included, reads as 0 |
| Numbers.ParseIntRejectsSeparator | app.py:448-457 | a separator U+001C-U+001F at the head of a cell is whitespace to `strip()` but not to `int()`: the cell does not parse and reads as 0 |
| Numbers.ParseIntIgnoresBlanks | app.py:448-457 | `int()` ignores the whitespace it skips around its argument (every `str.isspace()` character except the separators U+001C-U+001F): removing it first gives the same result |
| Text.Strip | app.py:430-431 | the stripped text neither starts nor ends with whitespace |
| Text.StripEmptyIffBlank | app.py:430-432 | stripping gives the empty string exactly when the text is all whitespace |
| Text.SearchPatternIsSubstring | app.py:313-314 | for a pattern without wildcards, `ILIKE '%q%'` holds exactly when `q` occurs in the text up to ASCII case |
| Text.NewlinesToSpaces | app.py:406 | `replace('\n', ' ')`: same length, every newline a space and every other character kept |
| Text.Clip | app.py:705-706 | `s[:n]`: a prefix of `s` of length `min(|s|, n)` |
| Text.StrLeTotal | app.py:317 | the name order compares any two names |
| Text.StrLeTransitive | app.py:317 | the name order is transitive |
| Queries.Filter | app.py:603-608 | keeps exactly the elements satisfying the condition, each as often as in the input |
| Queries.Sort | app.py:610 | the result is sorted by the order and is a permutation of the input |
| Reports.LowStockCount | app.py:206 | at most the number of products, and 0 exactly when no product has a stock at or below a positive minimum |
| Reports.ExpiringSoonCount | app.py:207-209 | the dashboard's count of lots expiring within 30 days is at most the number of lots |
| Reports.DashboardMatchesReport | app.py:208-209 | on a valid database the dashboard's count of lots expiring within 30 days equals the length of the unfiltered 30-day report |
| Reports.DaysOfNumber | app.py:593-596 | a `days` argument written as `str(n)` is read as `n` days by the page and by the exports |
| Reports.FilterArg | app.py:597-598 | `request.args.get(name, '').strip()`: no whitespace at either end, and `''` when the argument is absent |
| Reports.ExpiringLots | app.py:603-610 | every lot with an expiry on or before the limit whose product matches the category and supplier filters, each exactly once, by ascending expiry, each with its product present |
| Reports.ExportsMatchView | app.py:593-664 | when `days` parses, the CSV and PDF exports list exactly the lots the page shows, in the same order |
| Reports.ExpiringCsv | app.py:617-646 | the CSV export exists exactly when `days` parses, and then is exactly the rows of the lots the page shows, in the page's order |
| Reports.ExpiringPdf | app.py:648-712 | the PDF export exists exactly when `days` parses, and then is exactly the lines of the lots the page shows, in the page's order |
| Reports.CsvRowsHonourFilters | app.py:626-644 | every CSV row is within the window, shows the filtered category and supplier, and the rows run by date |
| Reports.PdfFollowsCsv | app.py:638-707 | line `i` of the PDF and row `i` of the CSV describe the same lot; the PDF quantity reads back as the CSV quantity, with an empty cell read as 0 |
| Reports.PdfLineFits | app.py:704-706 | the product text is a prefix of "name (sku)" of at most 40 characters, all of it when it fits; the lot code a prefix of at most 12 |
| Reports.SearchProducts | app.py:309-317 | the products matching the stripped search text and category, each exactly once, ordered by name |
| Reports.SearchFindsSubstrings | app.py:312-314 | for text without wildcards a product matches exactly when the text occurs in its name or sku, ignoring ASCII case |
| Reports.ByName | app.py:317 | a permutation of the given products, ordered by name |
| ProductCsv.Sanitize | app.py:406 | at most 500 characters and no `'\n'` (other line breaks, such as `'\r'`, are kept) |
| ProductCsv.SanitizeIdempotent | app.py:406 | sanitizing already-sanitized notes changes nothing |
| ProductCsv.ExportOrder | app.py:401 | every product exactly once, ordered by name |
| ProductCsv.ExportRowOf | app.py:402-406 | a product's exported line carries its sku and name, and notes of at most 500 characters without a newline |
| ProductCsv.ExportProducts | app.py:400-407 | one line per product, lines ordered by name, line `i` built from product `i` of that order |
| ProductCsv.RowFieldsOfCells | app.py:447-458 | the import reads an exported line's unit, numbers and notes back as the exported values |
| ProductCsv.ExportImportRoundTrip | app.py:400-459 | importing a product's exported line into its own database updates that product, adds none, and leaves its exported line unchanged |
| ProductCsv.ExportedLineRecreates | app.py:400-459 | importing an exported line into a database without that sku creates one product whose exported line is the same |
| ProductCsv.LinesRecreate | app.py:419-459 | importing lines with distinct skus that meet the round trip's conditions into a database without products commits, counts every line and creates one product per line, each exporting its own line |
| ProductCsv.ExportFileRecreates | app.py:398-459 | exporting a valid database whose products meet the round trip's conditions and importing the file into an empty database commits, counts every product, creates as many products, and the new database exports exactly the same lines (only the order among equal names may differ) |
| ProductCsv.SampleLineRecreates | app.py:400-459 | the round trip's conditions can be met: a sample line priced 2.5, imported into an empty database with a parser that reads its price back, creates one product whose exported line is the sample |
| Persistence.Store.constructor | app.py:59-121 | an empty, valid store |
| Persistence.Store.Restore | app.py:460 | the rollback of a failed import: the store is set back to the saved state |
| Persistence.Store.AddLot | app.py:366-382 | the store ends in the state and reply of `Handlers.AddLot` and stays valid |
| Persistence.Store.RemoveLot | app.py:384-393 | the store ends in the state and reply of `Handlers.RemoveLot` and stays valid |
| Persistence.Store.DeleteSupplier | app.py:252-261 | the store ends in the state and reply of `Handlers.DeleteSupplier` and stays valid |
| Persistence.Store.DeleteCategory | app.py:291-300 | the store ends in the state and reply of `Handlers.DeleteCategory` and stays valid |
| Persistence.Store.DeleteProduct | app.py:352-358 | the store ends in the state and reply of `Handlers.DeleteProduct` and stays valid |
| Persistence.Store.DeletePriceList | app.py:497-503 | the store ends in the state and reply of `Handlers.DeletePriceList` and stays valid |
| Persistence.Store.UpsertPrice | app.py:512-533 | the store ends in the state and reply of `Handlers.UpsertPrice` and stays valid |
| Persistence.Store.FindOrAddProduct | app.py:424-427 | finds or adds the product by sku as `CsvImport.UpsertProduct` does, touching no other table |
| Persistence.Store.FindOrAddCategory | app.py:430-438 | finds or adds the category by name as `CsvImport.LinkCategory` does |
| Persistence.Store.FindOrAddSupplier | app.py:431-445 | finds or adds the supplier by name as `CsvImport.LinkSupplier` does |
| Persistence.Store.WriteProduct | app.py:428-458 | assigns the row's name, links and values to the product in place, touching no other product and no other table |
| Persistence.Store.Upsert | app.py:424-458 | finds or adds the product, category and supplier and writes the row, ending in the state `CsvImport.Upsert` gives |
| Persistence.Store.ImportRow | app.py:420-459 | one pass of the loop body: the state and count of `CsvImport.ImportRow`, with no change when the row fails |
| Persistence.Store.ImportProducts | app.py:411-462 | the handler ends in the state and reply of `CsvImport.ImportProducts`, rolling back on a failed row, and the store stays valid |
| Persistence.Store.ImportRows | app.py:420-459 | the loop over the rows fails exactly when `CsvImport.ImportAll` does, and otherwise ends in its state and count |

## Left out

- The web layer is not part of this model: routing, login and the `User` table, password hashing, flash messages, templates and redirects.
- Form validation is not modelled. The handlers take already-validated values, so the add-lot handler's "form invalid" branch (app.py:380-381) is absent.
- The create and edit forms for suppliers, categories, products and price lists are not modelled, nor the pages that only list rows.
- Floats are modelled as `real`. Parsing and printing are parameters, and the round-trip lemmas state what they must satisfy; binary floating point and rounding are not modelled.
- Dates are integer day numbers and today is a parameter. `strftime` formatting and `timedelta` overflow are not modelled. `ExpiryRow.expiry` holds the day rather than its text.
- The CSV byte layer is not modelled: the UTF-8 BOM, quoting and decoding errors. A row is the map `csv.DictReader` yields.
- The import's "no file selected" branch (app.py:414-416) is not modelled.
- PDF drawing is not modelled: fonts, coordinates, page breaks, the title and the timestamp. Only the text of each report line is modelled.
- Text comparison uses ASCII case folding and code-point order. Non-ASCII case folding and database collations are not modelled, and neither are the non-ASCII decimal digits that Python's `int()` also accepts. Whitespace is modelled in full, including the separators U+001C-U+001F that `strip()` removes and `int()` does not.
- Column length limits and 64-bit integer overflow are not modelled; integers are unbounded.
- SQL leaves the order of lots with the same expiry date, and of products with the same name, unspecified. The model fixes one order.
- Handlers.UpsertPrice: creating an item for a product id that does not exist fails with `MissingProduct` and changes nothing, as an enforced foreign key would. SQLite without foreign-key enforcement would store a dangling item instead; that outcome is not modelled.
- CsvImport.ImportRow: the NOT NULL violation on a row whose name cell is missing aborts the whole import. The database error raised, and where it surfaces (at the next autoflush or at the commit), are not modelled.
- Handlers are modelled as running one at a time. There is no unique constraint on the (price list, product) pair of an item (app.py:104-108), so the one-item-per-pair rule rests on the find-then-insert of app.py:525-528; two submissions running concurrently could both insert. Concurrency is not modelled.
- Deleting a supplier or category that a product still links to, or a product that still has lots, never happens in the program: the handlers guard (app.py:255-257, 294-296) or cascade (app.py:90-91). What the ORM would then do instead, setting the product's link to NULL through the relationships at app.py:68 and 74, or failing on the NOT NULL `Lot.product_id` (app.py:115), is not modelled; `SupplierGuardExact`, `CategoryGuardExact` and `LotCascadeExact` state the condition each guard or cascade keeps.
