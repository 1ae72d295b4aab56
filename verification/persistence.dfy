/** The session-backed store the route handlers change in place: one map per table, and
    one method per state-changing handler (app.py:252-261, 291-300, 352-393, 411-462,
    497-533) doing the handler's steps on those maps. Each method ends in the state and
    reply the matching function of `Handlers` or `CsvImport` gives, so the properties
    proved about those functions hold of the store. */
module Persistence {
  import opened Common
  import opened Schema
  import opened Handlers
  import opened CsvImport

  class Store {
    var suppliers: map<Id, Supplier>
    var categories: map<Id, Category>
    var products: map<Id, Product>
    var priceLists: map<Id, PriceList>
    var items: map<Id, PriceListItem>
    var lots: map<Id, Lot>

    /** The database the tables hold. */
    function State(): Db
      reads this
    {
      Db(suppliers, categories, products, priceLists, items, lots)
    }

    /** The tables satisfy the schema's integrity rules. */
    ghost predicate Consistent()
      reads this
    {
      Valid(State())
    }

    /** A fresh, empty database (`db.create_all()`). */
    constructor()
      ensures State() == EmptyDb && Consistent()
    {
      suppliers, categories, products := map[], map[], map[];
      priceLists, items, lots := map[], map[], map[];
    }

    /** Restores the tables to `d` (the rollback of a failed transaction). */
    method Restore(d: Db)
      modifies this
      ensures State() == d
    {
      suppliers, categories, products := d.suppliers, d.categories, d.products;
      priceLists, items, lots := d.priceLists, d.items, d.lots;
    }

    /** The add-lot handler (app.py:366-382). */
    method AddLot(pid: Id, lotCode: string, expiry: Option<Day>, qty: Option<int>, notes: Option<string>)
      returns (reply: Result<Id, Error>)
      modifies this
      ensures var e := Handlers.AddLot(old(State()), pid, lotCode, expiry, qty, notes);
        State() == e.db && reply == e.reply
      ensures old(Consistent()) ==> Consistent()
    {
      ghost var before := State();
      if pid !in products {
        return Failure(NotFound);
      }
      var p := products[pid];
      var id := NewId(lots);
      var lot := Lot(pid, lotCode, expiry, Some(OrZero(qty)), notes);
      lots := lots[id := lot];
      products := products[pid := p.(stockQty := Some(OrZero(p.stockQty) + OrZero(lot.qty)))];
      assert State() == before.(lots := lots, products := products);
      assert Handlers.AddLot(before, pid, lotCode, expiry, qty, notes) == Effect(State(), Success(id));
      if Valid(before) {
        AddLotPreservesValid(before, pid, lotCode, expiry, qty, notes);
      }
      return Success(id);
    }

    /** The remove-lot handler (app.py:384-393). */
    method RemoveLot(pid: Id, lid: Id) returns (reply: Result<(), Error>)
      modifies this
      ensures var e := Handlers.RemoveLot(old(State()), pid, lid);
        State() == e.db && reply == e.reply
      ensures old(Consistent()) ==> Consistent()
    {
      if Consistent() {
        RemoveLotPreservesValid(State(), pid, lid);
      }
      if pid !in products || lid !in lots {
        return Failure(NotFound);
      }
      var p := products[pid];
      var qty := OrZero(lots[lid].qty);
      lots := lots - {lid};
      products := products[pid := p.(stockQty := Some(Max(0, OrZero(p.stockQty) - qty)))];
      return Success(());
    }

    /** The delete-supplier handler (app.py:252-261). */
    method DeleteSupplier(sid: Id) returns (reply: Result<(), Error>)
      modifies this
      ensures var e := Handlers.DeleteSupplier(old(State()), sid);
        State() == e.db && reply == e.reply
      ensures old(Consistent()) ==> Consistent()
    {
      if Consistent() {
        DeleteSupplierPreservesValid(State(), sid);
      }
      if sid !in suppliers {
        return Failure(NotFound);
      }
      if SupplierInUse(State(), sid) {
        return Failure(Conflict);
      }
      suppliers := suppliers - {sid};
      return Success(());
    }

    /** The delete-category handler (app.py:291-300). */
    method DeleteCategory(cid: Id) returns (reply: Result<(), Error>)
      modifies this
      ensures var e := Handlers.DeleteCategory(old(State()), cid);
        State() == e.db && reply == e.reply
      ensures old(Consistent()) ==> Consistent()
    {
      if Consistent() {
        DeleteCategoryPreservesValid(State(), cid);
      }
      if cid !in categories {
        return Failure(NotFound);
      }
      if CategoryInUse(State(), cid) {
        return Failure(Conflict);
      }
      categories := categories - {cid};
      return Success(());
    }

    /** The delete-product handler (app.py:352-358); the ORM cascade removes the
        product's lots and price items with it (app.py:90-91). */
    method DeleteProduct(pid: Id) returns (reply: Result<(), Error>)
      modifies this
      ensures var e := Handlers.DeleteProduct(old(State()), pid);
        State() == e.db && reply == e.reply
      ensures old(Consistent()) ==> Consistent()
    {
      if Consistent() {
        DeleteProductPreservesValid(State(), pid);
      }
      if pid !in products {
        return Failure(NotFound);
      }
      lots := map l | l in lots && lots[l].productId != pid :: lots[l];
      items := map i | i in items && items[i].productId != pid :: items[i];
      products := products - {pid};
      return Success(());
    }

    /** The delete-price-list handler (app.py:497-503); the cascade removes its items
        (app.py:102). */
    method DeletePriceList(lid: Id) returns (reply: Result<(), Error>)
      modifies this
      ensures var e := Handlers.DeletePriceList(old(State()), lid);
        State() == e.db && reply == e.reply
      ensures old(Consistent()) ==> Consistent()
    {
      if Consistent() {
        DeletePriceListPreservesValid(State(), lid);
      }
      if lid !in priceLists {
        return Failure(NotFound);
      }
      items := map i | i in items && items[i].priceListId != lid :: items[i];
      priceLists := priceLists - {lid};
      return Success(());
    }

    /** The set-price handler (app.py:512-533). */
    method UpsertPrice(lid: Id, productArg: Option<string>, value: Option<string>, parseFloat: string -> Option<real>)
      returns (reply: Result<PriceChange, Error>)
      modifies this
      ensures var e := Handlers.UpsertPrice(old(State()), lid, productArg, value, parseFloat);
        State() == e.db && reply == e.reply
      ensures old(Consistent()) ==> Consistent()
    {
      if Consistent() {
        UpsertPricePreservesValid(State(), lid, productArg, value, parseFloat);
      }
      if lid !in priceLists {
        return Failure(NotFound);
      }
      var productId := ProductIdArg(productArg);
      if productId.None? {
        return Failure(BadProductId);
      }
      var pid := productId.value;
      if value.None? || value.value == "" {
        var item := ItemFor(items, lid, pid);
        if item.Some? {
          items := items - {item.value};
          return Success(Removed);
        }
        return Success(Unchanged);
      }
      var price := parseFloat(value.value);
      if price.None? {
        return Failure(InvalidPrice);
      }
      var item := ItemFor(items, lid, pid);
      if item.None? {
        if pid !in products {
          return Failure(MissingProduct);
        }
        var i := NewId(items);
        items := items[i := PriceListItem(lid, pid, price.value)];
        return Success(Created(i));
      }
      items := items[item.value := items[item.value].(price := price.value)];
      return Success(Updated(item.value));
    }

    /** `Product.query.filter_by(sku=sku).first()`, adding `Product(sku=sku, name=name)`
        when there is none (app.py:424-427). */
    method FindOrAddProduct(sku: string, name: string) returns (pid: Id)
      modifies this
      ensures (pid, products) == UpsertProduct(old(products), sku, name)
      ensures suppliers == old(suppliers) && categories == old(categories)
      ensures priceLists == old(priceLists) && items == old(items) && lots == old(lots)
    {
      var found := ProductBySku(products, sku);
      if found.Some? {
        pid := found.value;
      } else {
        pid := NewId(products);
        products := products[pid := NewProduct(sku, name)];
      }
    }

    /** The category called `name`, added when missing; none for a blank name
        (app.py:430, 432-438). */
    method FindOrAddCategory(name: string) returns (cat: Option<Id>)
      modifies this
      ensures (cat, categories) == LinkCategory(old(categories), name)
      ensures suppliers == old(suppliers) && products == old(products)
      ensures priceLists == old(priceLists) && items == old(items) && lots == old(lots)
    {
      cat := None;
      if name != [] {
        cat := CategoryByName(categories, name);
        if cat.None? {
          var id := NewId(categories);
          categories := categories[id := Category(name, None)];
          cat := Some(id);
        }
      }
    }

    /** The supplier called `name`, added when missing; none for a blank name
        (app.py:431, 439-445). */
    method FindOrAddSupplier(name: string) returns (sup: Option<Id>)
      modifies this
      ensures (sup, suppliers) == LinkSupplier(old(suppliers), name)
      ensures categories == old(categories) && products == old(products)
      ensures priceLists == old(priceLists) && items == old(items) && lots == old(lots)
    {
      sup := None;
      if name != [] {
        sup := SupplierByName(suppliers, name);
        if sup.None? {
          var id := NewId(suppliers);
          suppliers := suppliers[id := Supplier(name, None, None, None, None, None, None)];
          sup := Some(id);
        }
      }
    }

    /** Writes a row's values into product `pid` (app.py:428, 438, 445, 447-458). */
    method WriteProduct(pid: Id, name: string, cat: Option<Id>, sup: Option<Id>, f: Fields)
      requires pid in products
      modifies this
      ensures products == old(products)[pid := Refresh(old(products)[pid], name, cat, sup, f)]
      ensures suppliers == old(suppliers) && categories == old(categories)
      ensures priceLists == old(priceLists) && items == old(items) && lots == old(lots)
    {
      var p := products[pid].(name := name);
      if cat.Some? {
        p := p.(categoryId := cat);
      }
      if sup.Some? {
        p := p.(supplierId := sup);
      }
      p := p.(unit := Some(f.unit), vat := Some(f.vat), cost := Some(f.cost), price := Some(f.price),
              stockQty := Some(f.stockQty), minStock := Some(f.minStock), notes := f.notes);
      products := products[pid := p];
    }

    /** One product written by sku, with its links (app.py:424-458). */
    method Upsert(sku: string, name: string, catName: string, supName: string, f: Fields)
      modifies this
      ensures State() == CsvImport.Upsert(old(State()), sku, name, catName, supName, f)
    {
      var pid := FindOrAddProduct(sku, name);
      var cat := FindOrAddCategory(catName);
      var sup := FindOrAddSupplier(supName);
      WriteProduct(pid, name, cat, sup, f);
    }

    /** The loop body of the import handler (app.py:420-459): skips a row without a sku,
        stops at a row whose name is NULL, and otherwise writes the row's product. */
    method ImportRow(row: Row, parseFloat: string -> Option<real>) returns (reply: Result<bool, Error>)
      modifies this
      ensures var r := CsvImport.ImportRow(old(State()), row, parseFloat);
        && (r.Success? ==> State() == r.value.0 && reply == Success(r.value.1))
        && (r.Failure? ==> State() == old(State()) && reply == Failure(r.error))
    {
      if !HasSku(row) {
        return Success(false);
      }
      var nameCell := NameCell(row);
      if nameCell.None? {
        return Failure(NullName);
      }
      Upsert(Cell(row, "sku").value, nameCell.value, NameIn(Cell(row, "category")),
             NameIn(Cell(row, "supplier")), RowFields(row, parseFloat));
      return Success(true);
    }

    /** The import handler (app.py:411-462): the rows in file order in one transaction,
        rolled back when a row fails. */
    method ImportProducts(rows: seq<Row>, parseFloat: string -> Option<real>) returns (reply: Result<nat, Error>)
      modifies this
      ensures var e := CsvImport.ImportProducts(old(State()), rows, parseFloat);
        State() == e.db && reply == e.reply
      ensures old(Consistent()) ==> Consistent()
    {
      var saved := State();
      var failed, count := ImportRows(rows, parseFloat);
      ImportProductsOf(saved, rows, parseFloat);
      if failed {
        Restore(saved);
        return Failure(NullName);
      }
      if Valid(saved) {
        ImportAllPreservesValid(saved, rows, parseFloat);
      }
      return Success(count);
    }

    /** The loop over the rows (app.py:420-459): each row applied in turn, stopping at the
        first row that fails. */
    method ImportRows(rows: seq<Row>, parseFloat: string -> Option<real>) returns (failed: bool, count: nat)
      modifies this
      ensures var res := ImportAll(old(State()), rows, parseFloat);
        && (failed <==> res.Failure?)
        && (!failed ==> State() == res.value.0 && count == res.value.1)
    {
      ghost var saved := State();
      count := 0;
      var i := 0;
      while i < |rows|
        invariant 0 <= i <= |rows|
        invariant ImportAll(saved, rows[..i], parseFloat).Success?
        invariant ImportAll(saved, rows[..i], parseFloat).value.0 == State()
        invariant ImportAll(saved, rows[..i], parseFloat).value.1 == count
      {
        ImportStep(saved, rows, i, parseFloat);
        var r := ImportRow(rows[i], parseFloat);
        if r.Failure? {
          ImportFailsAt(saved, rows, i, parseFloat);
          return true, count;
        }
        NextSucceeds(ImportAll(saved, rows[..i], parseFloat), rows[i], parseFloat);
        if r.value {
          count := count + 1;
        }
        i := i + 1;
      }
      assert rows[..i] == rows;
      return false, count;
    }
  }

  /** One more row of the import loop. */
  lemma ImportStep(db: Db, rows: seq<Row>, i: int, parseFloat: string -> Option<real>)
    requires 0 <= i < |rows|
    ensures ImportAll(db, rows[..i + 1], parseFloat) == ImportNext(ImportAll(db, rows[..i], parseFloat), rows[i], parseFloat)
  {
    var prefix := rows[..i + 1];
    assert prefix[..|prefix| - 1] == rows[..i];
    assert prefix[|prefix| - 1] == rows[i];
  }

  /** A row that is applied moves the loop on: the new database is the row's, and the
      count goes up when the row is counted. */
  lemma NextSucceeds(acc: Result<(Db, nat), Error>, row: Row, parseFloat: string -> Option<real>)
    requires acc.Success? && CsvImport.ImportRow(acc.value.0, row, parseFloat).Success?
    ensures var r := CsvImport.ImportRow(acc.value.0, row, parseFloat);
      && ImportNext(acc, row, parseFloat).Success?
      && ImportNext(acc, row, parseFloat).value.0 == r.value.0
      && ImportNext(acc, row, parseFloat).value.1 == if r.value.1 then acc.value.1 + 1 else acc.value.1
  {
  }

  /** A row that aborts makes the whole loop fail. */
  lemma ImportFailsAt(db: Db, rows: seq<Row>, i: int, parseFloat: string -> Option<real>)
    requires 0 <= i < |rows| && Aborts(rows[i])
    ensures ImportAll(db, rows, parseFloat).Failure?
  {
    ImportAllFailsIff(db, rows, parseFloat);
    assert SomeRowAborts(rows);
  }

  /** The handler's effect read off the loop's outcome: nothing is committed on failure. */
  lemma ImportProductsOf(db: Db, rows: seq<Row>, parseFloat: string -> Option<real>)
    ensures var res := ImportAll(db, rows, parseFloat);
      var e := CsvImport.ImportProducts(db, rows, parseFloat);
      && (res.Failure? ==> e.db == db && e.reply == Failure(NullName))
      && (res.Success? ==> e.db == res.value.0 && e.reply == Success(res.value.1))
  {
    ImportAllKeepsOthers(db, rows, parseFloat);
  }
}
