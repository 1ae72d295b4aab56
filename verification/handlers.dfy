/** What each state-changing route handler of app.py does to the database, as a function
    from the old database to the new one and the reply. Each handler runs as one
    transaction: when it fails, the database is unchanged. */
module Handlers {
  import opened Common
  import opened Schema
  import opened Numbers

  /** The handlers' failure replies: `get_or_404` (NotFound), the "linked products"
      warning (Conflict), the foreign key of a new price item naming a missing product
      (MissingProduct), a product id `int()` rejects (BadProductId), a price `float()`
      rejects (InvalidPrice). */
  datatype Error = NotFound | Conflict | MissingProduct | BadProductId | InvalidPrice | NullName

  datatype Effect<T> = Effect(db: Db, reply: Result<T, Error>)

  /** `p.stock_qty or 0` */
  function StockOf(db: Db, pid: Id): int
    requires pid in db.products
  {
    OrZero(db.products[pid].stockQty)
  }

  // ---------------------------------------------------------------------------
  // Lots (app.py:366-393)

  /** Adds lot `lotCode` to product `pid` and raises the product's stock by the lot's
      quantity; a missing quantity or stock counts as 0. */
  function AddLot(db: Db, pid: Id, lotCode: string, expiry: Option<Day>, qty: Option<int>,
                  notes: Option<string>): (e: Effect<Id>)
    ensures e.reply.Success? <==> pid in db.products
    ensures e.reply.Failure? ==> e.db == db && e.reply.error == NotFound
    ensures e.reply.Success? ==>
      var id := e.reply.value;
      && id !in db.lots
      && e.db.lots == db.lots[id := Lot(pid, lotCode, expiry, Some(OrZero(qty)), notes)]
      && e.db.products.Keys == db.products.Keys
      && StockOf(e.db, pid) == StockOf(db, pid) + OrZero(qty)
      && e.db.products[pid] == db.products[pid].(stockQty := e.db.products[pid].stockQty)
      && (forall q :: q in db.products && q != pid ==> e.db.products[q] == db.products[q])
      && e.db.(lots := db.lots, products := db.products) == db
  {
    if pid !in db.products then Effect(db, Failure(NotFound))
    else
      var id := NewId(db.lots);
      var lot := Lot(pid, lotCode, expiry, Some(OrZero(qty)), notes);
      var p := db.products[pid];
      var stock := OrZero(p.stockQty) + OrZero(lot.qty);
      Effect(db.(lots := db.lots[id := lot], products := db.products[pid := p.(stockQty := Some(stock))]),
             Success(id))
  }

  /** Deletes lot `lid` and lowers the stock of product `pid` by the lot's quantity,
      never below zero. Whether the lot belongs to `pid` is not checked. */
  function RemoveLot(db: Db, pid: Id, lid: Id): (e: Effect<()>)
    ensures e.reply.Success? <==> pid in db.products && lid in db.lots
    ensures e.reply.Failure? ==> e.db == db && e.reply.error == NotFound
    ensures e.reply.Success? ==>
      && e.db.lots == db.lots - {lid}
      && e.db.products.Keys == db.products.Keys
      && StockOf(e.db, pid) == Max(0, StockOf(db, pid) - OrZero(db.lots[lid].qty))
      && e.db.products[pid].stockQty.Some? && StockOf(e.db, pid) >= 0
      && e.db.products[pid] == db.products[pid].(stockQty := e.db.products[pid].stockQty)
      && (forall q :: q in db.products && q != pid ==> e.db.products[q] == db.products[q])
      && e.db.(lots := db.lots, products := db.products) == db
  {
    if pid !in db.products || lid !in db.lots then Effect(db, Failure(NotFound))
    else
      var p := db.products[pid];
      var qty := OrZero(db.lots[lid].qty);
      Effect(db.(lots := db.lots - {lid},
                 products := db.products[pid := p.(stockQty := Some(Max(0, OrZero(p.stockQty) - qty)))]),
             Success(()))
  }

  /** The quantity a lot adds to product `pid`'s lot total. */
  function Contribution(lot: Lot, pid: Id): int {
    if lot.productId == pid then OrZero(lot.qty) else 0
  }

  lemma NonEmptyMap(lots: map<Id, Lot>)
    requires lots != map[]
    ensures exists k :: k in lots
  {
    if forall k :: k !in lots {
      assert false;
    }
  }

  /** The sum of the quantities of product `pid`'s lots. */
  ghost function LotTotal(lots: map<Id, Lot>, pid: Id): int
    decreases |lots|
  {
    if lots == map[] then 0
    else
      NonEmptyMap(lots);
      var k :| k in lots;
      assert |lots - {k}| < |lots| by {
        assert (lots - {k}).Keys == lots.Keys - {k};
      }
      Contribution(lots[k], pid) + LotTotal(lots - {k}, pid)
  }

  /** The lot total can be computed starting from any lot. */
  lemma {:induction false} LotTotalSplit(lots: map<Id, Lot>, pid: Id, k: Id)
    requires k in lots
    ensures LotTotal(lots, pid) == Contribution(lots[k], pid) + LotTotal(lots - {k}, pid)
    decreases |lots|
  {
    var j :| j in lots && LotTotal(lots, pid) == Contribution(lots[j], pid) + LotTotal(lots - {j}, pid);
    if j != k {
      assert (lots - {j}).Keys == lots.Keys - {j};
      assert (lots - {k}).Keys == lots.Keys - {k};
      LotTotalSplit(lots - {j}, pid, k);
      LotTotalSplit(lots - {k}, pid, j);
      assert lots - {j} - {k} == lots - {k} - {j};
    }
  }

  /** How far product `pid`'s stock is from the sum of its lots. The source keeps the
      stock by hand, so this is not always 0; the lot handlers should not move it. */
  ghost function Drift(db: Db, pid: Id): int
    requires pid in db.products
  {
    StockOf(db, pid) - LotTotal(db.lots, pid)
  }

  /** Adding a lot moves a product's stock and its lot total by the same amount, so
      a stock that matched its lots still matches them. */
  lemma AddLotKeepsDrift(db: Db, pid: Id, lotCode: string, expiry: Option<Day>, qty: Option<int>,
                         notes: Option<string>, q: Id)
    requires pid in db.products && q in db.products
    ensures var e := AddLot(db, pid, lotCode, expiry, qty, notes);
            q in e.db.products && Drift(e.db, q) == Drift(db, q)
  {
    var e := AddLot(db, pid, lotCode, expiry, qty, notes);
    var id := e.reply.value;
    LotTotalSplit(e.db.lots, q, id);
    assert e.db.lots - {id} == db.lots;
  }

  /** Removing one of `pid`'s own lots, when no clamping happens, keeps the drift of
      every product. */
  lemma RemoveOwnLotKeepsDrift(db: Db, pid: Id, lid: Id, q: Id)
    requires pid in db.products && lid in db.lots && q in db.products
    requires db.lots[lid].productId == pid
    requires StockOf(db, pid) >= OrZero(db.lots[lid].qty)
    ensures var e := RemoveLot(db, pid, lid);
            q in e.db.products && Drift(e.db, q) == Drift(db, q)
  {
    LotTotalSplit(db.lots, q, lid);
  }

  /** The removal handler does not check that the lot belongs to `pid`: when it belongs
      to another product, that owner keeps its stock although its lot total drops. */
  lemma RemoveForeignLot(db: Db, pid: Id, lid: Id, owner: Id)
    requires pid in db.products && lid in db.lots
    requires db.lots[lid].productId == owner && owner != pid && owner in db.products
    ensures var e := RemoveLot(db, pid, lid);
            && owner in e.db.products && StockOf(e.db, owner) == StockOf(db, owner)
            && LotTotal(e.db.lots, owner) == LotTotal(db.lots, owner) - OrZero(db.lots[lid].qty)
            && LotTotal(e.db.lots, pid) == LotTotal(db.lots, pid)
  {
    LotTotalSplit(db.lots, owner, lid);
    LotTotalSplit(db.lots, pid, lid);
  }

  lemma AddLotPreservesValid(db: Db, pid: Id, lotCode: string, expiry: Option<Day>, qty: Option<int>,
                             notes: Option<string>)
    requires Valid(db)
    ensures Valid(AddLot(db, pid, lotCode, expiry, qty, notes).db)
  {
  }

  lemma RemoveLotPreservesValid(db: Db, pid: Id, lid: Id)
    requires Valid(db)
    ensures Valid(RemoveLot(db, pid, lid).db)
  {
  }

  // ---------------------------------------------------------------------------
  // Guarded deletes (app.py:252-261, 291-300)

  /** `s.products` is non-empty. */
  predicate SupplierInUse(db: Db, sid: Id) {
    exists p :: p in db.products && db.products[p].supplierId == Some(sid)
  }

  /** `c.products` is non-empty. */
  predicate CategoryInUse(db: Db, cid: Id) {
    exists p :: p in db.products && db.products[p].categoryId == Some(cid)
  }

  /** Deletes supplier `sid` unless some product is linked to it. */
  function DeleteSupplier(db: Db, sid: Id): (e: Effect<()>)
    ensures e.reply == Failure(NotFound) <==> sid !in db.suppliers
    ensures e.reply == Failure(Conflict) <==> sid in db.suppliers && SupplierInUse(db, sid)
    ensures e.reply.Failure? ==> e.db == db
    ensures e.reply.Success? ==> e.db == db.(suppliers := db.suppliers - {sid}) && sid in db.suppliers
  {
    if sid !in db.suppliers then Effect(db, Failure(NotFound))
    else if SupplierInUse(db, sid) then Effect(db, Failure(Conflict))
    else Effect(db.(suppliers := db.suppliers - {sid}), Success(()))
  }

  /** Deletes category `cid` unless some product is linked to it. */
  function DeleteCategory(db: Db, cid: Id): (e: Effect<()>)
    ensures e.reply == Failure(NotFound) <==> cid !in db.categories
    ensures e.reply == Failure(Conflict) <==> cid in db.categories && CategoryInUse(db, cid)
    ensures e.reply.Failure? ==> e.db == db
    ensures e.reply.Success? ==> e.db == db.(categories := db.categories - {cid}) && cid in db.categories
  {
    if cid !in db.categories then Effect(db, Failure(NotFound))
    else if CategoryInUse(db, cid) then Effect(db, Failure(Conflict))
    else Effect(db.(categories := db.categories - {cid}), Success(()))
  }

  lemma DeleteSupplierPreservesValid(db: Db, sid: Id)
    requires Valid(db)
    ensures Valid(DeleteSupplier(db, sid).db)
  {
  }

  lemma DeleteCategoryPreservesValid(db: Db, cid: Id)
    requires Valid(db)
    ensures Valid(DeleteCategory(db, cid).db)
  {
  }

  /** The guard tests exactly the condition under which dropping the supplier keeps
      every product's supplier link valid: links are stored as plain ids here, and no
      other step of the handler touches the products. */
  lemma SupplierGuardExact(db: Db, sid: Id)
    requires ProductLinksValid(db)
    ensures ProductLinksValid(db.(suppliers := db.suppliers - {sid})) <==> !SupplierInUse(db, sid)
  {
    if SupplierInUse(db, sid) {
      var p :| p in db.products && db.products[p].supplierId == Some(sid);
      assert !LinkOk(db.products[p].supplierId, db.suppliers - {sid});
    }
  }

  /** The same for categories: the guard refuses exactly the deletes that would leave a
      product's category link pointing at nothing. */
  lemma CategoryGuardExact(db: Db, cid: Id)
    requires ProductLinksValid(db)
    ensures ProductLinksValid(db.(categories := db.categories - {cid})) <==> !CategoryInUse(db, cid)
  {
    if CategoryInUse(db, cid) {
      var p :| p in db.products && db.products[p].categoryId == Some(cid);
      assert !LinkOk(db.products[p].categoryId, db.categories - {cid});
    }
  }

  // ---------------------------------------------------------------------------
  // Cascading deletes (app.py:90-91, 102, 352-358, 497-503)

  /** Deletes product `pid` together with its lots and its price-list items. */
  function DeleteProduct(db: Db, pid: Id): (e: Effect<()>)
    ensures e.reply.Success? <==> pid in db.products
    ensures e.reply.Failure? ==> e.db == db && e.reply.error == NotFound
    ensures e.reply.Success? ==>
      && e.db.products == db.products - {pid}
      && (forall l :: l in e.db.lots <==> l in db.lots && db.lots[l].productId != pid)
      && (forall l :: l in e.db.lots ==> e.db.lots[l] == db.lots[l])
      && (forall i :: i in e.db.items <==> i in db.items && db.items[i].productId != pid)
      && (forall i :: i in e.db.items ==> e.db.items[i] == db.items[i])
      && e.db.(products := db.products, lots := db.lots, items := db.items) == db
  {
    if pid !in db.products then Effect(db, Failure(NotFound))
    else
      Effect(db.(products := db.products - {pid},
                 lots := map l | l in db.lots && db.lots[l].productId != pid :: db.lots[l],
                 items := map i | i in db.items && db.items[i].productId != pid :: db.items[i]),
             Success(()))
  }

  /** Deletes price list `lid` together with its items. */
  function DeletePriceList(db: Db, lid: Id): (e: Effect<()>)
    ensures e.reply.Success? <==> lid in db.priceLists
    ensures e.reply.Failure? ==> e.db == db && e.reply.error == NotFound
    ensures e.reply.Success? ==>
      && e.db.priceLists == db.priceLists - {lid}
      && (forall i :: i in e.db.items <==> i in db.items && db.items[i].priceListId != lid)
      && (forall i :: i in e.db.items ==> e.db.items[i] == db.items[i])
      && e.db.(priceLists := db.priceLists, items := db.items) == db
  {
    if lid !in db.priceLists then Effect(db, Failure(NotFound))
    else
      Effect(db.(priceLists := db.priceLists - {lid},
                 items := map i | i in db.items && db.items[i].priceListId != lid :: db.items[i]),
             Success(()))
  }

  lemma DeleteProductPreservesValid(db: Db, pid: Id)
    requires Valid(db)
    ensures Valid(DeleteProduct(db, pid).db)
  {
  }

  lemma DeletePriceListPreservesValid(db: Db, lid: Id)
    requires Valid(db)
    ensures Valid(DeletePriceList(db, lid).db)
  {
  }

  /** Dropping a product row alone keeps every lot's product present exactly when the
      product has no lots; the cascade removes those lots with it. */
  lemma LotCascadeExact(db: Db, pid: Id)
    requires LotsValid(db)
    ensures LotsValid(db.(products := db.products - {pid})) <==> forall l :: l in db.lots ==> db.lots[l].productId != pid
  {
    if exists l :: l in db.lots && db.lots[l].productId == pid {
      var l :| l in db.lots && db.lots[l].productId == pid;
      assert db.lots[l].productId !in db.products - {pid};
    }
  }

  // ---------------------------------------------------------------------------
  // Price upsert (app.py:512-533)

  datatype PriceChange = Removed | Unchanged | Updated(item: Id) | Created(item: Id)

  /** `int(request.form.get('product_id'))`: a missing field raises as `int(None)` does. */
  function ProductIdArg(arg: Option<string>): Option<Id> {
    if arg.None? then None else ParseInt(arg.value)
  }

  /** A product id sent as `str(pid)` is read back as `pid`; a missing field is refused. */
  lemma ProductIdOfNumber(pid: Id)
    ensures ProductIdArg(Some(IntToString(pid))) == Some(pid)
    ensures ProductIdArg(None) == None
  {
    IntRoundTrip(pid);
  }

  /** The set-price handler: after the list is found, the product id is read from the
      form, and a missing or non-integer id raises before anything changes. */
  function UpsertPrice(db: Db, lid: Id, productArg: Option<string>, value: Option<string>,
                       parseFloat: string -> Option<real>): (e: Effect<PriceChange>)
    ensures e.reply.Failure? ==> e.db == db
    ensures e.reply == Failure(NotFound) <==> lid !in db.priceLists
    ensures e.reply == Failure(BadProductId) <==> lid in db.priceLists && ProductIdArg(productArg).None?
    ensures e.reply == Failure(InvalidPrice) <==>
      lid in db.priceLists && ProductIdArg(productArg).Some?
      && value.Some? && value.value != "" && parseFloat(value.value).None?
    ensures e.reply == Failure(MissingProduct) ==>
      ProductIdArg(productArg).Some? && ProductIdArg(productArg).value !in db.products
  {
    if lid !in db.priceLists then Effect(db, Failure(NotFound))
    else match ProductIdArg(productArg)
      case None => Effect(db, Failure(BadProductId))
      case Some(pid) => SetPrice(db, lid, pid, value, parseFloat)
  }

  /** Sets, overwrites or clears the price of product `pid` in price list `lid`. An
      absent or empty value removes the item if there is one; any other value must parse
      as a float. */
  function SetPrice(db: Db, lid: Id, pid: Id, value: Option<string>,
                    parseFloat: string -> Option<real>): (e: Effect<PriceChange>)
    ensures e.reply.Failure? ==> e.db == db
    ensures e.reply == Failure(NotFound) <==> lid !in db.priceLists
    ensures e.reply == Failure(InvalidPrice) <==>
      lid in db.priceLists && value.Some? && value.value != "" && parseFloat(value.value).None?
    ensures e.reply == Failure(MissingProduct) ==> pid !in db.products
    ensures e.reply != Failure(BadProductId) && e.reply != Failure(Conflict) && e.reply != Failure(NullName)
  {
    if lid !in db.priceLists then Effect(db, Failure(NotFound))
    else if value.None? || value.value == "" then
      match ItemFor(db.items, lid, pid)
      case Some(i) => Effect(db.(items := db.items - {i}), Success(Removed))
      case None => Effect(db, Success(Unchanged))
    else
      match parseFloat(value.value)
      case None => Effect(db, Failure(InvalidPrice))
      case Some(price) =>
        match ItemFor(db.items, lid, pid)
        case Some(i) => Effect(db.(items := db.items[i := db.items[i].(price := price)]), Success(Updated(i)))
        case None =>
          if pid !in db.products then Effect(db, Failure(MissingProduct))
          else
            var i := NewId(db.items);
            Effect(db.(items := db.items[i := PriceListItem(lid, pid, price)]), Success(Created(i)))
  }

  /** Clearing the price leaves no item for the pair, reports `Removed` exactly when there
      was one, and keeps every other item. */
  lemma UpsertPriceClears(db: Db, lid: Id, productArg: Option<string>, pid: Id, value: Option<string>,
                          parseFloat: string -> Option<real>)
    requires Valid(db) && lid in db.priceLists && ProductIdArg(productArg) == Some(pid)
    requires value.None? || value.value == ""
    ensures var e := UpsertPrice(db, lid, productArg, value, parseFloat);
      && e.reply.Success?
      && (e.reply.value == Removed <==> ItemsFor(db.items, lid, pid) != {})
      && ItemsFor(e.db.items, lid, pid) == {}
      && (forall i :: i in e.db.items <==> i in db.items && i !in ItemsFor(db.items, lid, pid))
      && (forall i :: i in e.db.items ==> e.db.items[i] == db.items[i])
      && e.db.(items := db.items) == db
  {
    var e := SetPrice(db, lid, pid, value, parseFloat);
    assert UpsertPrice(db, lid, productArg, value, parseFloat) == e;
    match ItemFor(db.items, lid, pid)
    case Some(i) =>
      assert e == Effect(db.(items := db.items - {i}), Success(Removed));
      OnlyItemFor(db.items, lid, pid, i);
    case None =>
      assert e == Effect(db, Success(Unchanged));
      assert ItemsFor(db.items, lid, pid) == {};
  }

  /** With one item per pair, the item found for a pair is the pair's only item, and
      dropping it leaves the pair without one. */
  lemma OnlyItemFor(items: map<Id, PriceListItem>, lid: Id, pid: Id, i: Id)
    requires OneItemPerPair(items) && i in items
    requires items[i].priceListId == lid && items[i].productId == pid
    ensures ItemsFor(items, lid, pid) == {i}
    ensures ItemsFor(items - {i}, lid, pid) == {}
  {
    forall j | j in ItemsFor(items, lid, pid) ensures j == i {
      assert items[j].priceListId == items[i].priceListId && items[j].productId == items[i].productId;
    }
  }

  /** Setting a price for an existing product leaves exactly one item for the pair,
      carrying that price, and keeps every other item. */
  lemma UpsertPriceSets(db: Db, lid: Id, productArg: Option<string>, pid: Id, value: string, price: real,
                        parseFloat: string -> Option<real>)
    requires Valid(db) && lid in db.priceLists && pid in db.products && ProductIdArg(productArg) == Some(pid)
    requires value != "" && parseFloat(value) == Some(price)
    ensures var e := UpsertPrice(db, lid, productArg, Some(value), parseFloat);
      && e.reply.Success?
      && (exists i :: ItemsFor(e.db.items, lid, pid) == {i} && e.db.items[i].price == price)
      && (forall i :: i in db.items && i !in ItemsFor(db.items, lid, pid) ==>
            i in e.db.items && e.db.items[i] == db.items[i])
      && e.db.items.Keys - ItemsFor(e.db.items, lid, pid) == db.items.Keys - ItemsFor(db.items, lid, pid)
      && e.db.(items := db.items) == db
  {
    var e := SetPrice(db, lid, pid, Some(value), parseFloat);
    assert UpsertPrice(db, lid, productArg, Some(value), parseFloat) == e;
    match ItemFor(db.items, lid, pid)
    case Some(i) =>
      assert e == Effect(db.(items := db.items[i := db.items[i].(price := price)]), Success(Updated(i)));
      OnlyItemFor(db.items, lid, pid, i);
      PutPairItem(db.items, i, db.items[i].(price := price), lid, pid);
    case None =>
      assert e == Effect(db.(items := db.items[NewId(db.items) := PriceListItem(lid, pid, price)]),
                         Success(Created(NewId(db.items))));
      assert ItemsFor(db.items, lid, pid) == {};
      PutPairItem(db.items, NewId(db.items), PriceListItem(lid, pid, price), lid, pid);
  }

  /** Storing an item for pair (lid, pid) under the only id that held one, or under a new
      id when none did, leaves that id as the pair's only item and every other item as
      it was. */
  lemma PutPairItem(items: map<Id, PriceListItem>, i: Id, it: PriceListItem, lid: Id, pid: Id)
    requires it.priceListId == lid && it.productId == pid
    requires ItemsFor(items, lid, pid) <= {i}
    requires i in items ==> SamePair(items[i], it)
    ensures ItemsFor(items[i := it], lid, pid) == {i}
    ensures forall x :: x in items && x !in ItemsFor(items, lid, pid) ==>
      x in items[i := it] && items[i := it][x] == items[x]
    ensures items[i := it].Keys - ItemsFor(items[i := it], lid, pid) == items.Keys - ItemsFor(items, lid, pid)
  {
    var items' := items[i := it];
    assert ItemsFor(items', lid, pid) == {i};
    assert i in items ==> i in ItemsFor(items, lid, pid);
  }

  lemma UpsertPricePreservesValid(db: Db, lid: Id, productArg: Option<string>, value: Option<string>,
                                  parseFloat: string -> Option<real>)
    requires Valid(db)
    ensures Valid(UpsertPrice(db, lid, productArg, value, parseFloat).db)
  {
    if lid in db.priceLists && ProductIdArg(productArg).Some? {
      SetPricePreservesValid(db, lid, ProductIdArg(productArg).value, value, parseFloat);
    }
  }

  lemma SetPricePreservesValid(db: Db, lid: Id, pid: Id, value: Option<string>,
                               parseFloat: string -> Option<real>)
    requires Valid(db)
    ensures Valid(SetPrice(db, lid, pid, value, parseFloat).db)
  {
    var e := SetPrice(db, lid, pid, value, parseFloat);
    if lid !in db.priceLists {
    } else if value.None? || value.value == "" {
      match ItemFor(db.items, lid, pid)
      case Some(i) =>
        assert e.db == db.(items := db.items - {i});
        DropItemKeepsValid(db, i);
      case None =>
    } else {
      match parseFloat(value.value)
      case None =>
      case Some(price) =>
        match ItemFor(db.items, lid, pid)
        case Some(i) =>
          assert e.db == db.(items := db.items[i := db.items[i].(price := price)]);
          RepriceKeepsValid(db, i, price);
        case None =>
          if pid in db.products {
            var i := NewId(db.items);
            assert e.db == db.(items := db.items[i := PriceListItem(lid, pid, price)]);
            NewItemKeepsValid(db, lid, pid, price);
          }
    }
  }

  lemma DropItemKeepsValid(db: Db, i: Id)
    requires Valid(db)
    ensures Valid(db.(items := db.items - {i}))
  {
    ValidWithItems(db, db.items - {i});
  }

  lemma RepriceKeepsValid(db: Db, i: Id, price: real)
    requires Valid(db) && i in db.items
    ensures Valid(db.(items := db.items[i := db.items[i].(price := price)]))
  {
    var items' := db.items[i := db.items[i].(price := price)];
    assert forall x :: x in items' ==> x in db.items && SamePair(items'[x], db.items[x]);
    ValidWithItems(db, items');
  }

  lemma NewItemKeepsValid(db: Db, lid: Id, pid: Id, price: real)
    requires Valid(db) && lid in db.priceLists && pid in db.products
    requires ItemFor(db.items, lid, pid).None?
    ensures Valid(db.(items := db.items[NewId(db.items) := PriceListItem(lid, pid, price)]))
  {
    var n := NewId(db.items);
    var items := db.items[n := PriceListItem(lid, pid, price)];
    forall a, b | a in items && b in items && SamePair(items[a], items[b]) ensures a == b {
      if a != n && b != n {
        assert SamePair(db.items[a], db.items[b]);
      }
    }
    ValidWithItems(db, items);
  }

  predicate SamePair(a: PriceListItem, b: PriceListItem) {
    a.priceListId == b.priceListId && a.productId == b.productId
  }

  /** Replacing only the items table keeps the database valid when the new items still
      point at existing rows and price each pair at most once. */
  lemma ValidWithItems(db: Db, items: map<Id, PriceListItem>)
    requires Valid(db)
    requires forall i :: i in items ==> items[i].productId in db.products && items[i].priceListId in db.priceLists
    requires OneItemPerPair(items)
    ensures Valid(db.(items := items))
  {
  }
}
