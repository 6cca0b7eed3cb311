/** The stock service: a query over the stock table and the three operations
    that change stock (receive, issue, transfer). Each operation is one
    transaction: every check comes before the first write, so an error leaves
    the stores exactly as they were. */
module StockService {
  import opened Entities
  import opened Ledger
  import opened Database

  /** The stock rows of a warehouse, restricted to one product when a product
      id is given. */
  function GetStock(db: Inventory, warehouseId: int, productId: Option<int>): (r: Result<StockTable>)
    reads db
    ensures r.Err? <==> warehouseId !in db.warehouses
    ensures r.Err? ==> r.error == WarehouseNotFound
    ensures r.Ok? ==> forall k :: k in r.value <==>
              k in db.stock && k.warehouse == warehouseId
              && (Restricts(productId) ==> k.product == productId.value)
    ensures r.Ok? ==> forall k :: k in r.value ==> r.value[k] == db.stock[k]
  {
    if warehouseId !in db.warehouses then Err(WarehouseNotFound)
    else
      Ok(map k | k in db.stock && k.warehouse == warehouseId
                 && (Restricts(productId) ==> k.product == productId.value) :: db.stock[k])
  }

  /** Every quantity the query reports is the net of the ledger for its pair. */
  lemma GetStockAgreesWithLedger(db: Inventory, warehouseId: int, productId: Option<int>)
    requires db.Valid()
    ensures var r := GetStock(db, warehouseId, productId);
            r.Ok? ==> forall k :: k in r.value ==> r.value[k] == Net(db.movements, k)
  {
  }

  /** Receives `quantity` units of a product into a warehouse. The note is
      accepted but not recorded. */
  method StockIn(db: Inventory, warehouseId: int, productId: int, quantity: int, note: Option<string>)
    returns (r: Result<StockRow>)
    modifies db
    ensures quantity <= 0 ==> r == Err(QuantityNotPositive)
    ensures quantity > 0 && warehouseId !in db.warehouses ==> r == Err(WarehouseNotFound)
    ensures quantity > 0 && warehouseId in db.warehouses && productId !in db.products
            ==> r == Err(ProductNotFound)
    ensures quantity > 0 && warehouseId in db.warehouses && productId in db.products
            && db.warehouses[warehouseId] != db.products[productId]
            ==> r == Err(ProductWarehouseCompanyMismatch)
    ensures r.Ok? <==> quantity > 0 && db.SameCompany(warehouseId, productId)
    ensures r.Err? ==> db.stock == old(db.stock) && db.movements == old(db.movements)
    ensures r.Ok? ==>
              db.stock == Deposit(old(db.stock), Pair(warehouseId, productId), quantity)
              && r.value == StockRow(warehouseId, productId, db.stock[Pair(warehouseId, productId)])
              && db.movements == old(db.movements)
                   + [Movement(old(db.NextId()), In, quantity, warehouseId, productId, None)]
    ensures old(db.Valid()) ==> db.Valid()
  {
    if quantity <= 0 {
      return Err(QuantityNotPositive);
    }
    if warehouseId !in db.warehouses {
      return Err(WarehouseNotFound);
    }
    if productId !in db.products {
      return Err(ProductNotFound);
    }
    if db.products[productId] != db.warehouses[warehouseId] {
      return Err(ProductWarehouseCompanyMismatch);
    }
    ghost var wasValid := db.Valid();
    var k := Pair(warehouseId, productId);
    var quantityNow: nat := if k in db.stock then db.stock[k] else 0;  // a missing row starts at 0
    quantityNow := quantityNow + quantity;
    db.stock := db.stock[k := quantityNow];
    var m := db.Record(In, quantity, warehouseId, productId, None);
    if wasValid {
      BalancedAfterDeposit(old(db.stock), old(db.movements), m);
    }
    r := Ok(StockRow(warehouseId, productId, quantityNow));
  }

  /** Issues `quantity` units of a product from a warehouse's existing row.
      Ownership is checked before sufficiency. The note is accepted but not
      recorded. */
  method StockOut(db: Inventory, warehouseId: int, productId: int, quantity: int, note: Option<string>)
    returns (r: Result<StockRow>)
    modifies db
    ensures quantity <= 0 ==> r == Err(QuantityNotPositive)
    ensures quantity > 0 && Pair(warehouseId, productId) !in old(db.stock)
            ==> r == Err(StockRecordNotFound)
    ensures quantity > 0 && Pair(warehouseId, productId) in old(db.stock)
            && !db.SameCompany(warehouseId, productId)
            ==> r == Err(ProductWarehouseCompanyMismatch)
    ensures quantity > 0 && Pair(warehouseId, productId) in old(db.stock)
            && db.SameCompany(warehouseId, productId)
            && old(db.stock)[Pair(warehouseId, productId)] < quantity
            ==> r == Err(InsufficientStock)
    ensures r.Ok? <==> quantity > 0 && Pair(warehouseId, productId) in old(db.stock)
                       && db.SameCompany(warehouseId, productId)
                       && quantity <= old(db.stock)[Pair(warehouseId, productId)]
    ensures r.Err? ==> db.stock == old(db.stock) && db.movements == old(db.movements)
    ensures r.Ok? ==>
              db.stock == Withdraw(old(db.stock), Pair(warehouseId, productId), quantity)
              && r.value == StockRow(warehouseId, productId, db.stock[Pair(warehouseId, productId)])
              && db.movements == old(db.movements)
                   + [Movement(old(db.NextId()), Out, quantity, warehouseId, productId, None)]
    ensures old(db.Valid()) ==> db.Valid()
  {
    if quantity <= 0 {
      return Err(QuantityNotPositive);
    }
    var k := Pair(warehouseId, productId);
    if k !in db.stock {
      return Err(StockRecordNotFound);
    }
    if !db.SameCompany(warehouseId, productId) {
      return Err(ProductWarehouseCompanyMismatch);
    }
    var quantityNow := db.stock[k];
    if quantityNow < quantity {
      return Err(InsufficientStock);
    }
    ghost var wasValid := db.Valid();
    quantityNow := quantityNow - quantity;
    db.stock := db.stock[k := quantityNow];
    var m := db.Record(Out, quantity, warehouseId, productId, None);
    if wasValid {
      BalancedAfterWithdraw(old(db.stock), old(db.movements), m);
    }
    r := Ok(StockRow(warehouseId, productId, quantityNow));
  }

  /** Moves `quantity` units of a product between two warehouses of the same
      company: OUT at the source, then IN at the destination, whose row is
      created at 0 when missing. The note is accepted but not recorded. */
  method Transfer(db: Inventory, fromWarehouseId: int, toWarehouseId: int, productId: int,
                  quantity: int, note: Option<string>)
    returns (r: Result<()>)
    modifies db
    ensures quantity <= 0 ==> r == Err(QuantityNotPositive)
    ensures quantity > 0 && fromWarehouseId == toWarehouseId ==> r == Err(SameWarehouse)
    ensures quantity > 0 && fromWarehouseId != toWarehouseId
            && (fromWarehouseId !in db.warehouses || toWarehouseId !in db.warehouses)
            ==> r == Err(WarehouseNotFound)
    ensures quantity > 0 && fromWarehouseId != toWarehouseId
            && fromWarehouseId in db.warehouses && toWarehouseId in db.warehouses
            && productId !in db.products
            ==> r == Err(ProductNotFound)
    ensures quantity > 0 && fromWarehouseId != toWarehouseId
            && fromWarehouseId in db.warehouses && toWarehouseId in db.warehouses
            && productId in db.products
            && (db.warehouses[fromWarehouseId] != db.warehouses[toWarehouseId]
                || db.warehouses[fromWarehouseId] != db.products[productId])
            ==> r == Err(TransferCompanyMismatch)
    ensures quantity > 0 && fromWarehouseId != toWarehouseId
            && db.SameCompany(fromWarehouseId, productId) && db.SameCompany(toWarehouseId, productId)
            && (Pair(fromWarehouseId, productId) !in old(db.stock)
                || old(db.stock)[Pair(fromWarehouseId, productId)] < quantity)
            ==> r == Err(InsufficientSourceStock)
    ensures r.Ok? <==> quantity > 0 && fromWarehouseId != toWarehouseId
                       && db.SameCompany(fromWarehouseId, productId)
                       && db.SameCompany(toWarehouseId, productId)
                       && Pair(fromWarehouseId, productId) in old(db.stock)
                       && quantity <= old(db.stock)[Pair(fromWarehouseId, productId)]
    ensures r.Err? ==> db.stock == old(db.stock) && db.movements == old(db.movements)
    ensures r.Ok? ==>
              db.stock == Deposit(Withdraw(old(db.stock), Pair(fromWarehouseId, productId), quantity),
                                  Pair(toWarehouseId, productId), quantity)
              && db.movements == old(db.movements)
                   + [Movement(old(db.NextId()), Out, quantity, fromWarehouseId, productId, None),
                      Movement(old(db.NextId()) + 1, In, quantity, toWarehouseId, productId, None)]
    ensures old(db.Valid()) ==> db.Valid()
  {
    if quantity <= 0 {
      return Err(QuantityNotPositive);
    }
    if fromWarehouseId == toWarehouseId {
      return Err(SameWarehouse);
    }
    if fromWarehouseId !in db.warehouses || toWarehouseId !in db.warehouses {
      return Err(WarehouseNotFound);
    }
    if productId !in db.products {
      return Err(ProductNotFound);
    }
    if db.warehouses[fromWarehouseId] != db.warehouses[toWarehouseId]
       || db.warehouses[fromWarehouseId] != db.products[productId] {
      return Err(TransferCompanyMismatch);
    }
    var kFrom := Pair(fromWarehouseId, productId);
    if kFrom !in db.stock || db.stock[kFrom] < quantity {
      return Err(InsufficientSourceStock);
    }
    ghost var wasValid := db.Valid();
    var fromNow := db.stock[kFrom] - quantity;
    db.stock := db.stock[kFrom := fromNow];
    var kTo := Pair(toWarehouseId, productId);
    var toNow: nat := if kTo in db.stock then db.stock[kTo] else 0;  // a missing row starts at 0
    toNow := toNow + quantity;
    db.stock := db.stock[kTo := toNow];
    var outMovement := db.Record(Out, quantity, fromWarehouseId, productId, None);
    var inMovement := db.Record(In, quantity, toWarehouseId, productId, None);
    assert db.movements == old(db.movements) + [outMovement, inMovement];
    if wasValid {
      BalancedAfterTransfer(old(db.stock), old(db.movements), outMovement, inMovement);
    }
    r := Ok(());
  }
}
