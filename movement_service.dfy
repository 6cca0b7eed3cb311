/** The movement service: the ledger listing and a second pair of receive and
    issue operations that, unlike the stock service's, record the note. */
module MovementService {
  import opened Entities
  import opened Ledger
  import opened Database

  /** The ledger entries that pass the optional warehouse and product filters,
      newest first. */
  function GetAll(db: Inventory, warehouseId: Option<int>, productId: Option<int>): (r: seq<Movement>)
    reads db
    ensures forall m :: m in r <==> m in db.movements && Matches(m, warehouseId, productId)
    ensures WellFormed(db.movements) ==> NewestFirst(r)
  {
    SelectSound(db.movements, warehouseId, productId);
    SelectComplete(db.movements, warehouseId, productId);
    assert WellFormed(db.movements) ==> NewestFirst(Select(db.movements, warehouseId, productId)) by {
      if WellFormed(db.movements) {
        SelectNewestFirst(db.movements, warehouseId, productId);
      }
    }
    Select(db.movements, warehouseId, productId)
  }

  /** Receives `quantity` units and records an IN movement carrying `note`. */
  method CreateIn(db: Inventory, warehouseId: int, productId: int, quantity: int, note: Option<string>)
    returns (r: Result<Movement>)
    modifies db
    ensures quantity <= 0 ==> r == Err(QuantityNotPositive)
    ensures quantity > 0 && (warehouseId !in db.warehouses || productId !in db.products)
            ==> r == Err(WarehouseOrProductNotFound)
    ensures quantity > 0 && warehouseId in db.warehouses && productId in db.products
            && db.warehouses[warehouseId] != db.products[productId]
            ==> r == Err(DifferentCompanies)
    ensures r.Ok? <==> quantity > 0 && db.SameCompany(warehouseId, productId)
    ensures r.Err? ==> db.stock == old(db.stock) && db.movements == old(db.movements)
    ensures r.Ok? ==>
              db.stock == Deposit(old(db.stock), Pair(warehouseId, productId), quantity)
              && r.value == Movement(old(db.NextId()), In, quantity, warehouseId, productId, note)
              && db.movements == old(db.movements) + [r.value]
    ensures old(db.Valid()) ==> db.Valid()
  {
    if quantity <= 0 {
      return Err(QuantityNotPositive);
    }
    if warehouseId !in db.warehouses || productId !in db.products {
      return Err(WarehouseOrProductNotFound);
    }
    if db.warehouses[warehouseId] != db.products[productId] {
      return Err(DifferentCompanies);
    }
    ghost var wasValid := db.Valid();
    var k := Pair(warehouseId, productId);
    var quantityNow: nat := if k in db.stock then db.stock[k] else 0;  // a missing row starts at 0
    quantityNow := quantityNow + quantity;
    db.stock := db.stock[k := quantityNow];
    var m := db.Record(In, quantity, warehouseId, productId, note);
    if wasValid {
      BalancedAfterDeposit(old(db.stock), old(db.movements), m);
    }
    r := Ok(m);
  }

  /** Issues `quantity` units and records an OUT movement carrying `note`.
      Sufficiency is checked before ownership. */
  method CreateOut(db: Inventory, warehouseId: int, productId: int, quantity: int, note: Option<string>)
    returns (r: Result<Movement>)
    modifies db
    ensures quantity <= 0 ==> r == Err(QuantityNotPositive)
    ensures quantity > 0 && Pair(warehouseId, productId) !in old(db.stock)
            ==> r == Err(StockNotFound)
    ensures quantity > 0 && Pair(warehouseId, productId) in old(db.stock)
            && old(db.stock)[Pair(warehouseId, productId)] < quantity
            ==> r == Err(InsufficientStock)
    ensures quantity > 0 && Pair(warehouseId, productId) in old(db.stock)
            && quantity <= old(db.stock)[Pair(warehouseId, productId)]
            && !db.SameCompany(warehouseId, productId)
            ==> r == Err(DifferentCompanies)
    ensures r.Ok? <==> quantity > 0 && Pair(warehouseId, productId) in old(db.stock)
                       && quantity <= old(db.stock)[Pair(warehouseId, productId)]
                       && db.SameCompany(warehouseId, productId)
    ensures r.Err? ==> db.stock == old(db.stock) && db.movements == old(db.movements)
    ensures r.Ok? ==>
              db.stock == Withdraw(old(db.stock), Pair(warehouseId, productId), quantity)
              && r.value == Movement(old(db.NextId()), Out, quantity, warehouseId, productId, note)
              && db.movements == old(db.movements) + [r.value]
    ensures old(db.Valid()) ==> db.Valid()
  {
    if quantity <= 0 {
      return Err(QuantityNotPositive);
    }
    var k := Pair(warehouseId, productId);
    if k !in db.stock {
      return Err(StockNotFound);
    }
    var quantityNow := db.stock[k];
    if quantityNow < quantity {
      return Err(InsufficientStock);
    }
    if !db.SameCompany(warehouseId, productId) {
      return Err(DifferentCompanies);
    }
    ghost var wasValid := db.Valid();
    quantityNow := quantityNow - quantity;
    db.stock := db.stock[k := quantityNow];
    var m := db.Record(Out, quantity, warehouseId, productId, note);
    if wasValid {
      BalancedAfterWithdraw(old(db.stock), old(db.movements), m);
    }
    r := Ok(m);
  }
}
