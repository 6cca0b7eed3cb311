/** Clients that run the operations in sequence on a small catalog and state,
    from the operations' contracts alone, what each step yields. The catalog:
    companies 1 and 2; warehouses 1 and 2 belong to company 1, warehouse 3 to
    company 2; product 1 belongs to company 1. */
module Scenarios {
  import opened Entities
  import opened Ledger
  import opened Database
  import StockService
  import MovementService

  method NewCatalog() returns (db: Inventory)
    ensures fresh(db) && db.Valid()
    ensures db.warehouses == map[1 := 1, 2 := 1, 3 := 2] && db.products == map[1 := 1]
    ensures db.stock == map[] && db.movements == []
  {
    db := new Inventory(map[1 := 1, 2 := 1, 3 := 2], map[1 := 1]);
  }

  /** Receive, a refused issue, a covered issue. */
  method ReceiveThenIssue()
  {
    var db := NewCatalog();
    var a := StockService.StockIn(db, 1, 1, 10, None);
    assert a == Ok(StockRow(1, 1, 10));
    assert db.movements == [Movement(1, In, 10, 1, 1, None)];

    var b := StockService.StockOut(db, 1, 1, 15, None);
    assert b == Err(InsufficientStock);
    assert b.error.Message() == "Insufficient stock";
    assert db.stock[Pair(1, 1)] == 10;

    var c := StockService.StockOut(db, 1, 1, 4, None);
    assert c == Ok(StockRow(1, 1, 6));
    assert db.movements[1..] == [Movement(2, Out, 4, 1, 1, None)];
  }

  /** A transfer empties the source and creates the destination row. */
  method ReceiveThenTransfer()
  {
    var db := NewCatalog();
    var a := StockService.StockIn(db, 1, 1, 6, None);
    assert db.stock[Pair(1, 1)] == 6;
    var d := StockService.Transfer(db, 1, 2, 1, 6, None);
    assert d.Ok?;
    assert db.stock[Pair(1, 1)] == 0 && db.stock[Pair(2, 1)] == 6;
    assert db.movements[1..] == [Movement(2, Out, 6, 1, 1, None), Movement(3, In, 6, 2, 1, None)];
  }

  /** Refusals across companies and into the same warehouse change nothing. */
  method Refusals()
  {
    var db := NewCatalog();
    var e := StockService.StockIn(db, 3, 1, 5, None);
    assert e == Err(ProductWarehouseCompanyMismatch);
    assert db.stock == map[] && db.movements == [];
    var f := StockService.Transfer(db, 1, 1, 1, 1, None);
    assert f == Err(SameWarehouse);
    var g := MovementService.CreateOut(db, 1, 1, 1, None);
    assert g == Err(StockNotFound);
    assert db.stock == map[] && db.movements == [];
  }

  /** The movement service records the note, and the listing filters. */
  method NotesAndListing()
  {
    var db := NewCatalog();
    var a := MovementService.CreateIn(db, 2, 1, 3, Some("restock"));
    assert a == Ok(Movement(1, In, 3, 2, 1, Some("restock")));
    var listed := MovementService.GetAll(db, Some(3), None);
    assert a.value !in listed;
    var all := MovementService.GetAll(db, None, Some(0));
    assert a.value in all;
  }
}
