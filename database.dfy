/** The three stores the services work on: the catalog (read-only here), the
    stock table and the movement ledger. */
module Database {
  import opened Entities
  import opened Ledger

  class Inventory {
    /** Catalog: warehouse id to the id of its owning company. */
    const warehouses: map<int, int>
    /** Catalog: product id to the id of its owning company. */
    const products: map<int, int>
    /** Stock table: one row per (warehouse, product) pair. */
    var stock: StockTable
    /** Movement ledger, oldest first. */
    var movements: seq<Movement>

    /** Both catalog entries exist and name the same company. */
    predicate SameCompany(w: int, p: int)
    {
      w in warehouses && p in products && warehouses[w] == products[p]
    }

    /** No stock row spans two companies. */
    ghost predicate Owned()
      reads this
    {
      forall k :: k in stock ==> SameCompany(k.warehouse, k.product)
    }

    /** The consistency the services keep: a well-formed ledger that accounts
        for every stock quantity, and no cross-company row. */
    ghost predicate Valid()
      reads this
    {
      WellFormed(movements) && Balanced(stock, movements) && Owned()
    }

    constructor (warehouses: map<int, int>, products: map<int, int>)
      ensures this.warehouses == warehouses && this.products == products
      ensures stock == map[] && movements == []
      ensures Valid()
    {
      this.warehouses := warehouses;
      this.products := products;
      stock := map[];
      movements := [];
    }

    /** The id the next inserted movement receives. */
    function NextId(): nat
      reads this
    {
      |movements| + 1
    }

    /** Inserts one movement, giving it the next id. */
    method Record(kind: MovementType, quantity: int, warehouse: int, product: int, note: Option<string>)
      returns (m: Movement)
      modifies this
      ensures m == Movement(old(NextId()), kind, quantity, warehouse, product, note)
      ensures movements == old(movements) + [m]
      ensures stock == old(stock)
    {
      m := Movement(NextId(), kind, quantity, warehouse, product, note);
      movements := movements + [m];
    }
  }
}
