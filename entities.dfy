/** The records the inventory services read and write, reduced to the fields
    the services actually use. Identifiers are the database's numeric keys. */
module Entities {

  datatype Option<+T> = None | Some(value: T)

  /** A query filter as the services test it: `if (productId)` in TypeScript is
      false for an absent id and for the id 0, so neither restricts the query. */
  predicate Restricts(filter: Option<int>)
  {
    filter.Some? && filter.value != 0
  }

  /** One constructor per error message the services throw. */
  datatype Error =
    | QuantityNotPositive
    | WarehouseNotFound
    | ProductNotFound
    | ProductWarehouseCompanyMismatch
    | StockRecordNotFound
    | InsufficientStock
    | SameWarehouse
    | TransferCompanyMismatch
    | InsufficientSourceStock
    | WarehouseOrProductNotFound
    | DifferentCompanies
    | StockNotFound
  {
    /** The text of the thrown `Error`. It records the messages the services
        throw; the callers that match on these texts are not part of this model. */
    function Message(): string
    {
      match this
      case QuantityNotPositive => "Quantity must be greater than zero"
      case WarehouseNotFound => "Warehouse not found"
      case ProductNotFound => "Product not found"
      case ProductWarehouseCompanyMismatch => "Product and warehouse belong to different companies"
      case StockRecordNotFound => "Stock record not found"
      case InsufficientStock => "Insufficient stock"
      case SameWarehouse => "Cannot transfer to the same warehouse"
      case TransferCompanyMismatch => "Warehouses and product must belong to the same company"
      case InsufficientSourceStock => "Insufficient stock in source warehouse"
      case WarehouseOrProductNotFound => "Warehouse or product not found"
      case DifferentCompanies => "Different companies"
      case StockNotFound => "Stock not found"
    }
  }

  /** The outcome of a service call: a value, or the error it throws. */
  datatype Result<+T> = Ok(value: T) | Err(error: Error)

  /** The natural key of a stock row. */
  datatype Pair = Pair(warehouse: int, product: int)

  /** A stock row as the services return it. */
  datatype StockRow = StockRow(warehouse: int, product: int, quantity: nat)

  datatype MovementType = In | Out

  /** A ledger entry. `id` is the generated primary key; it grows with every
      insertion and stands for the creation time the listing sorts by. */
  datatype Movement = Movement(
    id: nat,
    kind: MovementType,
    quantity: int,
    warehouse: int,
    product: int,
    note: Option<string>)
  {
    function Key(): Pair
    {
      Pair(warehouse, product)
    }
  }
}
