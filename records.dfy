/** The persisted records the ledger and the reports share (the Mongoose schemas of
    backend/server.js). Timestamps are milliseconds; money is a real number. */
module Records {
  import opened Wrappers

  /** One purchase lot of a product (`productPurchaseSchema`). `remaining` is
      `remainingQuantity`, the only field a sale changes. */
  datatype Lot = Lot(
    purchaseDate: nat,
    quantity: int,
    unitCost: real,
    expenses: real,
    supplier: Option<string>,
    remaining: int)

  /** `orderStatus`; `Purchased` is accepted by the status-update route although the
      schema's enum does not list it (that route does not run validators). */
  datatype OrderStatus = Pending | Processing | Completed | Cancelled | Refunded | Purchased

  /** One sale (`saleSchema`). Customer fields are absent for internal sales. */
  datatype Sale = Sale(
    productName: string,
    quantity: int,
    salePrice: real,
    purchasePrice: real,
    totalPrice: real,
    customerName: Option<string>,
    customerEmail: Option<string>,
    status: OrderStatus,
    saleDate: nat,
    rejectionReason: Option<string>)

  /** A standalone operating expense (`expenseSchema`). */
  datatype Expense = Expense(category: string, amount: real, expenseDate: nat, description: string)
}
