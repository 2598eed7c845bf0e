/** The order-status update (`PUT /sales/:id/status`, backend/server.js): a sale's status
    may be moved to processing, purchased, refunded or cancelled, with a rejection reason
    recorded only on cancellation. The route touches no product. */
module Orders {
  import opened Wrappers
  import opened Records

  datatype StatusError = InvalidStatus | OrderNotFound

  /** The statuses the route accepts, by their wire names. */
  function ParseNewStatus(s: string): (r: Option<OrderStatus>)
    ensures r.Some? <==> s in ["processing", "purchased", "refunded", "cancelled"]
    ensures r.Some? ==> r.value in {Processing, Purchased, Refunded, Cancelled}
  {
    if s == "processing" then Some(Processing)
    else if s == "purchased" then Some(Purchased)
    else if s == "refunded" then Some(Refunded)
    else if s == "cancelled" then Some(Cancelled)
    else None
  }

  /** The update applied to one sale. */
  function ApplyStatus(sale: Sale, status: OrderStatus, reason: Option<string>): (r: Sale)
    ensures r.status == status
    ensures r.rejectionReason == if status == Cancelled then reason else sale.rejectionReason
    ensures r == sale.(status := r.status, rejectionReason := r.rejectionReason)
  {
    if status == Cancelled then sale.(status := status, rejectionReason := reason)
    else sale.(status := status)
  }

  /** The route over the stored sales, keyed by id: the status is checked first, then the id. */
  function UpdateOrderStatus(sales: map<string, Sale>, id: string, status: string, reason: Option<string>)
    : (r: Result<map<string, Sale>, StatusError>)
    ensures ParseNewStatus(status).None? ==> r == Err(InvalidStatus)
    ensures ParseNewStatus(status).Some? && id !in sales ==> r == Err(OrderNotFound)
    ensures r.Ok? <==> ParseNewStatus(status).Some? && id in sales
    ensures r.Ok? ==> r.value.Keys == sales.Keys
    ensures r.Ok? ==> forall k :: k in sales && k != id ==> r.value[k] == sales[k]
    ensures r.Ok? ==> r.value[id].status in {Processing, Purchased, Refunded, Cancelled}
    ensures r.Ok? ==>
      r.value[id].rejectionReason == (if r.value[id].status == Cancelled then reason else sales[id].rejectionReason)
  {
    match ParseNewStatus(status)
    case None => Err(InvalidStatus)
    case Some(st) =>
      if id !in sales then Err(OrderNotFound)
      else Ok(sales[id := ApplyStatus(sales[id], st, reason)])
  }

  /** An update never makes a sale completed again, and only status and reason change. */
  lemma UpdateNeverCompletes(sales: map<string, Sale>, id: string, status: string, reason: Option<string>)
    requires UpdateOrderStatus(sales, id, status, reason).Ok?
    ensures var after := UpdateOrderStatus(sales, id, status, reason).value[id];
      after.status != Completed &&
      after.(status := sales[id].status, rejectionReason := sales[id].rejectionReason) == sales[id]
  {
  }
}
