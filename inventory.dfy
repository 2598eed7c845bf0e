/** The inventory and sales ledger of backend/server.js: a product with its purchase lots,
    the purchase route, FIFO consumption and the three sale-settlement routes. One
    settlement is one state transition on one product (the handlers' two loads and two
    saves of the same product are merged). */
module Inventory {
  import opened Wrappers
  import opened Records
  import opened Fifo
  import Text

  /** Why a settlement is refused (the handlers' 400, 404 and 500 answers). */
  datatype SaleError =
    | InvalidOrderData
    | ProductNotFound
    | InsufficientStock(available: int)
    | NotEnoughInventory(productName: string)
    | PurchaseInvalid

  /** The three settlement routes: `POST /sales` (staff), `POST /api/place-order` and
      `POST /api/place-sale` (clients). */
  datatype Route = InternalSale | PlaceOrder | PlaceSale

  /** The body of a settlement request; an absent field and an empty string are both `""`
      for the product id, and `None` for the customer fields of the internal route. */
  datatype SaleRequest = SaleRequest(
    route: Route,
    productId: string,
    quantity: int,
    customerName: Option<string>,
    customerEmail: Option<string>)

  /** Input validation. The client routes refuse a missing id, name or email and a quantity
      below 1. The staff route validates nothing as written; here it also demands a
      quantity of at least 1 (see `InternalSaleAsWritten`). */
  predicate Admissible(req: SaleRequest)
  {
    req.quantity >= 1 &&
    (req.route == InternalSale ||
     (req.productId != "" && Text.Given(req.customerName) && Text.Given(req.customerEmail)))
  }

  class Product {
    var name: string
    var description: Option<string>
    var currentPrice: real
    var quantity: int
    var lots: seq<Lot>

    /** The aggregate stock equals the sum of the lot remainders. */
    ghost predicate Valid()
      reads this
    {
      quantity == TotalRemaining(lots)
    }

    /** A product created by the purchase route: no lots yet, quantity 0. */
    constructor (name: string, description: Option<string>, price: real)
      ensures this.name == name && this.description == description
      ensures currentPrice == price && quantity == 0 && lots == []
      ensures Valid()
    {
      this.name := name;
      this.description := description;
      currentPrice := price;
      quantity := 0;
      lots := [];
    }

    /** Records a purchase: appends one lot holding all `q` units and raises the aggregate by
        `q`; a given non-zero price becomes the current price. */
    method RecordPurchase(now: nat, q: int, unitCost: real, expenses: Option<real>,
                          supplier: Option<string>, price: Option<real>)
      modifies this
      ensures lots == old(lots) + [Lot(now, q, unitCost, if expenses.Some? then expenses.value else 0.0, supplier, q)]
      ensures quantity == old(quantity) + q
      ensures currentPrice == if price.Some? && price.value != 0.0 then price.value else old(currentPrice)
      ensures name == old(name) && description == old(description)
      ensures old(Valid()) ==> Valid()
    {
      var expense := if expenses.Some? then expenses.value else 0.0;
      TotalRemainingAppend(lots, Lot(now, q, unitCost, expense, supplier, q));
      lots := lots + [Lot(now, q, unitCost, expense, supplier, q)];
      quantity := quantity + q;
      if price.Some? && price.value != 0.0 {
        currentPrice := price.value;
      }
    }

    /** `calculateFIFOCost`: walks the stocked lots oldest first, taking what is still
        needed from each, and keeps the new remainders only if the need was covered. */
    method ConsumeFifo(need: int) returns (r: Result<real, SaleError>)
      modifies this`lots
      ensures r.Ok? <==> need <= Available(old(lots))
      ensures r.Err? ==> r.error == NotEnoughInventory(name) && lots == old(lots)
      ensures r.Ok? ==> lots == Draw(old(lots), need).lots && r.value == Draw(old(lots), need).cost
    {
      var order := FifoOrder(lots);
      ghost var w := FifoWalk(lots, order, need);
      var work := lots;
      var stillNeeded := need;
      var cost := 0.0;
      var k := 0;
      while k < |order|
        invariant k <= |order| && |work| == |lots|
        invariant FifoWalk(work, order[k..], stillNeeded) == Walk(w.lots, w.cost - cost, w.unmet)
        decreases |order| - k
      {
        if stillNeeded <= 0 {
          break;
        }
        var i := order[k];
        assert order[k..][1..] == order[k + 1..];
        var take := Min(stillNeeded, work[i].remaining);
        cost := cost + take as real * work[i].unitCost;
        work := work[i := Drawn(work[i], take)];
        stillNeeded := stillNeeded - take;
        k := k + 1;
      }
      DrawOutcome(lots, need);
      if stillNeeded > 0 {
        return Err(NotEnoughInventory(name));
      }
      lots := work;
      return Ok(cost);
    }

    /** One settlement: validate, check the aggregate stock, draw FIFO, record a completed
        sale at the current price and lower the aggregate. Nothing changes on refusal. */
    method Settle(req: SaleRequest, now: nat) returns (r: Result<Sale, SaleError>)
      modifies this
      ensures name == old(name) && description == old(description) && currentPrice == old(currentPrice)
      ensures !Admissible(req) ==> r == Err(InvalidOrderData)
      ensures Admissible(req) && req.quantity > old(quantity) ==> r == Err(InsufficientStock(old(quantity)))
      ensures Admissible(req) && req.quantity <= old(quantity) && req.quantity > Available(old(lots)) ==>
        r == Err(NotEnoughInventory(name))
      ensures r.Ok? <==>
        Admissible(req) && req.quantity <= old(quantity) && req.quantity <= Available(old(lots))
      ensures r.Err? ==> lots == old(lots) && quantity == old(quantity)
      ensures r.Ok? ==>
        var q := req.quantity;
        var w := Draw(old(lots), q);
        r.value == CompletedSale(name, currentPrice, q, w.cost, req, now) &&
        lots == w.lots && quantity == old(quantity) - q
      ensures old(Valid()) ==> Valid() && !(r.Err? && r.error.NotEnoughInventory?)
    {
      if !Admissible(req) {
        return Err(InvalidOrderData);
      }
      var q := req.quantity;
      if q > quantity {
        return Err(InsufficientStock(quantity));
      }
      ghost var w := Draw(lots, q);
      if Valid() {
        StockChecksAgree(quantity, lots, q);
      }
      DrawOutcome(lots, q);
      var cost := ConsumeFifo(q);
      if cost.Err? {
        return Err(cost.error);
      }
      assert lots == w.lots && cost.value == w.cost;
      var sale := CompletedSale(name, currentPrice, q, cost.value, req, now);
      quantity := quantity - q;
      return Ok(sale);
    }
  }

  /** When the ledger is consistent, the aggregate pre-check and the FIFO walk agree: a
      quantity the aggregate allows is covered by the lots, and the remainders drop by it. */
  lemma StockChecksAgree(quantity: int, lots: seq<Lot>, q: int)
    requires quantity == TotalRemaining(lots) && 1 <= q <= quantity
    ensures q <= Available(lots)
    ensures Draw(lots, q).unmet == 0
    ensures TotalRemaining(Draw(lots, q).lots) == quantity - q
  {
    AvailableCoversTotal(lots);
    DrawOutcome(lots, q);
  }

  /** The sale a settlement records: completed, at the current price, with the FIFO cost
      spread evenly over the units; the sale date is the time of settlement. The staff route
      stores no customer fields, the client routes store the ones sent. */
  function CompletedSale(productName: string, price: real, q: int, cost: real,
                         req: SaleRequest, now: nat): Sale
    requires q >= 1
  {
    Sale(productName, q, price, cost / q as real, price * q as real,
         if req.route == InternalSale then None else req.customerName,
         if req.route == InternalSale then None else req.customerEmail,
         Completed, now, None)
  }

  /** The recorded unit cost times the quantity gives back the FIFO cost, and the total is
      the current price times the quantity. */
  lemma CompletedSaleAmounts(productName: string, price: real, q: int, cost: real,
                             req: SaleRequest, now: nat)
    requires q >= 1
    ensures var s := CompletedSale(productName, price, q, cost, req, now);
      s.status == Completed && s.quantity == q && s.salePrice == price &&
      s.purchasePrice * q as real == cost && s.totalPrice == s.salePrice * q as real &&
      (req.route == InternalSale ==> s.customerName.None? && s.customerEmail.None?) &&
      (req.route != InternalSale ==> s.customerName == req.customerName && s.customerEmail == req.customerEmail)
  {
  }

  /** The purchase route without a product id creates the product first. Its price, and the
      lot's quantity and unit cost, are required by the schema, so without any of them
      nothing is saved. */
  method PurchaseNewProduct(now: nat, name: Option<string>, description: Option<string>,
                            q: Option<int>, unitCost: Option<real>, expenses: Option<real>,
                            supplier: Option<string>, price: Option<real>)
    returns (r: Option<Product>)
    ensures r.Some? <==> price.Some? && q.Some? && unitCost.Some?
    ensures r.Some? ==> fresh(r.value) && r.value.Valid()
    ensures r.Some? ==> r.value.quantity == q.value && r.value.currentPrice == price.value
    ensures r.Some? ==>
      r.value.lots == [Lot(now, q.value, unitCost.value, if expenses.Some? then expenses.value else 0.0, supplier, q.value)]
    ensures r.Some? ==> r.value.name == if Text.Given(name) then name.value else "Product-" + Text.NatToString(now)
    ensures r.Some? ==> r.value.description == description
  {
    if price.None? || q.None? || unitCost.None? {
      return None;
    }
    var productName := if Text.Given(name) then name.value else "Product-" + Text.NatToString(now);
    var p := new Product(productName, description, price.value);
    p.RecordPurchase(now, q.value, unitCost.value, expenses, supplier, price);
    return Some(p);
  }

  /** The purchase route with a product id: 404 when no product has it; a purchase without
      quantity or unit cost fails at the save and leaves the product as it was. */
  method PurchaseExisting(store: map<string, Product>, id: string, now: nat, q: Option<int>,
                          unitCost: Option<real>, expenses: Option<real>, supplier: Option<string>,
                          price: Option<real>)
    returns (r: Result<Product, SaleError>)
    modifies if id in store then {store[id]} else {}
    ensures r.Ok? <==> id in store && q.Some? && unitCost.Some?
    ensures id !in store ==> r == Err(ProductNotFound)
    ensures id in store && (q.None? || unitCost.None?) ==> r == Err(PurchaseInvalid)
    ensures r.Err? && id in store ==>
      var p := store[id];
      p.lots == old(p.lots) && p.quantity == old(p.quantity) && p.currentPrice == old(p.currentPrice)
    ensures r.Ok? ==> r.value == store[id] && r.value.quantity == old(r.value.quantity) + q.value
    ensures r.Ok? ==>
      r.value.lots == old(r.value.lots) + [Lot(now, q.value, unitCost.value, if expenses.Some? then expenses.value else 0.0, supplier, q.value)]
    ensures r.Ok? ==>
      r.value.currentPrice == (if price.Some? && price.value != 0.0 then price.value else old(r.value.currentPrice))
    ensures id in store ==> store[id].name == old(store[id].name) && store[id].description == old(store[id].description)
    ensures r.Ok? && old(r.value.Valid()) ==> r.value.Valid()
  {
    if id !in store {
      return Err(ProductNotFound);
    }
    if q.None? || unitCost.None? {
      return Err(PurchaseInvalid);
    }
    var p := store[id];
    p.RecordPurchase(now, q.value, unitCost.value, expenses, supplier, price);
    return Ok(p);
  }

  /** A settlement route end to end: validation comes before the lookup, so a malformed
      client request is refused even for an unknown product; then the stored product
      settles the request. */
  method SettleById(store: map<string, Product>, req: SaleRequest, now: nat)
    returns (r: Result<Sale, SaleError>)
    modifies if req.productId in store then {store[req.productId]} else {}
    ensures !Admissible(req) ==> r == Err(InvalidOrderData)
    ensures Admissible(req) && req.productId !in store ==> r == Err(ProductNotFound)
    ensures r.Ok? <==>
      Admissible(req) && req.productId in store &&
      req.quantity <= old(store[req.productId].quantity) && req.quantity <= Available(old(store[req.productId].lots))
    ensures Admissible(req) && req.productId in store && req.quantity > old(store[req.productId].quantity) ==>
      r == Err(InsufficientStock(old(store[req.productId].quantity)))
    ensures Admissible(req) && req.productId in store ==>
      var p := store[req.productId];
      req.quantity <= old(p.quantity) && req.quantity > Available(old(p.lots)) ==>
      r == Err(NotEnoughInventory(p.name))
    ensures req.productId in store ==>
      var p := store[req.productId];
      p.name == old(p.name) && p.description == old(p.description) && p.currentPrice == old(p.currentPrice) &&
      (r.Err? ==> p.lots == old(p.lots) && p.quantity == old(p.quantity))
    ensures r.Ok? ==>
      var p := store[req.productId];
      var w := Draw(old(p.lots), req.quantity);
      r.value == CompletedSale(p.name, p.currentPrice, req.quantity, w.cost, req, now) &&
      p.lots == w.lots && p.quantity == old(p.quantity) - req.quantity
    ensures req.productId in store && old(store[req.productId].Valid()) ==> store[req.productId].Valid()
  {
    if !Admissible(req) {
      return Err(InvalidOrderData);
    }
    if req.productId !in store {
      return Err(ProductNotFound);
    }
    r := store[req.productId].Settle(req, now);
  }

  // ---------- the staff route as written ----------

  /** The stock effect of `POST /sales` as written: no input validation. A zero quantity
      fails only when the sale is saved (its unit cost is 0 / 0); a negative quantity walks
      no lot, records a negative sale and raises the aggregate. Returns the new aggregate
      and lots, or `None` when the handler answers with an error. */
  function InternalSaleAsWritten(quantity: int, lots: seq<Lot>, q: int): (r: Option<(int, seq<Lot>)>)
    ensures q >= 1 ==>
      (r.Some? <==> q <= quantity && q <= Available(lots)) &&
      (r.Some? ==> r.value == (quantity - q, Draw(lots, q).lots))
    ensures q > quantity ==> r.None?
    ensures q == 0 ==> r.None?
    ensures q < 0 && q <= quantity ==> r == Some((quantity - q, lots))
  {
    if q > quantity then None
    else if q == 0 then None
    else
      var w := Draw(lots, q);
      DrawOutcome(lots, q);
      if w.unmet > 0 then None else Some((quantity - q, w.lots))
  }

  /** A negative quantity passes the handler and leaves the aggregate above the lots:
      "aggregate = Σ remainders" breaks. */
  lemma NegativeInternalSaleInflatesStock(quantity: int, lots: seq<Lot>, q: int)
    requires 0 <= quantity == TotalRemaining(lots) && q < 0
    ensures InternalSaleAsWritten(quantity, lots, q) == Some((quantity - q, lots))
    ensures quantity - q > TotalRemaining(lots)
  {
    assert FifoWalk(lots, FifoOrder(lots), q) == Walk(lots, 0.0, q);
  }
}
