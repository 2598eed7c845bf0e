/** The staff sales page (frontend/src/pages/Sales.js): the per-product totals plotted from the
    sales list, the stock check before a sale is sent, and the local updates after it. */
module SalesPage {
  import opened Wrappers
  import Inventory

  /** One sale as the page receives it: the name of the populated product, the name stored
      on the sale, and the total price. */
  datatype SaleRow = SaleRow(productRefName: Option<string>, productName: Option<string>, totalPrice: real)

  /** One bar of the chart. */
  datatype Entry = Entry(productName: Option<string>, totalSales: real)

  /** `sale.productId?.name || sale.productName`: the populated name unless it is missing or
      empty, else the stored one (which may itself be missing). */
  function Key(s: SaleRow): Option<string>
  {
    if s.productRefName.Some? && s.productRefName.value != "" then s.productRefName else s.productName
  }

  // ---------- specification of the grouping ----------

  /** The product names in order of first appearance. */
  function FirstAppearances(sales: seq<SaleRow>): (names: seq<Option<string>>)
    ensures forall i, j :: 0 <= i < j < |names| ==> names[i] != names[j]
    ensures forall n :: n in names <==> exists k :: 0 <= k < |sales| && Key(sales[k]) == n
    decreases |sales|
  {
    if sales == [] then []
    else
      var before := FirstAppearances(sales[..|sales| - 1]);
      var n := Key(sales[|sales| - 1]);
      assert forall k :: 0 <= k < |sales| - 1 ==> sales[..|sales| - 1][k] == sales[k];
      if n in before then before else before + [n]
  }

  /** The sum of the totals of the sales of product `name`. */
  function TotalFor(sales: seq<SaleRow>, name: Option<string>): real
    decreases |sales|
  {
    if sales == [] then 0.0
    else
      var last := sales[|sales| - 1];
      TotalFor(sales[..|sales| - 1], name) + (if Key(last) == name then last.totalPrice else 0.0)
  }

  /** The sum of the totals of all sales. */
  function GrandTotal(sales: seq<SaleRow>): real
    decreases |sales|
  {
    if sales == [] then 0.0 else GrandTotal(sales[..|sales| - 1]) + sales[|sales| - 1].totalPrice
  }

  function Names(entries: seq<Entry>): seq<Option<string>>
  {
    seq(|entries|, i requires 0 <= i < |entries| => entries[i].productName)
  }

  function SumOfEntries(entries: seq<Entry>): real
    decreases |entries|
  {
    if entries == [] then 0.0 else SumOfEntries(entries[..|entries| - 1]) + entries[|entries| - 1].totalSales
  }

  /** A product with no sale has nothing to its name. */
  lemma {:induction false} TotalForAbsent(sales: seq<SaleRow>, name: Option<string>)
    requires name !in FirstAppearances(sales)
    ensures TotalFor(sales, name) == 0.0
    decreases |sales|
  {
    if sales != [] {
      TotalForAbsent(sales[..|sales| - 1], name);
    }
  }

  lemma {:induction false} SumOfEntriesUpdate(entries: seq<Entry>, j: nat, e: Entry)
    requires j < |entries|
    ensures SumOfEntries(entries[j := e]) == SumOfEntries(entries) - entries[j].totalSales + e.totalSales
    decreases |entries|
  {
    var n := |entries| - 1;
    if j < n {
      assert entries[j := e][..n] == entries[..n][j := e];
      SumOfEntriesUpdate(entries[..n], j, e);
    } else {
      assert entries[j := e][..n] == entries[..n];
    }
  }

  /** The first entry carrying `name` (`acc.find`). */
  function Find(entries: seq<Entry>, name: Option<string>): (r: Option<nat>)
    ensures r.None? <==> name !in Names(entries)
    ensures r.Some? ==> r.value < |entries| && entries[r.value].productName == name
    decreases |entries|
  {
    if entries == [] then None
    else if entries[0].productName == name then
      assert Names(entries)[0] == name;
      Some(0)
    else
      var rest := Find(entries[1..], name);
      assert Names(entries) == [entries[0].productName] + Names(entries[1..]);
      if rest.None? then None else Some(rest.value + 1)
  }

  /** `acc` is the grouping of `sales`: the names in order of first appearance, each total
      the sum for its name, and the totals adding up to all sales. */
  predicate Grouped(acc: seq<Entry>, sales: seq<SaleRow>)
  {
    Names(acc) == FirstAppearances(sales) &&
    (forall i :: 0 <= i < |acc| ==> acc[i].totalSales == TotalFor(sales, acc[i].productName)) &&
    SumOfEntries(acc) == GrandTotal(sales)
  }

  /** A sale of a product already in the chart adds to that product's bar. */
  lemma AddToExisting(acc: seq<Entry>, sales: seq<SaleRow>, s: SaleRow, j: nat)
    requires Grouped(acc, sales)
    requires j < |acc| && acc[j].productName == Key(s)
    ensures Grouped(acc[j := Entry(Key(s), acc[j].totalSales + s.totalPrice)], sales + [s])
  {
    var name := Key(s);
    var after := sales + [s];
    assert after[..|sales|] == sales;
    assert forall n :: TotalFor(after, n) == TotalFor(sales, n) + (if name == n then s.totalPrice else 0.0);
    assert name in FirstAppearances(sales) by {
      assert Names(acc)[j] == name;
    }
    SumOfEntriesUpdate(acc, j, Entry(name, acc[j].totalSales + s.totalPrice));
    forall i | 0 <= i < |acc| && i != j
      ensures acc[i].productName != name
    {
      assert Names(acc)[i] == acc[i].productName && Names(acc)[j] == acc[j].productName;
    }
    var acc' := acc[j := Entry(name, acc[j].totalSales + s.totalPrice)];
    assert Names(acc') == Names(acc);
  }

  /** A sale of a new product adds a bar at the end. */
  lemma AddNew(acc: seq<Entry>, sales: seq<SaleRow>, s: SaleRow)
    requires Grouped(acc, sales)
    requires Key(s) !in Names(acc)
    ensures Grouped(acc + [Entry(Key(s), s.totalPrice)], sales + [s])
  {
    var name := Key(s);
    var after := sales + [s];
    assert after[..|sales|] == sales;
    assert forall n :: TotalFor(after, n) == TotalFor(sales, n) + (if name == n then s.totalPrice else 0.0);
    TotalForAbsent(sales, name);
    forall i | 0 <= i < |acc|
      ensures acc[i].productName != name
    {
      assert Names(acc)[i] == acc[i].productName;
    }
    var acc' := acc + [Entry(name, s.totalPrice)];
    assert acc'[..|acc'| - 1] == acc;
    assert Names(acc') == Names(acc) + [name];
  }

  /** The `salesData` reduce: one entry per product name in order of first appearance, each
      holding the sum of that product's sales, together adding up to all sales. */
  method GroupSalesByProduct(sales: seq<SaleRow>) returns (acc: seq<Entry>)
    ensures Names(acc) == FirstAppearances(sales)
    ensures forall i :: 0 <= i < |acc| ==> acc[i].totalSales == TotalFor(sales, acc[i].productName)
    ensures SumOfEntries(acc) == GrandTotal(sales)
  {
    acc := [];
    for k := 0 to |sales|
      invariant Grouped(acc, sales[..k])
    {
      var name := Key(sales[k]);
      var price := sales[k].totalPrice;
      assert sales[..k + 1] == sales[..k] + [sales[k]];
      var existing := Find(acc, name);
      if existing.Some? {
        AddToExisting(acc, sales[..k], sales[k], existing.value);
        acc := acc[existing.value := Entry(name, acc[existing.value].totalSales + price)];
      } else {
        AddNew(acc, sales[..k], sales[k]);
        acc := acc + [Entry(name, price)];
      }
    }
    assert sales[..|sales|] == sales;
  }

  // ---------- submitting a sale ----------

  /** A product as the page holds it. */
  datatype ProductRow = ProductRow(id: string, name: string, quantity: int)

  /** `handleAddSale`'s check: a product is selected and the quantity does not exceed its
      stock; otherwise the stock warning is shown and nothing is sent. */
  predicate SendsSale(selected: Option<ProductRow>, quantity: int)
  {
    selected.Some? && quantity <= selected.value.quantity
  }

  /** The submit button is enabled only for a chosen product and a quantity between 1 and its
      stock. */
  predicate ButtonEnabled(productId: string, selected: Option<ProductRow>, quantity: int)
  {
    productId != "" && quantity > 0 && quantity <= (if selected.Some? then selected.value.quantity else 0)
  }

  /** A sale submitted with the button passes the page's check and the server's validation of
      the staff route. */
  lemma EnabledSaleAdmissible(productId: string, selected: Option<ProductRow>, quantity: int)
    requires ButtonEnabled(productId, selected, quantity)
    ensures SendsSale(selected, quantity)
    ensures Inventory.Admissible(Inventory.SaleRequest(Inventory.InternalSale, productId, quantity, None, None))
  {
  }

  /** The submit handler's own check admits 0, and would admit -1: what keeps them from being
      sent is the input's clamp, its `min` and `required`, and the button's disabled rule. */
  lemma CheckAloneAdmitsNonPositive(p: ProductRow)
    requires p.quantity >= 0
    ensures SendsSale(Some(p), 0) && SendsSale(Some(p), -1)
  {
  }

  /** The quantity input's change handler, `Math.max(0, Number(value))`, on a whole number. */
  function QuantityInput(typed: int): (q: int)
    ensures q >= 0
    ensures typed >= 0 ==> q == typed
    ensures typed < 0 ==> q == 0
  {
    if typed < 0 then 0 else typed
  }

  /** The local stock update after a sale (`products.map`). */
  function UpdateLocalStock(products: seq<ProductRow>, productId: string, quantity: int): (r: seq<ProductRow>)
    ensures |r| == |products|
    ensures forall i :: 0 <= i < |products| ==>
      r[i] == (if products[i].id == productId then products[i].(quantity := products[i].quantity - quantity) else products[i])
  {
    seq(|products|, i requires 0 <= i < |products| =>
      if products[i].id == productId then products[i].(quantity := products[i].quantity - quantity) else products[i])
  }

  function StockTotal(products: seq<ProductRow>): int
    decreases |products|
  {
    if products == [] then 0 else StockTotal(products[..|products| - 1]) + products[|products| - 1].quantity
  }

  predicate UniqueIds(products: seq<ProductRow>)
  {
    forall i, j :: 0 <= i < j < |products| ==> products[i].id != products[j].id
  }

  /** With unique ids, the page's total stock drops by exactly the quantity sold when the
      product is listed, and stays as it was when it is not. */
  lemma {:induction false} LocalStockDrop(products: seq<ProductRow>, productId: string, quantity: int)
    requires UniqueIds(products)
    ensures StockTotal(UpdateLocalStock(products, productId, quantity)) ==
      StockTotal(products) - (if exists i :: 0 <= i < |products| && products[i].id == productId then quantity else 0)
    decreases |products|
  {
    if products != [] {
      var n := |products| - 1;
      var init := products[..n];
      assert UpdateLocalStock(products, productId, quantity)[..n] == UpdateLocalStock(init, productId, quantity);
      LocalStockDrop(init, productId, quantity);
      if products[n].id == productId {
        assert forall i :: 0 <= i < n ==> init[i].id != productId;
      } else if exists i :: 0 <= i < |products| && products[i].id == productId {
        var i :| 0 <= i < |products| && products[i].id == productId;
        assert init[i].id == productId;
      }
    }
  }

  /** The new sale goes on top of the list (`[newSale, ...prev]`). */
  function PrependSale(sales: seq<SaleRow>, newSale: SaleRow): (r: seq<SaleRow>)
    ensures |r| == |sales| + 1 && r[0] == newSale && r[1..] == sales
  {
    [newSale] + sales
  }

  /** Putting the new sale on top adds its price to its product's bar and to the grand
      total, and leaves every other product's bar as it was. */
  lemma PrependedSaleTotals(sales: seq<SaleRow>, newSale: SaleRow, name: Option<string>)
    ensures TotalFor(PrependSale(sales, newSale), name) ==
      TotalFor(sales, name) + (if Key(newSale) == name then newSale.totalPrice else 0.0)
    ensures GrandTotal(PrependSale(sales, newSale)) == GrandTotal(sales) + newSale.totalPrice
  {
    TotalForPrepend(sales, newSale, name);
    GrandTotalPrepend(sales, newSale);
  }

  lemma {:induction false} TotalForPrepend(sales: seq<SaleRow>, s: SaleRow, name: Option<string>)
    ensures TotalFor([s] + sales, name) == TotalFor(sales, name) + (if Key(s) == name then s.totalPrice else 0.0)
    decreases |sales|
  {
    if sales != [] {
      var n := |sales| - 1;
      assert ([s] + sales)[..n + 1] == [s] + sales[..n];
      TotalForPrepend(sales[..n], s, name);
    }
  }

  lemma {:induction false} GrandTotalPrepend(sales: seq<SaleRow>, s: SaleRow)
    ensures GrandTotal([s] + sales) == GrandTotal(sales) + s.totalPrice
    decreases |sales|
  {
    if sales != [] {
      var n := |sales| - 1;
      assert ([s] + sales)[..n + 1] == [s] + sales[..n];
      GrandTotalPrepend(sales[..n], s);
    }
  }
}
