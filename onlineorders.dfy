/** The online-orders page (frontend/src/pages/OnlineOrders.js): the parameters of the order
    request, the search over the orders received, and the list shown. */
module OnlineOrdersPage {
  import opened Wrappers
  import Text
  import Seqs

  /** An order as received: its id and the three optional text fields the page shows. */
  datatype OrderRow = OrderRow(id: Option<string>, customerName: Option<string>, customerEmail: Option<string>,
    productName: Option<string>)

  /** The text the page shows for an optional field: its value, or `fallback` when the field
      is missing or empty (the `||` defaults of the row transform). */
  function Shown(field: Option<string>, fallback: string): string
  {
    if Text.Given(field) then field.value else fallback
  }

  /** The search test, for a query already lower-cased: the shown name, e-mail and product
      name, which are never empty, and the id when it is present. */
  predicate OrderMatches(o: OrderRow, query: string)
  {
    Text.Contains(Text.Lower(Shown(o.customerName, "N/A")), query) ||
    Text.Contains(Text.Lower(Shown(o.customerEmail, "N/A")), query) ||
    Text.Contains(Text.Lower(Shown(o.productName, "Unknown Product")), query) ||
    Text.FieldHas(o.id, query)
  }

  /** `applySearchFilter`: every order for an empty query, else the matching ones, each as
      often as it occurs and in order. */
  function ApplySearchFilter(orders: seq<OrderRow>, searchQuery: string): (r: seq<OrderRow>)
    ensures searchQuery == "" ==> r == orders
    ensures Seqs.IsSubseq(r, orders)
    ensures searchQuery != "" ==>
      forall k :: 0 <= k < |orders| ==> (orders[k] in r <==> OrderMatches(orders[k], Text.Lower(searchQuery)))
    ensures searchQuery != "" ==>
      forall o :: multiset(r)[o] == if OrderMatches(o, Text.Lower(searchQuery)) then multiset(orders)[o] else 0
  {
    if searchQuery == "" then
      Seqs.SubseqRefl(orders);
      orders
    else
      Seqs.FilterCounts(o => OrderMatches(o, Text.Lower(searchQuery)), orders);
      Seqs.Filter(o => OrderMatches(o, Text.Lower(searchQuery)), orders)
  }

  /** An order without a customer name is found by searching for the placeholder shown in
      its place. */
  lemma PlaceholderIsSearched()
    ensures var o := OrderRow(Some("a1"), None, Some("x@y.z"), Some("SSD"));
      ApplySearchFilter([o], "n/a") == [o]
  {
    var o := OrderRow(Some("a1"), None, Some("x@y.z"), Some("SSD"));
    assert Text.Lower("n/a") == "n/a";
    assert Text.Lower("N/A") == "n/a";
    assert Text.OccursAt("n/a", "n/a", 0);
    assert OrderMatches(o, "n/a");
    assert Seqs.Filter(o => OrderMatches(o, Text.Lower("n/a")), [o]) == [o];
  }

  /** `displayOrders`: the filtered list while a query is set, otherwise all orders. */
  function DisplayOrders(orders: seq<OrderRow>, filteredOrders: seq<OrderRow>, searchQuery: string): seq<OrderRow>
  {
    if searchQuery != "" then filteredOrders else orders
  }

  /** Once the search has run, the list shown is the search result, whatever the query. */
  lemma DisplayIsSearchResult(orders: seq<OrderRow>, searchQuery: string)
    ensures DisplayOrders(orders, ApplySearchFilter(orders, searchQuery), searchQuery) ==
      ApplySearchFilter(orders, searchQuery)
  {
  }

  /** A query matches an order exactly when its lower-cased form does. */
  lemma SearchIgnoresCase(orders: seq<OrderRow>, searchQuery: string)
    ensures ApplySearchFilter(orders, Text.Lower(searchQuery)) == ApplySearchFilter(orders, searchQuery)
  {
    Text.LowerIdempotent(searchQuery);
    assert |Text.Lower(searchQuery)| == |searchQuery|;
  }

  // ---------- request parameters ----------

  /** The query parameters of the order request, in the order they are appended. */
  function BuildParams(status: string, startDate: string, endDate: string): seq<(string, string)>
  {
    (if status != "" && status != "all" then [("status", status)] else []) +
    (if startDate != "" then [("startDate", startDate)] else []) +
    (if endDate != "" then [("endDate", endDate)] else [])
  }

  /** The value of the first parameter named `key`. */
  function Param(params: seq<(string, string)>, key: string): Option<string>
  {
    if params == [] then None
    else if params[0].0 == key then Some(params[0].1)
    else Param(params[1..], key)
  }

  /** Each filter reaches the request exactly when it is set; 'all' sends no status. */
  lemma BuildParamsSendsSetFilters(status: string, startDate: string, endDate: string)
    ensures Param(BuildParams(status, startDate, endDate), "status") ==
      (if status != "" && status != "all" then Some(status) else None)
    ensures Param(BuildParams(status, startDate, endDate), "startDate") ==
      (if startDate != "" then Some(startDate) else None)
    ensures Param(BuildParams(status, startDate, endDate), "endDate") ==
      (if endDate != "" then Some(endDate) else None)
    ensures |BuildParams(status, startDate, endDate)| <= 3
    ensures forall i, j :: 0 <= i < j < |BuildParams(status, startDate, endDate)| ==>
      BuildParams(status, startDate, endDate)[i].0 != BuildParams(status, startDate, endDate)[j].0
  {
    var s := if status != "" && status != "all" then [("status", status)] else [];
    var a := if startDate != "" then [("startDate", startDate)] else [];
    var e := if endDate != "" then [("endDate", endDate)] else [];
    assert "status" != "startDate" && "status" != "endDate" && "startDate" != "endDate" by {
      assert "status"[3] != "startDate"[3];
      assert |"status"| != |"endDate"|;
      assert "startDate"[0] != "endDate"[0];
    }
    assert BuildParams(status, startDate, endDate) == s + a + e;
    ParamsOf(s, a, e, "status");
    ParamsOf(s, a, e, "startDate");
    ParamsOf(s, a, e, "endDate");
  }

  lemma ParamsOf(s: seq<(string, string)>, a: seq<(string, string)>, e: seq<(string, string)>, key: string)
    ensures Param(s + a + e, key) == if Param(s, key).Some? then Param(s, key)
      else if Param(a, key).Some? then Param(a, key) else Param(e, key)
  {
    ParamAppend(s, a, key);
    ParamAppend(s + a, e, key);
  }

  lemma {:induction false} ParamAppend(a: seq<(string, string)>, b: seq<(string, string)>, key: string)
    ensures Param(a + b, key) == if Param(a, key).Some? then Param(a, key) else Param(b, key)
    decreases |a|
  {
    if a == [] {
      assert a + b == b;
    } else {
      assert (a + b)[1..] == a[1..] + b;
      ParamAppend(a[1..], b, key);
    }
  }
}
