/** The customer-query page (frontend/src/pages/QueryManagement.js): the status filter and
    search over the queries, the three counts charted, and the badge of a query. */
module QueryManagementPage {
  import opened Wrappers
  import Text
  import Seqs

  /** A customer query as the page reads it; absent text fields are `None`. */
  datatype Query = Query(
    customerName: Option<string>,
    customerEmail: Option<string>,
    message: Option<string>,
    status: string,
    responseType: Option<string>)

  /** The test of the status filter; an unknown filter value keeps every query. */
  predicate StatusTest(filter: string, q: Query)
  {
    match filter
    case "pending" => q.status == "pending"
    case "completed" => q.status == "complete"
    case "auto-replied" => q.status == "complete" && q.responseType == Some("auto")
    case "manual-replied" => q.status == "complete" && q.responseType == Some("manual")
    case _ => true
  }

  /** The search test, for a term already lower-cased. */
  predicate SearchTest(term: string, q: Query)
  {
    Text.FieldHas(q.customerName, term) || Text.FieldHas(q.customerEmail, term) || Text.FieldHas(q.message, term)
  }

  function ByStatus(filter: string): Query -> bool { q => StatusTest(filter, q) }
  function BySearch(term: string): Query -> bool { q => SearchTest(term, q) }
  function ByBoth(filter: string, term: string): Query -> bool { q => StatusTest(filter, q) && SearchTest(term, q) }

  /** The page's test on one query: the status filter, and the search when a term is typed. */
  predicate Shows(filter: string, search: string, q: Query)
  {
    StatusTest(filter, q) && (search == "" || SearchTest(Text.Lower(search), q))
  }

  /** `filterQueries`: the status filter, then the search when a term is typed; the queries
      kept are those passing both, each as often as it occurs and in order. */
  function FilterQueries(queries: seq<Query>, filter: string, search: string): (r: seq<Query>)
    ensures Seqs.IsSubseq(r, queries)
    ensures forall k :: 0 <= k < |queries| ==> (queries[k] in r <==> Shows(filter, search, queries[k]))
    ensures forall q :: multiset(r)[q] == if Shows(filter, search, q) then multiset(queries)[q] else 0
  {
    if search == "" then
      Seqs.FilterCounts(ByStatus(filter), queries);
      Seqs.Filter(ByStatus(filter), queries)
    else
      TwoStages(queries, filter, Text.Lower(search));
      Seqs.Filter(BySearch(Text.Lower(search)), Seqs.Filter(ByStatus(filter), queries))
  }

  /** The search applied to the status filter's result keeps the queries passing both tests. */
  lemma TwoStages(queries: seq<Query>, filter: string, term: string)
    ensures var r := Seqs.Filter(BySearch(term), Seqs.Filter(ByStatus(filter), queries));
      Seqs.IsSubseq(r, queries) &&
      (forall k :: 0 <= k < |queries| ==> (queries[k] in r <==> StatusTest(filter, queries[k]) && SearchTest(term, queries[k]))) &&
      (forall q :: multiset(r)[q] == if StatusTest(filter, q) && SearchTest(term, q) then multiset(queries)[q] else 0)
  {
    forall k | 0 <= k < |queries|
      ensures ByBoth(filter, term)(queries[k]) == (ByStatus(filter)(queries[k]) && BySearch(term)(queries[k]))
    {
      BothAgree(filter, term, queries[k]);
    }
    Seqs.FilterFilterBy(ByStatus(filter), BySearch(term), ByBoth(filter, term), queries);
    Seqs.FilterCounts(ByBoth(filter, term), queries);
  }

  /** The status filter and the search together are one filter by both tests. */
  lemma FilterQueriesIsOneFilter(queries: seq<Query>, filter: string, search: string)
    requires search != ""
    ensures FilterQueries(queries, filter, search) == Seqs.Filter(ByBoth(filter, Text.Lower(search)), queries)
  {
    var term := Text.Lower(search);
    FilterQueriesInStages(queries, filter, search);
    forall k | 0 <= k < |queries|
      ensures ByBoth(filter, term)(queries[k]) == (ByStatus(filter)(queries[k]) && BySearch(term)(queries[k]))
    {
      BothAgree(filter, term, queries[k]);
    }
    Seqs.FilterFilterBy(ByStatus(filter), BySearch(term), ByBoth(filter, term), queries);
  }

  lemma BothAgree(filter: string, term: string, q: Query)
    ensures (ByStatus(filter)(q) && BySearch(term)(q)) == ByBoth(filter, term)(q)
  {
  }

  lemma FilterQueriesInStages(queries: seq<Query>, filter: string, search: string)
    requires search != ""
    ensures FilterQueries(queries, filter, search) ==
      Seqs.Filter(BySearch(Text.Lower(search)), Seqs.Filter(ByStatus(filter), queries))
  {
  }

  /** No search and a filter value other than the four shows every query, in order. */
  lemma UnfilteredShowsAll(queries: seq<Query>, filter: string)
    requires filter !in {"pending", "completed", "auto-replied", "manual-replied"}
    ensures FilterQueries(queries, filter, "") == queries
  {
    Seqs.FilterAll(ByStatus(filter), queries);
  }

  /** The search ignores the case of the term. */
  lemma SearchIgnoresCase(queries: seq<Query>, filter: string, search: string)
    ensures FilterQueries(queries, filter, Text.Lower(search)) == FilterQueries(queries, filter, search)
  {
    Text.LowerIdempotent(search);
    if search != "" {
      assert Text.Lower(search) != "" by {
        assert |Text.Lower(search)| == |search|;
      }
    } else {
      assert Text.Lower(search) == "";
    }
  }

  // ---------- chart counts ----------

  predicate IsPending(q: Query) { q.status == "pending" }
  predicate IsAutoReplied(q: Query) { q.status == "complete" && q.responseType == Some("auto") }
  predicate IsManualReplied(q: Query) { q.status == "complete" && q.responseType == Some("manual") }

  /** The three numbers charted: pending, auto-replied and manually replied queries. */
  function StatusCounts(queries: seq<Query>): (counts: (nat, nat, nat))
    ensures counts.0 + counts.1 + counts.2 <= |queries|
    ensures counts.0 == |FilterQueries(queries, "pending", "")|
    ensures counts.1 == |FilterQueries(queries, "auto-replied", "")|
    ensures counts.2 == |FilterQueries(queries, "manual-replied", "")|
  {
    Seqs.ExclusiveFilterCounts(q => IsPending(q), q => IsAutoReplied(q), q => IsManualReplied(q), queries);
    Seqs.FilterCongruent(q => IsPending(q), ByStatus("pending"), queries);
    Seqs.FilterCongruent(q => IsAutoReplied(q), ByStatus("auto-replied"), queries);
    Seqs.FilterCongruent(q => IsManualReplied(q), ByStatus("manual-replied"), queries);
    (|Seqs.Filter(q => IsPending(q), queries)|,
     |Seqs.Filter(q => IsAutoReplied(q), queries)|,
     |Seqs.Filter(q => IsManualReplied(q), queries)|)
  }

  // ---------- badge ----------

  datatype Badge = PendingBadge | AutoRepliedBadge | ManuallyRepliedBadge | UnknownBadge

  /** `getStatusBadge`: a completed query is "Manually Replied" unless its reply was
      automatic, whatever its recorded response type. */
  function StatusBadge(q: Query): (b: Badge)
    ensures b == PendingBadge <==> IsPending(q)
    ensures b == AutoRepliedBadge <==> IsAutoReplied(q)
    ensures b == ManuallyRepliedBadge <==> q.status == "complete" && q.responseType != Some("auto")
    ensures b == UnknownBadge <==> q.status !in {"pending", "complete"}
  {
    if q.status == "pending" then PendingBadge
    else if q.status == "complete" then
      if q.responseType == Some("auto") then AutoRepliedBadge else ManuallyRepliedBadge
    else UnknownBadge
  }

  /** Every query the "manual-replied" filter keeps carries the manual badge; the converse
      fails for a completed query with no response type, which the badge calls manually
      replied but neither reply filter shows. */
  lemma ManualBadgeWiderThanFilter()
    ensures forall q: Query :: StatusTest("manual-replied", q) ==> StatusBadge(q) == ManuallyRepliedBadge
    ensures var q := Query(None, None, None, "complete", None);
      StatusBadge(q) == ManuallyRepliedBadge && !StatusTest("manual-replied", q) && !StatusTest("auto-replied", q)
  {
  }
}
