/** The financial roll-ups of backend/server.js as folds over in-memory lists: the
    income-statement identities and monthly generator, the period summary of the finance
    dashboard and the primary partner's monthly and yearly summary. Only completed sales
    inside the window count; money is a real number. */
module Reports {
  import opened Wrappers
  import opened Records
  import Seqs
  import Text
  import Orders
  import Inventory

  /** Milliseconds in a day. */
  const DayMs: int := 86400000

  /** A date filter: none, or `$gte start` with `$lte end` (inclusive) or `$lt end`. */
  datatype Window = Unbounded | Between(start: int, end: int, endInclusive: bool)

  predicate InWindow(w: Window, t: nat)
  {
    match w
    case Unbounded => true
    case Between(start, end, inclusive) => start <= t && (if inclusive then t <= end else t < end)
  }

  /** The whole month beginning at `monthStart` and lasting `days` days. */
  function MonthWindow(monthStart: int, days: int): Window
  {
    Between(monthStart, monthStart + days * DayMs, false)
  }

  // ---------- folds ----------

  predicate Counted(w: Window, s: Sale)
  {
    s.status == Completed && InWindow(w, s.saleDate)
  }

  /** Σ totalPrice over the completed sales in the window. */
  function Revenue(sales: seq<Sale>, w: Window): real
    decreases |sales|
  {
    if sales == [] then 0.0
    else (if Counted(w, sales[0]) then sales[0].totalPrice else 0.0) + Revenue(sales[1..], w)
  }

  /** Σ purchasePrice × quantity over the completed sales in the window. */
  function Cogs(sales: seq<Sale>, w: Window): real
    decreases |sales|
  {
    if sales == [] then 0.0
    else (if Counted(w, sales[0]) then sales[0].purchasePrice * sales[0].quantity as real else 0.0) +
         Cogs(sales[1..], w)
  }

  /** Σ expenses over the lots bought in the window (the lots of every product, unwound). */
  function LotExpenses(lots: seq<Lot>, w: Window): real
    decreases |lots|
  {
    if lots == [] then 0.0
    else (if InWindow(w, lots[0].purchaseDate) then lots[0].expenses else 0.0) + LotExpenses(lots[1..], w)
  }

  /** Σ quantity × unitCost over the lots bought in the window. */
  function LotPurchaseCosts(lots: seq<Lot>, w: Window): real
    decreases |lots|
  {
    if lots == [] then 0.0
    else (if InWindow(w, lots[0].purchaseDate) then lots[0].quantity as real * lots[0].unitCost else 0.0) +
         LotPurchaseCosts(lots[1..], w)
  }

  /** Σ amount over the standalone expenses in the window. */
  function ExpenseTotal(expenses: seq<Expense>, w: Window): real
    decreases |expenses|
  {
    if expenses == [] then 0.0
    else (if InWindow(w, expenses[0].expenseDate) then expenses[0].amount else 0.0) +
         ExpenseTotal(expenses[1..], w)
  }

  /** Σ totalPrice over all the given sales, whatever their status and date. */
  function SumTotals(sales: seq<Sale>): real
    decreases |sales|
  {
    if sales == [] then 0.0 else sales[0].totalPrice + SumTotals(sales[1..])
  }

  /** Revenue is the plain sum over the completed sales of the window, selected first. */
  lemma {:induction false} RevenueIsSumOfCounted(sales: seq<Sale>, w: Window)
    ensures Revenue(sales, w) == SumTotals(Seqs.Filter(s => Counted(w, s), sales))
    decreases |sales|
  {
    if sales != [] {
      RevenueIsSumOfCounted(sales[1..], w);
    }
  }

  /** Σ purchasePrice × quantity over all the given sales, whatever their status and date. */
  function SumCosts(sales: seq<Sale>): real
    decreases |sales|
  {
    if sales == [] then 0.0 else sales[0].purchasePrice * sales[0].quantity as real + SumCosts(sales[1..])
  }

  /** The cost of goods sold is the plain sum of costs over the completed sales of the
      window, selected first. */
  lemma {:induction false} CogsIsSumOfCounted(sales: seq<Sale>, w: Window)
    ensures Cogs(sales, w) == SumCosts(Seqs.Filter(s => Counted(w, s), sales))
    decreases |sales|
  {
    if sales != [] {
      CogsIsSumOfCounted(sales[1..], w);
    }
  }

  lemma {:induction false} RevenueAppend(a: seq<Sale>, b: seq<Sale>, w: Window)
    ensures Revenue(a + b, w) == Revenue(a, w) + Revenue(b, w)
    decreases |a|
  {
    if a == [] {
      assert a + b == b;
    } else {
      assert (a + b)[1..] == a[1..] + b;
      RevenueAppend(a[1..], b, w);
    }
  }

  lemma {:induction false} CogsAppend(a: seq<Sale>, b: seq<Sale>, w: Window)
    ensures Cogs(a + b, w) == Cogs(a, w) + Cogs(b, w)
    decreases |a|
  {
    if a == [] {
      assert a + b == b;
    } else {
      assert (a + b)[1..] == a[1..] + b;
      CogsAppend(a[1..], b, w);
    }
  }

  /** Replacing one sale changes the revenue by the difference of the two contributions. */
  lemma {:induction false} RevenueUpdate(sales: seq<Sale>, k: nat, s: Sale, w: Window)
    requires k < |sales|
    ensures Revenue(sales[k := s], w) ==
      Revenue(sales, w) - (if Counted(w, sales[k]) then sales[k].totalPrice else 0.0)
                        + (if Counted(w, s) then s.totalPrice else 0.0)
    decreases |sales|
  {
    if k > 0 {
      assert sales[k := s][1..] == sales[1..][k - 1 := s];
      RevenueUpdate(sales[1..], k - 1, s, w);
    }
  }

  // ---------- the finance dashboard summary ----------

  datatype Summary = Summary(
    revenue: real,
    costOfGoodsSold: real,
    grossProfit: real,
    operatingExpenses: real,
    netProfit: real,
    productPurchases: real,
    otherExpenses: real,
    totalPurchaseCosts: real)

  /** `GET /finance/summary` for one window (`Unbounded` when no known period is asked). */
  function FinanceSummary(sales: seq<Sale>, lots: seq<Lot>, expenses: seq<Expense>, w: Window): (r: Summary)
    ensures r.grossProfit == r.revenue - r.costOfGoodsSold
    ensures r.operatingExpenses == r.productPurchases + r.otherExpenses
    ensures r.netProfit == r.revenue - r.costOfGoodsSold - r.productPurchases - r.otherExpenses
    ensures r.revenue == Revenue(sales, w) && r.costOfGoodsSold == Cogs(sales, w)
    ensures r.productPurchases == LotExpenses(lots, w) && r.otherExpenses == ExpenseTotal(expenses, w)
    ensures r.totalPurchaseCosts == LotPurchaseCosts(lots, w)
  {
    var revenue := Revenue(sales, w);
    var cogs := Cogs(sales, w);
    var lotExpenses := LotExpenses(lots, w);
    var other := ExpenseTotal(expenses, w);
    Summary(revenue, cogs, revenue - cogs, lotExpenses + other, (revenue - cogs) - (lotExpenses + other),
            lotExpenses, other, LotPurchaseCosts(lots, w))
  }

  /** No records, no money: every figure is zero. */
  lemma FinanceSummaryOfNothing(w: Window)
    ensures FinanceSummary([], [], [], w) == Summary(0.0, 0.0, 0.0, 0.0, 0.0, 0.0, 0.0, 0.0)
  {
  }

  /** A sale that is not completed, or lies outside the window, changes no figure. */
  lemma FinanceSummaryIgnoresUncounted(sales: seq<Sale>, lots: seq<Lot>, expenses: seq<Expense>,
                                       w: Window, s: Sale)
    requires !Counted(w, s)
    ensures FinanceSummary(sales + [s], lots, expenses, w) == FinanceSummary(sales, lots, expenses, w)
  {
    RevenueAppend(sales, [s], w);
    CogsAppend(sales, [s], w);
  }

  /** A settled sale inside the window adds its price times its quantity to the revenue and
      exactly its FIFO cost to the cost of goods sold. */
  lemma SettledSaleInSummary(sales: seq<Sale>, lots: seq<Lot>, expenses: seq<Expense>, w: Window,
                             productName: string, price: real, q: int, cost: real,
                             req: Inventory.SaleRequest, now: nat)
    requires q >= 1 && InWindow(w, now)
    ensures var before := FinanceSummary(sales, lots, expenses, w);
      var after := FinanceSummary(sales + [Inventory.CompletedSale(productName, price, q, cost, req, now)], lots, expenses, w);
      after.revenue == before.revenue + price * q as real &&
      after.costOfGoodsSold == before.costOfGoodsSold + cost &&
      after.operatingExpenses == before.operatingExpenses
  {
    var s := Inventory.CompletedSale(productName, price, q, cost, req, now);
    RevenueAppend(sales, [s], w);
    CogsAppend(sales, [s], w);
    Inventory.CompletedSaleAmounts(productName, price, q, cost, req, now);
  }

  /** Moving a completed sale to another status through the status route takes its total
      out of every revenue figure that counted it. */
  lemma StatusUpdateWithdrawsRevenue(sales: seq<Sale>, k: nat, status: OrderStatus,
                                     reason: Option<string>, w: Window)
    requires k < |sales| && status != Completed
    ensures Revenue(sales[k := Orders.ApplyStatus(sales[k], status, reason)], w) ==
      Revenue(sales, w) - (if Counted(w, sales[k]) then sales[k].totalPrice else 0.0)
  {
    RevenueUpdate(sales, k, Orders.ApplyStatus(sales[k], status, reason), w);
  }

  // ---------- income statements ----------

  datatype IncomeStatement = IncomeStatement(
    month: string,
    year: int,
    totalRevenue: real,
    costOfGoodsSold: real,
    grossProfit: Option<real>,
    operatingExpenses: real,
    netProfit: Option<real>)

  /** The pre-save hook: gross profit and net profit are derived from the other figures. */
  function PreSave(st: IncomeStatement): (r: IncomeStatement)
    ensures r.grossProfit == Some(r.totalRevenue - r.costOfGoodsSold)
    ensures r.netProfit == Some(r.totalRevenue - r.costOfGoodsSold - r.operatingExpenses)
    ensures r.(grossProfit := st.grossProfit, netProfit := st.netProfit) == st
  {
    var gross := st.totalRevenue - st.costOfGoodsSold;
    st.(grossProfit := Some(gross), netProfit := Some(gross - st.operatingExpenses))
  }

  /** The month key `${year}-${month.padStart(2, '0')}`. */
  function MonthKey(year: nat, month: nat): string
  {
    Text.Join(KeyParts(year, month), '-')
  }

  function KeyParts(year: nat, month: nat): seq<string>
  {
    [Text.NatToString(year), PadStart2(Text.NatToString(month))]
  }

  function PadStart2(s: string): (r: string)
    ensures |r| == if |s| >= 2 then |s| else 2
    ensures r[|r| - |s|..] == s
    ensures forall k :: 0 <= k < |r| - |s| ==> r[k] == '0'
  {
    if |s| >= 2 then s else if |s| == 1 then ['0'] + s else "00"
  }

  lemma {:induction false} LeadingZero(s: string)
    requires Text.AllDigits(s)
    ensures Text.AllDigits(['0'] + s) && Text.DigitsValue(['0'] + s) == Text.DigitsValue(s)
    decreases |s|
  {
    var z := ['0'] + s;
    assert Text.AllDigits(z) by {
      assert forall k :: 1 <= k < |z| ==> z[k] == s[k - 1];
    }
    if s != [] {
      assert z[..|z| - 1] == ['0'] + s[..|s| - 1];
      LeadingZero(s[..|s| - 1]);
    }
  }

  /** Different months get different keys, so generating one month never overwrites
      another. */
  lemma MonthKeyInjective(y1: nat, m1: nat, y2: nat, m2: nat)
    requires MonthKey(y1, m1) == MonthKey(y2, m2)
    ensures y1 == y2 && m1 == m2
  {
    KeyPartsNoDash(y1, m1);
    KeyPartsNoDash(y2, m2);
    JoinPairInjective(KeyParts(y1, m1), KeyParts(y2, m2));
    assert Text.NatToString(y1) == Text.NatToString(y2);
    Text.NatToStringInjective(y1, y2);
    var b1, b2 := Text.NatToString(m1), Text.NatToString(m2);
    assert PadStart2(b1) == PadStart2(b2);
    PaddedValue(b1);
    PaddedValue(b2);
    Text.DigitsValueOfNatToString(m1);
    Text.DigitsValueOfNatToString(m2);
  }

  lemma JoinPairInjective(p1: seq<string>, p2: seq<string>)
    requires |p1| == 2 && forall k :: 0 <= k < |p1| ==> '-' !in p1[k]
    requires |p2| == 2 && forall k :: 0 <= k < |p2| ==> '-' !in p2[k]
    requires Text.Join(p1, '-') == Text.Join(p2, '-')
    ensures p1 == p2
  {
    Text.SplitJoin(p1, '-');
    Text.SplitJoin(p2, '-');
  }

  /** The two dash-free parts a month key joins. */
  lemma KeyPartsNoDash(year: nat, month: nat)
    ensures var p := KeyParts(year, month);
      |p| == 2 && forall k :: 0 <= k < |p| ==> '-' !in p[k]
  {
    DigitsOnlyNoDash(Text.NatToString(year));
    PaddedDigits(Text.NatToString(month));
  }

  lemma DigitsOnlyNoDash(s: string)
    requires Text.AllDigits(s)
    ensures '-' !in s
  {
  }

  lemma PaddedDigits(s: string)
    requires Text.AllDigits(s)
    ensures Text.AllDigits(PadStart2(s)) && '-' !in PadStart2(s)
  {
    var r := PadStart2(s);
    if |s| == 1 {
      LeadingZero(s);
    }
  }

  lemma PaddedValue(s: string)
    requires Text.AllDigits(s) && |s| >= 1
    ensures Text.AllDigits(PadStart2(s)) && Text.DigitsValue(PadStart2(s)) == Text.DigitsValue(s)
  {
    if |s| == 1 {
      LeadingZero(s);
    }
  }

  /** The generator's window: from the first millisecond of the month up to 23:59:59.999 of
      its last day, both inclusive. */
  function GeneratorWindow(monthStart: int, days: int): Window
  {
    Between(monthStart, monthStart + days * DayMs - 1, true)
  }

  /** The generator's window covers exactly the month. */
  lemma GeneratorWindowIsMonth(monthStart: int, days: int, t: nat)
    ensures InWindow(GeneratorWindow(monthStart, days), t) <==> InWindow(MonthWindow(monthStart, days), t)
  {
  }

  /** The figures of one month's statement, before the hook derives the profits. */
  function MonthFigures(key: string, year: nat, monthStart: int, days: int,
                        sales: seq<Sale>, lots: seq<Lot>, expenses: seq<Expense>,
                        stored: Option<IncomeStatement>): IncomeStatement
  {
    var w := GeneratorWindow(monthStart, days);
    var revenue := Revenue(sales, w);
    var cogs := Cogs(sales, w);
    var opex := LotExpenses(lots, w) + ExpenseTotal(expenses, w);
    match stored
    case Some(st) => st.(totalRevenue := revenue, costOfGoodsSold := cogs, operatingExpenses := opex)
    case None => IncomeStatement(key, year, revenue, cogs, None, opex, None)
  }

  /** Schema validation: every required figure must be present. */
  predicate Complete(st: IncomeStatement)
  {
    st.grossProfit.Some? && st.netProfit.Some?
  }

  datatype GenerateError = ValidationFailed(key: string)

  /** `POST /income-statements/generate` as written: schema validation runs before the
      pre-save hook, so a month without a stored statement is refused for missing profits. */
  function GenerateAsWritten(store: map<string, IncomeStatement>, year: nat, month: nat,
                             monthStart: int, days: int, sales: seq<Sale>, lots: seq<Lot>,
                             expenses: seq<Expense>): (r: Result<map<string, IncomeStatement>, GenerateError>)
    ensures MonthKey(year, month) in store && Complete(store[MonthKey(year, month)]) ==> r.Ok?
  {
    var key := MonthKey(year, month);
    var st := MonthFigures(key, year, monthStart, days, sales, lots, expenses,
                           if key in store then Some(store[key]) else None);
    if !Complete(st) then Err(ValidationFailed(key)) else Ok(store[key := PreSave(st)])
  }

  /** Any first generation of a month fails as written. */
  lemma FirstGenerationFails(store: map<string, IncomeStatement>, year: nat, month: nat,
                             monthStart: int, days: int, sales: seq<Sale>, lots: seq<Lot>,
                             expenses: seq<Expense>)
    requires MonthKey(year, month) !in store
    ensures GenerateAsWritten(store, year, month, monthStart, days, sales, lots, expenses) ==
      Err(ValidationFailed(MonthKey(year, month)))
  {
  }

  /** The generator as intended: the hook's figures are in place before the statement is
      stored, whether it is new or replaces the month's earlier one. */
  function Generate(store: map<string, IncomeStatement>, year: nat, month: nat,
                    monthStart: int, days: int, sales: seq<Sale>, lots: seq<Lot>,
                    expenses: seq<Expense>): (r: map<string, IncomeStatement>)
    ensures r.Keys == store.Keys + {MonthKey(year, month)}
    ensures forall k :: k in store && k != MonthKey(year, month) ==> r[k] == store[k]
  {
    var key := MonthKey(year, month);
    var st := MonthFigures(key, year, monthStart, days, sales, lots, expenses,
                           if key in store then Some(store[key]) else None);
    store[key := PreSave(st)]
  }

  /** The stored statement holds the month's figures and the two profit identities. */
  lemma GeneratedStatement(store: map<string, IncomeStatement>, year: nat, month: nat,
                           monthStart: int, days: int, sales: seq<Sale>, lots: seq<Lot>,
                           expenses: seq<Expense>)
    ensures var st := Generate(store, year, month, monthStart, days, sales, lots, expenses)[MonthKey(year, month)];
      var w := MonthWindow(monthStart, days);
      st.totalRevenue == Revenue(sales, w) && st.costOfGoodsSold == Cogs(sales, w) &&
      st.operatingExpenses == LotExpenses(lots, w) + ExpenseTotal(expenses, w) &&
      st.grossProfit == Some(st.totalRevenue - st.costOfGoodsSold) &&
      st.netProfit == Some(st.totalRevenue - st.costOfGoodsSold - st.operatingExpenses) &&
      Complete(st)
  {
    WindowsAgree(monthStart, days);
    SameWindowSameFolds(sales, lots, expenses, GeneratorWindow(monthStart, days), MonthWindow(monthStart, days));
  }

  lemma WindowsAgree(monthStart: int, days: int)
    ensures forall t: nat :: InWindow(GeneratorWindow(monthStart, days), t) <==> InWindow(MonthWindow(monthStart, days), t)
  {
  }

  /** Two windows holding the same instants give the same folds. */
  lemma {:induction false} SameWindowSameFolds(sales: seq<Sale>, lots: seq<Lot>, expenses: seq<Expense>, v: Window, w: Window)
    requires forall t: nat :: InWindow(v, t) <==> InWindow(w, t)
    ensures Revenue(sales, v) == Revenue(sales, w) && Cogs(sales, v) == Cogs(sales, w)
    ensures LotExpenses(lots, v) == LotExpenses(lots, w) && ExpenseTotal(expenses, v) == ExpenseTotal(expenses, w)
    decreases |sales| + |lots| + |expenses|
  {
    if sales != [] {
      SameWindowSameFolds(sales[1..], lots, expenses, v, w);
    } else if lots != [] {
      SameWindowSameFolds(sales, lots[1..], expenses, v, w);
    } else if expenses != [] {
      SameWindowSameFolds(sales, lots, expenses[1..], v, w);
    }
  }

  /** Generating the same month twice from the same records stores the same statement. */
  lemma GenerateIdempotent(store: map<string, IncomeStatement>, year: nat, month: nat,
                           monthStart: int, days: int, sales: seq<Sale>, lots: seq<Lot>,
                           expenses: seq<Expense>)
    ensures var once := Generate(store, year, month, monthStart, days, sales, lots, expenses);
      Generate(once, year, month, monthStart, days, sales, lots, expenses) == once
  {
  }

  /** Generating one month leaves every other month's statement as it was. */
  lemma GenerateKeepsOtherMonths(store: map<string, IncomeStatement>, year: nat, month: nat,
                                 monthStart: int, days: int, sales: seq<Sale>, lots: seq<Lot>,
                                 expenses: seq<Expense>, y: nat, m: nat)
    requires MonthKey(y, m) in store && (y, m) != (year, month)
    ensures Generate(store, year, month, monthStart, days, sales, lots, expenses)[MonthKey(y, m)] ==
      store[MonthKey(y, m)]
  {
    if MonthKey(y, m) == MonthKey(year, month) {
      MonthKeyInjective(y, m, year, month);
    }
  }

  // ---------- the primary partner's summary ----------

  datatype PeriodFigures = PeriodFigures(
    revenue: real,
    costOfGoodsSold: real,
    grossProfit: real,
    expenses: real,
    netProfit: real)

  /** One period of `GET /primary-partner/financial-summary`: only standalone expenses count
      as expenses here. */
  function PartnerFigures(sales: seq<Sale>, expenses: seq<Expense>, w: Window): (r: PeriodFigures)
    ensures r.grossProfit == r.revenue - r.costOfGoodsSold
    ensures r.netProfit == r.revenue - r.costOfGoodsSold - r.expenses
  {
    var revenue := Revenue(sales, w);
    var cogs := Cogs(sales, w);
    PeriodFigures(revenue, cogs, revenue - cogs, ExpenseTotal(expenses, w), (revenue - cogs) - ExpenseTotal(expenses, w))
  }

  /** The partner summary agrees with the finance summary on sales, and differs only in
      leaving the lot expenses out. */
  lemma PartnerAgreesWithFinance(sales: seq<Sale>, lots: seq<Lot>, expenses: seq<Expense>, w: Window)
    ensures var p := PartnerFigures(sales, expenses, w);
      var f := FinanceSummary(sales, lots, expenses, w);
      p.revenue == f.revenue && p.costOfGoodsSold == f.costOfGoodsSold &&
      p.expenses == f.otherExpenses && p.netProfit == f.netProfit + f.productPurchases
  {
  }

  /** The partner's month as written: up to 00:00 of the month's last day, inclusive. */
  function PartnerMonthWindowAsWritten(monthStart: int, days: int): Window
  {
    Between(monthStart, monthStart + (days - 1) * DayMs, true)
  }

  /** The partner's year as written: up to 00:00 of the next 1 January, inclusive. */
  function PartnerYearWindowAsWritten(yearStart: int, nextYearStart: int): Window
  {
    Between(yearStart, nextYearStart, true)
  }

  /** The whole year, its end exclusive. */
  function YearWindow(yearStart: int, nextYearStart: int): Window
  {
    Between(yearStart, nextYearStart, false)
  }

  /** The finance dashboard's "monthly" period as written: up to 00:00 of the month's last
      day, exclusive. */
  function FinanceMonthWindowAsWritten(monthStart: int, days: int): Window
  {
    Between(monthStart, monthStart + (days - 1) * DayMs, false)
  }

  /** The partner summary as intended: whole month, whole year. */
  function PartnerFinancialSummary(sales: seq<Sale>, expenses: seq<Expense>, monthStart: int, days: int,
                                   yearStart: int, nextYearStart: int): (r: (PeriodFigures, PeriodFigures))
    ensures r.0 == PartnerFigures(sales, expenses, MonthWindow(monthStart, days))
    ensures r.1 == PartnerFigures(sales, expenses, YearWindow(yearStart, nextYearStart))
  {
    (PartnerFigures(sales, expenses, MonthWindow(monthStart, days)),
     PartnerFigures(sales, expenses, YearWindow(yearStart, nextYearStart)))
  }

  /** A completed sale at noon of the month's last day: missing from the partner's and the
      finance dashboard's monthly figures as written, present in the whole month. */
  lemma LastDayOfMonthDropped(monthStart: nat, days: nat, s: Sale)
    requires days >= 1 && s.status == Completed
    requires s.saleDate == monthStart + (days - 1) * DayMs + DayMs / 2
    ensures Revenue([s], PartnerMonthWindowAsWritten(monthStart, days)) == 0.0
    ensures Revenue([s], FinanceMonthWindowAsWritten(monthStart, days)) == 0.0
    ensures Revenue([s], MonthWindow(monthStart, days)) == s.totalPrice
  {
  }

  /** A completed sale at exactly 00:00 of the next 1 January: counted in the closing year as
      written, although it belongs to the next one. */
  lemma NewYearMidnightCountedTwice(yearStart: nat, nextYearStart: nat, followingYearStart: nat, s: Sale)
    requires yearStart < nextYearStart < followingYearStart && s.status == Completed
    requires s.saleDate == nextYearStart
    ensures Revenue([s], PartnerYearWindowAsWritten(yearStart, nextYearStart)) == s.totalPrice
    ensures Revenue([s], PartnerYearWindowAsWritten(nextYearStart, followingYearStart)) == s.totalPrice
    ensures Revenue([s], YearWindow(yearStart, nextYearStart)) == 0.0
  {
  }

  /** Consecutive months partition time: an instant lies in at most one of them, and every
      instant from the first month's start to the second month's end lies in one. */
  lemma MonthsPartition(monthStart: int, days: int, nextDays: int, t: nat)
    requires days >= 0 && nextDays >= 0
    ensures !(InWindow(MonthWindow(monthStart, days), t) &&
              InWindow(MonthWindow(monthStart + days * DayMs, nextDays), t))
    ensures monthStart <= t < monthStart + (days + nextDays) * DayMs ==>
      InWindow(MonthWindow(monthStart, days), t) || InWindow(MonthWindow(monthStart + days * DayMs, nextDays), t)
  {
  }

  /** Consecutive whole years, their ends exclusive, partition time in the same way: no
      instant lies in both, and every instant of their span lies in one. */
  lemma YearsPartition(yearStart: int, nextYearStart: int, followingYearStart: int, t: nat)
    requires yearStart <= nextYearStart <= followingYearStart
    ensures !(InWindow(YearWindow(yearStart, nextYearStart), t) &&
              InWindow(YearWindow(nextYearStart, followingYearStart), t))
    ensures yearStart <= t < followingYearStart ==>
      InWindow(YearWindow(yearStart, nextYearStart), t) || InWindow(YearWindow(nextYearStart, followingYearStart), t)
  {
  }
}
