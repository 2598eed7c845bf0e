# Inventory, finance and customer-service core of an IWB e-waste shop

This Dafny project models the core of a small web shop for refurbished computer parts: the
Express/Mongoose back end (`backend/server.js`) and the pure helpers of seven React pages.

- **Ledger** (`Fifo`, `Inventory`). A product carries its purchase lots, and its aggregate
  `quantity` should equal the sum of the lot remainders. A purchase appends a lot. A sale
  walks the stocked lots oldest first (`calculateFIFOCost`) and records a completed sale at
  the current price. Its unit cost is the FIFO cost spread over the units. `Product` is a
  class whose methods update its lots and quantity in place. Each method is proved against
  the spec function `Fifo.Draw`, and the FIFO properties are proved about `Draw`.
- **Order statuses** (`Orders`). The status route changes only the status and the rejection
  reason of one sale.
- **Roll-ups** (`Reports`):
  - the finance summary;
  - the monthly income-statement generator, with its pre-save hook and month key;
  - the partner's monthly and yearly figures.

  Each is a fold over in-memory lists, restricted to a date window.
- **Accounts** (`Accounts`). The registration checks run in the route's order: required
  fields, role, e-mail pattern, password pattern, unique e-mail, then the per-role cap.
  Deleting a user never removes the last developer.
- **Automatic reply** (`AutoReply`). A keyword table is tried first. Next comes the stored
  manual answer whose question shares the most long words with the message. Last comes the
  database's text-search hit.
- **Page helpers**, one module per page:
  - `DevDashboard`: the uptime text, log severities and status badges;
  - `ClientPurchasePage`: the history filter, the quantity clamp, card and expiry
    formatting, the order guard and status labels;
  - `SalesPage`: the per-product totals loop, the stock guard and the local updates;
  - `QueryManagementPage`: the query filter, chart counts and badge;
  - `ProductCatalogPage`: the placeholder image and the catalogue filter;
  - `OnlineOrdersPage`: the order search and request parameters;
  - `RegisterPage`: the password messages.

Conventions used throughout:

- Money is `real`.
- Instants are `nat` milliseconds.
- A missing document field is `Option.None`.
- Strings are `seq<char>`, with ASCII case folding.

## Model

| member | source | states |
|---|---|---|
| Fifo.FifoOrderIsFifo | cloud-computing-complete-main/completed1/backend/server.js:212-214 | The sorted filter of the lots holds exactly the stocked lots, each once, sorted by date with ties broken by position |
| Fifo.FifoOrderUnique | cloud-computing-complete-main/completed1/backend/server.js:212-214 | Any order with those properties is this one, so the stable sort's result is determined |
| Fifo.WalkConservation | cloud-computing-complete-main/completed1/backend/server.js:216-223 | Over the loop, the remainders drop by exactly the part of the need the walk satisfied |
| Fifo.WalkCost | cloud-computing-complete-main/completed1/backend/server.js:219 | The accumulated cost equals Σ units taken × unit cost over all lots |
| Fifo.WalkUnmet | cloud-computing-complete-main/completed1/backend/server.js:216-227 | What is left unmet is zero when supply covers the need, and otherwise the shortfall |
| Fifo.WalkDrains | cloud-computing-complete-main/completed1/backend/server.js:216-223 | A later lot in the walk is touched only once every earlier one is empty |
| Fifo.DrawOutcome | cloud-computing-complete-main/completed1/backend/server.js:205-231 | Over the whole FIFO draw: the shortfall is zero when the stocked lots cover the need and the difference otherwise; a covered need removes exactly that many units from the lots; the cost is Σ units drawn × unit cost |
| Fifo.DrawFrame | cloud-computing-complete-main/completed1/backend/server.js:212-223 | Only remainders change; lots without stock are untouched; no remainder grows or goes negative |
| Fifo.DrawOldestFirst | cloud-computing-complete-main/completed1/backend/server.js:212-223 | First in, first out: a lot is drawn from only when every earlier-dated stocked lot is empty |
| Fifo.AvailableCoversTotal | cloud-computing-complete-main/completed1/backend/server.js:212 | The stock in stocked lots is at least the plain sum of remainders |
| Inventory.Product.constructor | cloud-computing-complete-main/completed1/backend/server.js:642-647 | A new product starts with no lots, quantity 0 and the given price, and satisfies the ledger invariant |
| Inventory.Product.RecordPurchase | cloud-computing-complete-main/completed1/backend/server.js:650-659 | Appends one lot holding all units (expenses default 0), raises the aggregate by the same amount, updates the price only when a non-zero one is given, and keeps the invariant |
| Inventory.Product.ConsumeFifo | cloud-computing-complete-main/completed1/backend/server.js:205-231 | Succeeds ⟺ the stocked lots cover the need. On success the lots become `Draw(lots).lots` and the cost is `Draw(lots).cost`. On failure it reports "not enough inventory" and nothing is saved |
| Inventory.Product.Settle | cloud-computing-complete-main/completed1/backend/server.js:760-809 | Validation first, then the aggregate check, then the FIFO draw. It succeeds exactly when all three pass, and records the completed sale and lowers the aggregate by q. When the aggregate allows q but the stocked lots do not cover it, the error is NotEnoughInventory with the product's name. A refusal changes nothing. The invariant is preserved, and with it the FIFO walk never fails after the aggregate check |
| Inventory.StockChecksAgree | cloud-computing-complete-main/completed1/backend/server.js:773-780 | Under the invariant, passing the aggregate check implies the FIFO walk meets the need and leaves quantity − q in the lots |
| Inventory.CompletedSaleAmounts | cloud-computing-complete-main/completed1/backend/server.js:1439-1452 | The recorded unit cost × quantity gives back the FIFO cost; total = price × quantity; status completed. The staff route (server.js:735-744) stores no customer fields, and the client routes store the ones sent |
| Inventory.PurchaseNewProduct | cloud-computing-complete-main/completed1/backend/server.js:629-659 | Without a product id a product is created (named `Product-<now>` when no name is given, with the description sent) holding one lot of the units. Nothing is created exactly when the price, the quantity or the unit cost is missing, because the schema requires them (server.js:67-68) |
| Inventory.PurchaseExisting | cloud-computing-complete-main/completed1/backend/server.js:629-659 | Unknown id → not found. A missing quantity or unit cost fails at the save and leaves the product unchanged. Otherwise that product gets the new lot and the units, the price changes only when a non-zero price is sent, the name and description are kept, and the invariant holds |
| Inventory.SettleById | cloud-computing-complete-main/completed1/backend/server.js:1419-1467 | Validation before lookup, then not found, then InsufficientStock when the aggregate is short and NotEnoughInventory when only the lots are. A success happens ⟺ the stored product's aggregate and stocked lots cover the quantity; it records the completed sale at the product's price and FIFO cost, and leaves the drawn lots and the lowered aggregate. A refusal changes nothing, and the invariant is kept |
| Inventory.InternalSaleAsWritten | cloud-computing-complete-main/completed1/backend/server.js:719-758 | Covers every quantity the unvalidated route accepts. For q ≥ 1 it behaves like a settlement (succeeds ⟺ the aggregate and the lots cover q). For q = 0 it fails, because the unit cost 0 / 0 is refused at save. For a negative q within the aggregate it succeeds, raises the aggregate by −q and leaves the lots as they are |
| Inventory.NegativeInternalSaleInflatesStock | cloud-computing-complete-main/completed1/backend/server.js:728-748 | A negative quantity is accepted, leaves the lots unchanged and raises the aggregate above the lots' sum |
| Orders.ParseNewStatus | cloud-computing-complete-main/completed1/backend/server.js:1523-1525 | Exactly the four wire names processing, purchased, refunded, cancelled are accepted |
| Orders.ApplyStatus | cloud-computing-complete-main/completed1/backend/server.js:1528-1531 | The new status is set; the rejection reason changes only on cancellation; no other field changes |
| Orders.UpdateOrderStatus | cloud-computing-complete-main/completed1/backend/server.js:1519-1548 | An invalid status is refused before the lookup, and an unknown id is not found. On success only that sale changes, and its new status is one of the four |
| Orders.UpdateNeverCompletes | cloud-computing-complete-main/completed1/backend/server.js:1523-1531 | After an update the sale is never completed, and only the status and reason differ |
| Reports.RevenueIsSumOfCounted | cloud-computing-complete-main/completed1/backend/server.js:981-987 | Revenue equals the sum of the totals of the completed sales in the window, selected first |
| Reports.CogsIsSumOfCounted | cloud-computing-complete-main/completed1/backend/server.js:981-987 | COGS equals the sum of unit cost × quantity over the completed sales in the window, selected first |
| Reports.RevenueAppend | cloud-computing-complete-main/completed1/backend/server.js:987 | Revenue is additive over concatenated sale lists |
| Reports.CogsAppend | cloud-computing-complete-main/completed1/backend/server.js:988-989 | Cost of goods sold is additive over concatenated sale lists |
| Reports.FinanceSummary | cloud-computing-complete-main/completed1/backend/server.js:931-1059 | Revenue, COGS, lot expenses, other expenses and purchase costs are the window's folds. gross = revenue − COGS; operating = purchases + other expenses; net = revenue − COGS − purchases − other expenses |
| Reports.FinanceSummaryOfNothing | cloud-computing-complete-main/completed1/backend/server.js:987-1038 | With no records every figure is zero |
| Reports.FinanceSummaryIgnoresUncounted | cloud-computing-complete-main/completed1/backend/server.js:981-984 | A sale that is not completed, or lies outside the window, changes no figure |
| Reports.SettledSaleInSummary | cloud-computing-complete-main/completed1/backend/server.js:760-809 | A settled sale inside the window adds price × q to revenue and its FIFO cost to COGS |
| Reports.StatusUpdateWithdrawsRevenue | cloud-computing-complete-main/completed1/backend/server.js:1528-1531 | Moving a counted sale to another status removes its total from the revenue |
| Reports.PreSave | cloud-computing-complete-main/completed1/backend/server.js:147-151 | The hook sets gross = revenue − COGS and net = gross − operating, touching nothing else |
| Reports.PadStart2 | cloud-computing-complete-main/completed1/backend/server.js:888 | The string padded on the left with '0' to length 2: the result's length is max(|s|, 2), it ends with the input and every added character is '0' |
| Reports.MonthKeyInjective | cloud-computing-complete-main/completed1/backend/server.js:888-889 | Different (year, month) pairs get different keys, so one month's statement never overwrites another's |
| Reports.GeneratorWindowIsMonth | cloud-computing-complete-main/completed1/backend/server.js:816-817 | The generator's window up to 23:59:59.999 of the last day holds exactly the month's instants |
| Reports.GenerateAsWritten | cloud-computing-complete-main/completed1/backend/server.js:888-905 | As written, an existing complete statement is updated successfully |
| Reports.FirstGenerationFails | cloud-computing-complete-main/completed1/backend/server.js:896-905 | A month with no statement yet always fails validation, because the required profits are missing when validation runs |
| Reports.Generate | cloud-computing-complete-main/completed1/backend/server.js:888-905 | The corrected generator stores exactly one statement under the month key and leaves the other keys as they were |
| Reports.GeneratedStatement | cloud-computing-complete-main/completed1/backend/server.js:820-905 | The stored statement carries the month's revenue, COGS and lot plus standalone expenses, plus both profit identities |
| Reports.GenerateIdempotent | cloud-computing-complete-main/completed1/backend/server.js:889-905 | Generating a month twice from the same records stores the same statement |
| Reports.GenerateKeepsOtherMonths | cloud-computing-complete-main/completed1/backend/server.js:889-905 | Generating one month leaves every other month's statement unchanged |
| Reports.SameWindowSameFolds | cloud-computing-complete-main/completed1/backend/server.js:820-883 | Two windows that hold the same instants give the same revenue, COGS and expenses |
| Reports.PartnerFigures | cloud-computing-complete-main/completed1/backend/server.js:1563-1581 | Partner figures: gross = revenue − COGS; net = gross − standalone expenses |
| Reports.PartnerAgreesWithFinance | cloud-computing-complete-main/completed1/backend/server.js:1558-1594 | On the same window the partner summary's revenue and COGS equal the finance summary's, and its expenses are the standalone ones |
| Reports.PartnerFinancialSummary | cloud-computing-complete-main/completed1/backend/server.js:1551-1626 | The corrected partner summary: the figures of the whole month and of the whole year |
| Reports.LastDayOfMonthDropped | cloud-computing-complete-main/completed1/backend/server.js:1554-1561 | A sale at noon of the month's last day is missing from the partner's and the finance dashboard's month as written, and present in the whole month |
| Reports.NewYearMidnightCountedTwice | cloud-computing-complete-main/completed1/backend/server.js:1584-1590 | A sale at 00:00 on 1 January is counted, as written, in both the closing and the new year; the exclusive year counts it once |
| Reports.MonthsPartition | cloud-computing-complete-main/completed1/backend/server.js:816-817 | Consecutive whole-month windows share no instant and together cover their span |
| Reports.YearsPartition | cloud-computing-complete-main/completed1/backend/server.js:968-974 | Consecutive whole-year windows, ends exclusive, share no instant and together cover their span |
| Accounts.RoleLimit | cloud-computing-complete-main/completed1/backend/server.js:345-355 | investor 10, client 100, every other role 3 |
| Accounts.RoleCountAppend | cloud-computing-complete-main/completed1/backend/server.js:354 | Adding a user raises its role's count by one and no other |
| Accounts.EmailOkIsPattern | cloud-computing-complete-main/completed1/backend/server.js:327-330 | The route's e-mail check is equivalent to the pattern: local part, '@', domain, '.', suffix, with no blank or '@' |
| Accounts.Register | cloud-computing-complete-main/completed1/backend/server.js:315-383 | The refusals in the route's order: missing field, invalid role, invalid e-mail, weak password, e-mail taken, role full. A success means every check passed, and exactly the new user is appended |
| Accounts.RegisterKeepsInvariants | cloud-computing-complete-main/completed1/backend/server.js:340-369 | Registration keeps every role within its cap and every e-mail address unique |
| Accounts.CapRefusesNext | cloud-computing-complete-main/completed1/backend/server.js:354-359 | Once a role holds its cap, the next valid registration of that role is refused with the cap |
| Accounts.DeleteUser | cloud-computing-complete-main/completed1/backend/server.js:1807-1833 | A non-developer requester is refused. "Not found" ⟺ no user has the id. A success ⟺ a developer asks, the user exists and is not the only developer; it removes exactly that user. "Last developer" is refused exactly when that user is the only developer |
| Accounts.DeleteKeepsADeveloper | cloud-computing-complete-main/completed1/backend/server.js:1820-1825 | Deleting never leaves the system without a developer |
| Accounts.RoleCountRemove | cloud-computing-complete-main/completed1/backend/server.js:1821 | Removing a user lowers only its role's count, by one |
| AutoReply.KeywordReplyFrom | cloud-computing-complete-main/completed1/backend/server.js:248-253 | A keyword answer exists ⟺ some keyword occurs in the lower-cased message |
| AutoReply.KeywordReplyIsFirstMatch | cloud-computing-complete-main/completed1/backend/server.js:248-253 | The answer given is the one of the first matching keyword in table order |
| AutoReply.KeywordReplyIgnoresCase | cloud-computing-complete-main/completed1/backend/server.js:248-250 | Messages equal up to case get the same keyword answer |
| AutoReply.SplitWs | cloud-computing-complete-main/completed1/backend/server.js:264-267 | Splitting on runs of white space gives at least one piece, none containing a blank |
| AutoReply.SplitWsJoin | cloud-computing-complete-main/completed1/backend/server.js:264 | Splitting words joined by single spaces gives back the words |
| AutoReply.CommonWords | cloud-computing-complete-main/completed1/backend/server.js:268-270 | The count of shared long words never exceeds the message's word count |
| AutoReply.Score | cloud-computing-complete-main/completed1/backend/server.js:267-272 | The similarity score lies in [0, 1] |
| AutoReply.ThresholdOverIntegers | cloud-computing-complete-main/completed1/backend/server.js:274 | `score > 0.3` ⟺ 10 × common > 3 × max length |
| AutoReply.BestManualMatch | cloud-computing-complete-main/completed1/backend/server.js:261-278 | None ⟺ no answer scores above 0.3; otherwise the answer chosen is the first with the highest score |
| AutoReply.GetAutoReply | cloud-computing-complete-main/completed1/backend/server.js:236-299 | The keyword answer if any; else the first best manual answer above the threshold; else the text-search hit; else nothing |
| AutoReply.FirstBestUnique | cloud-computing-complete-main/completed1/backend/server.js:261-278 | At most one answer is the first best |
| DevDashboard.UptimeDecomposition | cloud-computing-complete-main/completed1/frontend/src/pages/DeveloperDashboard.js:230-233 | days·86400 + hours·3600 + minutes·60 + seconds = uptime, with hours < 24 and minutes, seconds < 60 |
| DevDashboard.ParseFormatUptime | cloud-computing-complete-main/completed1/frontend/src/pages/DeveloperDashboard.js:228-241 | Reading back the formatted text gives the uptime, so the text loses nothing |
| DevDashboard.FormatUptimeInjective | cloud-computing-complete-main/completed1/frontend/src/pages/DeveloperDashboard.js:228-241 | Different uptimes are shown differently |
| DevDashboard.FormatUptimeShape | cloud-computing-complete-main/completed1/frontend/src/pages/DeveloperDashboard.js:229-240 | "0s" ⟺ no uptime or 0; the text always ends in the seconds unit |
| DevDashboard.Severity | cloud-computing-complete-main/completed1/frontend/src/pages/DeveloperDashboard.js:314-319 | 3 ⟺ ERROR, 2 ⟺ WARN, 1 otherwise |
| DevDashboard.Severities | cloud-computing-complete-main/completed1/frontend/src/pages/DeveloperDashboard.js:314-319 | One severity per log entry, in order |
| DevDashboard.StatusBadge | cloud-computing-complete-main/completed1/frontend/src/pages/DeveloperDashboard.js:261-270 | pending → Pending, complete → Completed; any other status is "unknown" and shown as is |
| ClientPurchasePage.FilteredPurchases | cloud-computing-complete-main/completed1/frontend/src/pages/ClientPurchase.js:106-125 | The history rows passing the search, status and date tests, in order: a row is kept ⟺ it matches, and each matching row as often as it occurs |
| ClientPurchasePage.FilterDefaults | cloud-computing-complete-main/completed1/frontend/src/pages/ClientPurchase.js:106-125 | With the default filter, exactly the rows that carry a product name are shown |
| ClientPurchasePage.SearchIgnoresCase | cloud-computing-complete-main/completed1/frontend/src/pages/ClientPurchase.js:107 | The search ignores the case of the term |
| ClientPurchasePage.EndDayBounds | cloud-computing-complete-main/completed1/frontend/src/pages/ClientPurchase.js:110-121 | The end day is included up to 23:59:59.000 and nothing after it is |
| ClientPurchasePage.ClampQuantity | cloud-computing-complete-main/completed1/frontend/src/pages/ClientPurchase.js:135 | Non-numeric text gives 0; otherwise the parsed integer if positive, else 0 |
| ClientPurchasePage.ClampNumeral | cloud-computing-complete-main/completed1/frontend/src/pages/ClientPurchase.js:135 | A decimal numeral, followed by anything that is not a digit, gives back its value |
| ClientPurchasePage.ClampNegative | cloud-computing-complete-main/completed1/frontend/src/pages/ClientPurchase.js:135 | A negative numeral gives 0 |
| ClientPurchasePage.HandlePurchaseChange | cloud-computing-complete-main/completed1/frontend/src/pages/ClientPurchase.js:133-137 | Only the named field changes; the quantity is clamped |
| ClientPurchasePage.QuantityStaysNonNegative | cloud-computing-complete-main/completed1/frontend/src/pages/ClientPurchase.js:133-137 | The form's quantity never becomes negative |
| ClientPurchasePage.CardFormatKeepsCharacters | cloud-computing-complete-main/completed1/frontend/src/pages/ClientPurchase.js:142-145 | Formatting the card number only moves spaces: without spaces, input and output agree |
| ClientPurchasePage.CardFormatIdempotent | cloud-computing-complete-main/completed1/frontend/src/pages/ClientPurchase.js:142-145 | Formatting a formatted card number changes nothing |
| ClientPurchasePage.ExpiryInput | cloud-computing-complete-main/completed1/frontend/src/pages/ClientPurchase.js:148-153 | A '/' is appended exactly when two characters without '/' have been typed |
| ClientPurchasePage.ExpiryInputIdempotent | cloud-computing-complete-main/completed1/frontend/src/pages/ClientPurchase.js:148-153 | Applying the expiry rule twice is the same as once |
| ClientPurchasePage.HandlePaymentChange | cloud-computing-complete-main/completed1/frontend/src/pages/ClientPurchase.js:139-154 | Only the named field changes: card number formatted, expiry completed, the others stored as typed |
| ClientPurchasePage.StoredCardNumberFormatted | cloud-computing-complete-main/completed1/frontend/src/pages/ClientPurchase.js:139-145 | The stored card number is always in its formatted form |
| ClientPurchasePage.SubmitPurchase | cloud-computing-complete-main/completed1/frontend/src/pages/ClientPurchase.js:156-184 | The guards run in the page's order, each with its message: no product or a negative quantity, then incomplete payment, then "User information missing" when no e-mail is stored. An order is sent ⟺ a product is chosen, the payment is complete and a user e-mail is stored. The request carries the form's product and quantity |
| ClientPurchasePage.SentRequestAdmissible | cloud-computing-complete-main/completed1/frontend/src/pages/ClientPurchase.js:159-184 | A sent order passes the server's validation ⟺ its quantity is at least 1 and a name is stored |
| ClientPurchasePage.ZeroQuantityReachesServer | cloud-computing-complete-main/completed1/frontend/src/pages/ClientPurchase.js:159-167 | A quantity of 0 passes the page's guard and is then refused by the server |
| ClientPurchasePage.StatusDisplay | cloud-computing-complete-main/completed1/frontend/src/pages/ClientPurchase.js:200-209 | A known status, in any case, is shown capitalised; anything else gets the fallback text |
| ClientPurchasePage.StatusDisplayRoundTrip | cloud-computing-complete-main/completed1/frontend/src/pages/ClientPurchase.js:200-209 | The label is never empty, and lower-casing the label of a known status gives back the status |
| SalesPage.GroupSalesByProduct | cloud-computing-complete-main/completed1/frontend/src/pages/Sales.js:125-137 | One entry per product key, in order of first appearance; each entry's total is that key's sum; the entries add up to the grand total |
| SalesPage.FirstAppearances | cloud-computing-complete-main/completed1/frontend/src/pages/Sales.js:125-137 | The distinct keys, each one that occurs in the sales |
| SalesPage.EnabledSaleAdmissible | cloud-computing-complete-main/completed1/frontend/src/pages/Sales.js:66-76 | An enabled button always sends a sale the server accepts (quantity at least 1) |
| SalesPage.CheckAloneAdmitsNonPositive | cloud-computing-complete-main/completed1/frontend/src/pages/Sales.js:66-70 | The submit handler's own check admits quantity 0 (and would admit −1). The input's clamp, its `min`/`required` attributes and the button's disabled rule keep them from being sent |
| SalesPage.QuantityInput | cloud-computing-complete-main/completed1/frontend/src/pages/Sales.js:198-199 | The quantity input stores `Math.max(0, value)`: never negative, the typed value when it is not negative, 0 otherwise |
| SalesPage.LocalStockDrop | cloud-computing-complete-main/completed1/frontend/src/pages/Sales.js:83-87 | With unique ids, the local stock total drops by the quantity when the product is listed, and otherwise stays |
| SalesPage.UpdateLocalStock | cloud-computing-complete-main/completed1/frontend/src/pages/Sales.js:83-87 | Only the rows with the sold product's id lose the quantity |
| SalesPage.PrependSale | cloud-computing-complete-main/completed1/frontend/src/pages/Sales.js:80 | The new sale comes first, followed by the old list |
| SalesPage.PrependedSaleTotals | cloud-computing-complete-main/completed1/frontend/src/pages/Sales.js:80-137 | After a sale is prepended, its product's total and the grand total grow by its price |
| QueryManagementPage.FilterQueries | cloud-computing-complete-main/completed1/frontend/src/pages/QueryManagement.js:130-152 | A query is kept ⟺ it passes the status test and, when a term is typed, the search. Each kept query appears as often as in the input, in order |
| QueryManagementPage.FilterQueriesIsOneFilter | cloud-computing-complete-main/completed1/frontend/src/pages/QueryManagement.js:130-152 | The two stages together are a single filter by both tests |
| QueryManagementPage.UnfilteredShowsAll | cloud-computing-complete-main/completed1/frontend/src/pages/QueryManagement.js:131-141 | An unknown filter with no search shows every query |
| QueryManagementPage.SearchIgnoresCase | cloud-computing-complete-main/completed1/frontend/src/pages/QueryManagement.js:143-150 | The search ignores the case of the term |
| QueryManagementPage.StatusCounts | cloud-computing-complete-main/completed1/frontend/src/pages/QueryManagement.js:89-91 | The three charted counts equal the three filters' sizes and together never exceed the number of queries |
| QueryManagementPage.StatusBadge | cloud-computing-complete-main/completed1/frontend/src/pages/QueryManagement.js:215-226 | Each badge is given exactly when its condition holds; a completed query is "manually replied" unless its reply was automatic |
| QueryManagementPage.ManualBadgeWiderThanFilter | cloud-computing-complete-main/completed1/frontend/src/pages/QueryManagement.js:140 | Every query the manual filter keeps has the manual badge; a completed query with no response type has it too, yet neither reply filter shows it |
| ProductCatalogPage.ClassifyFrom | cloud-computing-complete-main/completed1/frontend/src/pages/ProductCatalog.js:71-79 | The default image is given ⟺ no rule's keyword occurs in the name |
| ProductCatalogPage.FirstMatchingRuleWins | cloud-computing-complete-main/completed1/frontend/src/pages/ProductCatalog.js:73-77 | The image is the one of the first rule whose keyword occurs |
| ProductCatalogPage.DefaultImageIgnoresCase | cloud-computing-complete-main/completed1/frontend/src/pages/ProductCatalog.js:72 | Names equal up to case get the same image |
| ProductCatalogPage.MotherboardKeywordRedundant | cloud-computing-complete-main/completed1/frontend/src/pages/ProductCatalog.js:76 | Every name containing "motherboard" also contains "board" |
| ProductCatalogPage.RamBeatsMotherboard | cloud-computing-complete-main/completed1/frontend/src/pages/ProductCatalog.js:73-76 | "Board with RAM" gets the RAM image |
| ProductCatalogPage.FilteredProducts | cloud-computing-complete-main/completed1/frontend/src/pages/ProductCatalog.js:81-87 | A product is kept ⟺ it passes the category test and the search; each kept product appears as often as in the catalogue, in order |
| ProductCatalogPage.NoFilterShowsAll | cloud-computing-complete-main/completed1/frontend/src/pages/ProductCatalog.js:81-87 | Filter "all" with an empty search shows the whole catalogue |
| OnlineOrdersPage.ApplySearchFilter | cloud-computing-complete-main/completed1/frontend/src/pages/OnlineOrders.js:78-93 | An empty query gives every order. Otherwise an order is kept ⟺ its shown name, e-mail or product name ('N/A' / 'Unknown Product' when missing or empty) or its id contains the lower-cased query. Each kept order appears as often as received, in order |
| OnlineOrdersPage.PlaceholderIsSearched | cloud-computing-complete-main/completed1/frontend/src/pages/OnlineOrders.js:56 | An order without a customer name is found by the query "n/a" |
| OnlineOrdersPage.DisplayIsSearchResult | cloud-computing-complete-main/completed1/frontend/src/pages/OnlineOrders.js:140 | The list shown is the search result whatever the query |
| OnlineOrdersPage.SearchIgnoresCase | cloud-computing-complete-main/completed1/frontend/src/pages/OnlineOrders.js:80-89 | The search ignores the case of the query |
| OnlineOrdersPage.BuildParamsSendsSetFilters | cloud-computing-complete-main/completed1/frontend/src/pages/OnlineOrders.js:39-44 | Each filter is sent ⟺ it is set ("all" sends no status); at most three parameters, with distinct names |
| RegisterPage.ValidatePassword | cloud-computing-complete-main/completed1/frontend/src/pages/Register.js:16-39 | No message ⟺ length ≥ 8 with an uppercase letter, a lowercase letter, a digit and a special character; any message is one of the five |
| RegisterPage.ShortPasswordMessage | cloud-computing-complete-main/completed1/frontend/src/pages/Register.js:23-25 | A short password always gets the length message |
| RegisterPage.MessageIsFirstFailure | cloud-computing-complete-main/completed1/frontend/src/pages/Register.js:23-37 | Each message is shown exactly when its check is the first to fail |
| RegisterPage.HandleRegister | cloud-computing-complete-main/completed1/frontend/src/pages/Register.js:41-53 | The form is sent unchanged ⟺ the password has no message; otherwise the message is shown |
| RegisterPage.ServerAcceptedPassesPage | cloud-computing-complete-main/completed1/frontend/src/pages/Register.js:16-39 | Every password the server's pattern accepts also passes the page |
| RegisterPage.PageAcceptsServerRefuses | cloud-computing-complete-main/completed1/frontend/src/pages/Register.js:21 | "Abcdefg1#" passes the page but the server refuses it, because '#' is not one of the server's special characters |
| Seqs.Filter | cloud-computing-complete-main/completed1/frontend/src/pages/QueryManagement.js:133-150 | `Array.prototype.filter`: an order-keeping subsequence of the elements that pass the test, each one that does |
| Seqs.FilterCounts | cloud-computing-complete-main/completed1/frontend/src/pages/QueryManagement.js:133-150 | The filter keeps each passing element exactly as often as it occurs, and no other element |

## Left out

- Persistence is left out: MongoDB, `populate`, the aggregation pipelines and `save`. Collections are in-memory sequences and maps. The two loads and two saves of one product in a settlement are merged into one transition.
- HTTP is left out: Express routing, JWT verification, bcrypt hashing, TOTP and every `try`/`catch` 500 path.
- Concurrency is not modelled. Two settlements racing on one product are outside the model.
- Clocks are parameters, not modelled. The current instant, month start, days in month and year boundaries are inputs, and time zones are not modelled. The daily and weekly periods of the finance summary are not modelled; only its month, year and unbounded windows are.
- The text search of `getAutoReply` (server.js:285-292) is a parameter holding the database's hit. The manual-answers query (its sort and limit of 50) is the input sequence.
- JavaScript numbers are not modelled. Money is `real`, so floating-point rounding is absent. Quantities are integers: `Number(...)` casts, `NaN` and non-integer quantities sent to the API are not modelled.
- Inventory.Product.Settle: the error text "Only N units available" is reduced to the available count.
- Text.Lower: case folding is ASCII only, and `length` counts UTF-16 units, which `seq<char>` does not.
- ClientPurchasePage.ParseInt reads base ten only: the `0x` prefix that `parseInt` also accepts is not modelled.
- DevDashboard.FormatUptime takes a whole number of seconds; a fractional uptime is not modelled.
- Date strings are not modelled. The history filter's start and end dates are the midnight timestamps the page's `new Date(...)` would give.
- ProductCatalogPage.DefaultImageFor returns the kind of placeholder, not its URL. A product description is assumed present.
- OnlineOrdersPage.BuildParams returns the list of name/value pairs, not the URL-encoded string. Of the row transform at OnlineOrders.js:52-61, only the name, e-mail and product-name defaults that the search reads are modelled; the date, price and quantity defaults are only displayed.
- The schema-level e-mail pattern on user save, the `userId` of a sale and rendering (charts, local storage, navigation) are not modelled.
- The product update and delete routes are not modelled. They are outside this core.
- Orders.ParseNewStatus accepts "purchased" although the sale schema's enum (server.js:95) lacks it. `findByIdAndUpdate` runs no validators, so the stored status really is "purchased".

## Findings

| source | as written | input that shows it | evidently intended | confidence | as-written member | corrected member |
|---|---|---|---|---|---|---|
| cloud-computing-complete-main/completed1/backend/server.js:719-748 | `POST /sales` reads `quantity` from the body without validating it; a negative value passes `quantity > product.quantity`, draws no lot, and `product.quantity -= quantity` raises the stock | product with quantity 5 held in lots totalling 5, request quantity −3: stock becomes 8 while the lots still hold 5 | quantity at least 1, as the client routes demand (server.js:763-765) | high, not executed | Inventory.NegativeInternalSaleInflatesStock | Inventory.Product.Settle |
| cloud-computing-complete-main/completed1/backend/server.js:896-905 | the first statement of a month is created without `grossProfit` and `netProfit`, which the schema requires (server.js:140, 142); the pre-save hook that fills them runs after schema validation | any month with no stored statement: `save` fails validation and the route answers 500 | the profits derived before validation (a `pre('validate')` hook, or computed in the handler) | medium, not executed | Reports.FirstGenerationFails | Reports.GeneratedStatement |
| cloud-computing-complete-main/completed1/backend/server.js:1554-1561 | the partner's month ends at `new Date(y, m + 1, 0)`, 00:00 of the month's last day, so that day after midnight is dropped | a completed sale at 12:00 on 31 January is missing from January's figures | the whole month, up to the next month's first instant | high, not executed | Reports.LastDayOfMonthDropped | Reports.PartnerFinancialSummary |
| cloud-computing-complete-main/completed1/backend/server.js:960-966 | the finance summary's "monthly" period uses `$lt` 00:00 of the month's last day, dropping the whole last day | a completed sale at 12:00 on 31 January is missing from January's summary | the whole month | high, not executed | Reports.LastDayOfMonthDropped | Reports.MonthsPartition |
| cloud-computing-complete-main/completed1/backend/server.js:1584-1590 | the partner's year uses `$lte` 00:00 of the next 1 January | a completed sale at exactly 00:00 on 1 January 2025 is counted in both 2024 and 2025 | the year with its end exclusive | high, not executed | Reports.NewYearMidnightCountedTwice | Reports.YearsPartition |
