/** The pure helpers of the client's purchase page (frontend/src/pages/ClientPurchase.js):
    the purchase-history filter, the quantity field, the card-number and expiry formatting,
    the guard before an order is placed and the status labels. */
module ClientPurchasePage {
  import opened Wrappers
  import Text
  import Seqs
  import Inventory

  // ---------- purchase history filter ----------

  /** One row of the purchase history as the page reads it. */
  datatype Purchase = Purchase(productName: Option<string>, orderStatus: Option<string>, saleDate: nat)

  /** The filter controls: the search term, the status ('all' or a status name) and the
      start and end days, each the timestamp of the day's midnight when set. */
  datatype HistoryFilter = HistoryFilter(search: string, status: string, startDay: Option<nat>, endDay: Option<nat>)

  /** The end day is moved to 23:59:59 of that day. */
  const EndOfDayOffset: nat := (23 * 3600 + 59 * 60 + 59) * 1000

  /** A purchase without a product name never matches, not even the empty search. */
  predicate MatchesSearch(p: Purchase, search: string)
  {
    p.productName.Some? && Text.ContainsCI(p.productName.value, search)
  }

  predicate MatchesStatus(p: Purchase, status: string)
  {
    status == "all" || p.orderStatus == Some(status)
  }

  predicate MatchesDate(p: Purchase, startDay: Option<nat>, endDay: Option<nat>)
  {
    (startDay.None? || p.saleDate >= startDay.value) &&
    (endDay.None? || p.saleDate <= endDay.value + EndOfDayOffset)
  }

  predicate Matches(p: Purchase, f: HistoryFilter)
  {
    MatchesSearch(p, f.search) && MatchesStatus(p, f.status) && MatchesDate(p, f.startDay, f.endDay)
  }

  /** `filteredPurchases`: the history rows matching all three tests, each as often as it
      occurs and in history order. */
  function FilteredPurchases(history: seq<Purchase>, f: HistoryFilter): (r: seq<Purchase>)
    ensures Seqs.IsSubseq(r, history)
    ensures forall k :: 0 <= k < |history| ==> (history[k] in r <==> Matches(history[k], f))
    ensures forall k :: 0 <= k < |r| ==> Matches(r[k], f)
    ensures forall p :: multiset(r)[p] == if Matches(p, f) then multiset(history)[p] else 0
  {
    Seqs.FilterCounts(p => Matches(p, f), history);
    Seqs.Filter(p => Matches(p, f), history)
  }

  /** With an empty search, status 'all' and no dates, exactly the rows with a product name
      are shown. */
  lemma FilterDefaults(history: seq<Purchase>)
    ensures var r := FilteredPurchases(history, HistoryFilter("", "all", None, None));
      forall k :: 0 <= k < |history| ==> (history[k] in r <==> history[k].productName.Some?)
  {
    forall p: Purchase | p.productName.Some?
      ensures MatchesSearch(p, "")
    {
      Text.ContainsEmpty(Text.Lower(p.productName.value));
      assert Text.Lower("") == "";
    }
  }

  /** The search ignores case: searching for the lower-cased term shows the same rows. */
  lemma SearchIgnoresCase(history: seq<Purchase>, f: HistoryFilter)
    ensures FilteredPurchases(history, f.(search := Text.Lower(f.search))) == FilteredPurchases(history, f)
  {
    var g := f.(search := Text.Lower(f.search));
    forall k | 0 <= k < |history|
      ensures Matches(history[k], g) == Matches(history[k], f)
    {
      if history[k].productName.Some? {
        Text.ContainsCIIgnoresCase(history[k].productName.value, f.search);
      }
    }
    Seqs.FilterCongruent(p => Matches(p, g), p => Matches(p, f), history);
  }

  /** The day range covers the start day from midnight and the end day up to 23:59:59.000;
      a purchase later in that last second, or on the next day, is not shown. */
  lemma EndDayBounds(p: Purchase, startDay: nat, endDay: nat)
    requires startDay <= endDay
    ensures p.saleDate == startDay ==> MatchesDate(p, Some(startDay), Some(endDay))
    ensures p.saleDate == endDay + 86399000 ==> MatchesDate(p, Some(startDay), Some(endDay))
    ensures p.saleDate > endDay + 86399000 ==> !MatchesDate(p, Some(startDay), Some(endDay))
    ensures p.saleDate < startDay ==> !MatchesDate(p, Some(startDay), Some(endDay))
  {
  }

  // ---------- quantity field ----------

  /** The index of the first non-digit at or after `i`. */
  function DigitRunEnd(s: string, i: nat): (j: nat)
    requires i <= |s|
    ensures i <= j <= |s| && Text.AllDigits(s[i..j]) && (j < |s| ==> !Text.IsDigit(s[j]))
    decreases |s| - i
  {
    if i < |s| && Text.IsDigit(s[i]) then DigitRunEnd(s, i + 1) else i
  }

  /** `parseInt(value)` in base ten: leading blanks are skipped, then an optional sign and
      the longest run of digits is read; no digit gives NaN (`None`). */
  function ParseInt(value: string): Option<int>
  {
    var t := Text.TrimStart(value);
    var start := if |t| > 0 && (t[0] == '-' || t[0] == '+') then 1 else 0;
    var e := DigitRunEnd(t, start);
    if e == start then None
    else
      var n: int := Text.DigitsValue(t[start..e]);
      Some(if start == 1 && t[0] == '-' then -n else n)
  }

  /** `Math.max(0, parseInt(value) || 0)`. */
  function ClampQuantity(value: string): (q: nat)
    ensures ParseInt(value).None? ==> q == 0
    ensures ParseInt(value).Some? ==> q as int == if ParseInt(value).value > 0 then ParseInt(value).value else 0
  {
    match ParseInt(value)
    case None => 0
    case Some(n) => if n > 0 then n else 0
  }

  /** A number typed in, followed by anything that does not start with a digit, is read back
      as that number. */
  lemma ClampNumeral(n: nat, rest: string)
    requires rest == [] || !Text.IsDigit(rest[0])
    ensures ClampQuantity(Text.NatToString(n) + rest) == n
  {
    var d := Text.NatToString(n);
    var t := d + rest;
    assert t[0] == d[0] && Text.IsDigit(d[0]);
    assert Text.TrimStart(t) == t;
    DigitRunAll(t, 0, |d|);
    assert t[0..|d|] == d;
    Text.DigitsValueOfNatToString(n);
  }

  /** A negative number is clamped to 0. */
  lemma ClampNegative(n: nat)
    ensures ClampQuantity("-" + Text.NatToString(n)) == 0
  {
    var t := "-" + Text.NatToString(n);
    assert Text.TrimStart(t) == t;
  }

  lemma {:induction false} DigitRunAll(s: string, i: nat, j: nat)
    requires i <= j <= |s| && (forall k :: i <= k < j ==> Text.IsDigit(s[k])) && (j < |s| ==> !Text.IsDigit(s[j]))
    ensures DigitRunEnd(s, i) == j
    decreases j - i
  {
    if i < j {
      DigitRunAll(s, i + 1, j);
    }
  }

  /** The order form: the product chosen and the quantity. */
  datatype PurchaseForm = PurchaseForm(productId: string, quantity: int)

  /** `handlePurchaseChange`: the quantity field is clamped, any other field stored as typed. */
  function HandlePurchaseChange(form: PurchaseForm, name: string, value: string): (r: PurchaseForm)
    ensures name == "quantity" ==> r == form.(quantity := ClampQuantity(value))
    ensures name == "productId" ==> r == form.(productId := value)
    ensures name !in {"quantity", "productId"} ==> r == form
  {
    if name == "quantity" then form.(quantity := ClampQuantity(value))
    else if name == "productId" then form.(productId := value)
    else form
  }

  /** The form starts with quantity 1 and every change keeps it non-negative, so the
      page's `quantity < 0` test never fires. */
  lemma QuantityStaysNonNegative(form: PurchaseForm, name: string, value: string)
    requires form.quantity >= 0
    ensures HandlePurchaseChange(form, name, value).quantity >= 0
  {
  }

  // ---------- payment fields ----------

  /** `replace(/(\d{4})/g, '$1 ')`: every run of four digits found from left to right gets a
      space after it. */
  function GroupDigits(s: string): string
    decreases |s|
  {
    if |s| >= 4 && Text.AllDigits(s[..4]) then s[..4] + " " + GroupDigits(s[4..])
    else if s == [] then []
    else [s[0]] + GroupDigits(s[1..])
  }

  /** The card-number formatting: blanks removed, groups of four digits, trimmed. */
  function CardFormat(value: string): string
  {
    Text.Trim(GroupDigits(Text.RemoveSpaces(value)))
  }

  /** Grouping inserts only blanks. */
  lemma {:induction false} GroupDigitsOnlyAddsSpaces(s: string)
    requires Text.NoSpaces(s)
    ensures Text.RemoveSpaces(GroupDigits(s)) == s
    decreases |s|
  {
    if |s| >= 4 && Text.AllDigits(s[..4]) {
      GroupDigitsOnlyAddsSpaces(s[4..]);
      Text.RemoveSpacesAppend(s[..4] + " ", GroupDigits(s[4..]));
      Text.RemoveSpacesAppend(s[..4], " ");
      Text.RemoveSpacesNoop(s[..4]);
      assert s[..4] + s[4..] == s;
    } else if s != [] {
      GroupDigitsOnlyAddsSpaces(s[1..]);
      Text.RemoveSpacesAppend([s[0]], GroupDigits(s[1..]));
      assert [s[0]] + s[1..] == s;
    }
  }

  /** The formatted card number holds the same characters apart from blanks. */
  lemma CardFormatKeepsCharacters(value: string)
    ensures Text.RemoveSpaces(CardFormat(value)) == Text.RemoveSpaces(value)
  {
    var x := Text.RemoveSpaces(value);
    Text.RemoveSpacesTrim(GroupDigits(x));
    GroupDigitsOnlyAddsSpaces(x);
  }

  /** Formatting an already formatted card number changes nothing. */
  lemma CardFormatIdempotent(value: string)
    ensures CardFormat(CardFormat(value)) == CardFormat(value)
  {
    CardFormatKeepsCharacters(value);
  }

  /** The expiry field: two characters without '/' get a '/' appended. */
  function ExpiryInput(value: string): (r: string)
    ensures |value| == 2 && '/' !in value ==> r == value + "/"
    ensures !(|value| == 2 && '/' !in value) ==> r == value
  {
    if |value| == 2 && '/' !in value then value + "/" else value
  }

  /** Feeding the stored expiry back in keeps it. */
  lemma ExpiryInputIdempotent(value: string)
    ensures ExpiryInput(ExpiryInput(value)) == ExpiryInput(value)
  {
  }

  datatype PaymentForm = PaymentForm(cardNumber: string, expiryDate: string, cvv: string, cardName: string)

  /** `handlePaymentChange`. */
  function HandlePaymentChange(payment: PaymentForm, name: string, value: string): (r: PaymentForm)
    ensures name == "cardNumber" ==> r == payment.(cardNumber := CardFormat(value))
    ensures name == "expiryDate" ==> r == payment.(expiryDate := ExpiryInput(value))
    ensures name == "cvv" ==> r == payment.(cvv := value)
    ensures name == "cardName" ==> r == payment.(cardName := value)
    ensures name !in {"cardNumber", "expiryDate", "cvv", "cardName"} ==> r == payment
  {
    match name
    case "cardNumber" => payment.(cardNumber := CardFormat(value))
    case "expiryDate" => payment.(expiryDate := ExpiryInput(value))
    case "cvv" => payment.(cvv := value)
    case "cardName" => payment.(cardName := value)
    case _ => payment
  }

  /** The stored card number is always in formatted form. */
  lemma StoredCardNumberFormatted(payment: PaymentForm, value: string)
    ensures var c := HandlePaymentChange(payment, "cardNumber", value).cardNumber; CardFormat(c) == c
  {
    CardFormatIdempotent(value);
  }

  // ---------- submitting ----------

  /** Every payment field is filled in. */
  predicate PaymentComplete(payment: PaymentForm)
  {
    payment.cardNumber != "" && payment.expiryDate != "" && payment.cvv != "" && payment.cardName != ""
  }

  const SelectProduct := "Please select a product and valid quantity"
  const CompletePayment := "Please complete payment information"
  const UserMissing := "User information missing"

  /** `handleSubmitPurchase` up to the request: the body sent to `/api/place-order`, or the
      message shown instead. The signed-in user's e-mail and name come from local storage. */
  function SubmitPurchase(form: PurchaseForm, payment: PaymentForm, email: Option<string>, name: Option<string>)
    : (r: Result<Inventory.SaleRequest, string>)
    ensures (form.productId == "" || form.quantity < 0) ==> r == Err(SelectProduct)
    ensures form.productId != "" && form.quantity >= 0 && !PaymentComplete(payment) ==> r == Err(CompletePayment)
    ensures form.productId != "" && form.quantity >= 0 && PaymentComplete(payment) && !Text.Given(email) ==>
      r == Err(UserMissing)
    ensures r.Ok? <==> form.productId != "" && form.quantity >= 0 && PaymentComplete(payment) && Text.Given(email)
    ensures r.Err? ==> r.error in {SelectProduct, CompletePayment, UserMissing}
    ensures r.Ok? ==> r.value == Inventory.SaleRequest(Inventory.PlaceOrder, form.productId, form.quantity, name, email)
  {
    if form.productId == "" || form.quantity < 0 then Err(SelectProduct)
    else if !PaymentComplete(payment) then Err(CompletePayment)
    else if !Text.Given(email) then Err(UserMissing)
    else Ok(Inventory.SaleRequest(Inventory.PlaceOrder, form.productId, form.quantity, name, email))
  }

  /** The page sends a quantity of 0 (its guard only refuses negative ones), which the server
      refuses as invalid order data. */
  lemma ZeroQuantityReachesServer(productId: string, payment: PaymentForm, email: string, name: Option<string>)
    requires productId != "" && email != ""
    requires PaymentComplete(payment)
    ensures var r := SubmitPurchase(PurchaseForm(productId, 0), payment, Some(email), name);
      r.Ok? && !Inventory.Admissible(r.value)
  {
  }

  /** A request the page sends passes the server's validation exactly when its quantity is at
      least 1 and the user has a name. */
  lemma SentRequestAdmissible(form: PurchaseForm, payment: PaymentForm, email: Option<string>, name: Option<string>)
    requires SubmitPurchase(form, payment, email, name).Ok?
    ensures Inventory.Admissible(SubmitPurchase(form, payment, email, name).value) <==>
      form.quantity >= 1 && Text.Given(name)
  {
  }

  // ---------- status labels ----------

  /** The five statuses the page knows, by lower-case name. */
  predicate KnownStatus(lower: string)
  {
    lower in {"pending", "processing", "completed", "cancelled", "refunded"}
  }

  /** A known status name with its first letter in upper case. */
  function Capitalised(lower: string): (r: string)
    requires |lower| >= 1 && 'a' <= lower[0] <= 'z' && Text.Lower(lower) == lower
    ensures |r| == |lower| && r[1..] == lower[1..] && 'A' <= r[0] <= 'Z'
    ensures Text.Lower(r) == lower
  {
    var r := [(lower[0] as int - 32) as char] + lower[1..];
    assert forall k :: 1 <= k < |r| ==> Text.LowerChar(r[k]) == Text.LowerChar(lower[k]) == lower[k];
    r
  }

  /** `getStatusDisplay`: a known status, in any case, gets its label; anything else is shown
      as it is, or as 'Unknown' when missing or empty. */
  function StatusDisplay(status: Option<string>): (r: string)
    ensures status.Some? && KnownStatus(Text.Lower(status.value)) ==> r == Capitalised(Text.Lower(status.value))
    ensures !(status.Some? && KnownStatus(Text.Lower(status.value))) ==>
      r == (if status.None? || status.value == "" then "Unknown" else status.value)
  {
    if status.Some? && KnownStatus(Text.Lower(status.value)) then Capitalised(Text.Lower(status.value))
    else if status.None? || status.value == "" then "Unknown"
    else status.value
  }

  /** Labels ignore case. */
  lemma StatusDisplayIgnoresCase(a: string, b: string)
    requires Text.Lower(a) == Text.Lower(b) && KnownStatus(Text.Lower(a))
    ensures StatusDisplay(Some(a)) == StatusDisplay(Some(b))
  {
  }

  /** The label shown is never empty, and lower-cases back to the status for a known one. */
  lemma StatusDisplayRoundTrip(status: Option<string>)
    ensures StatusDisplay(status) != ""
    ensures status.Some? && KnownStatus(Text.Lower(status.value)) ==>
      Text.Lower(StatusDisplay(status)) == Text.Lower(status.value)
  {
  }
}
