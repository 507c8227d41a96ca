/** Transaction records, their field validation, and the per-holding price
    update (app/models.py). */
module Models {
  import opened Common

  /** The eight transaction kinds. */
  datatype ActionType = Buy | Sell | Div | Gift | Fee | Gas | Cash | Fix

  /** One dated transaction. Amounts, quantities and prices are optional, as in
      the input rows; `source` and `comment` are free text. */
  datatype Transaction = Transaction(
    date: int,
    asset: string,
    action: ActionType,
    amount: Option<real>,
    quantity: Option<real>,
    avePrice: Option<real>,
    source: Option<string>,
    comment: Option<string>)

  // ---------------------------------------------------------------------------
  // Symbol normalisation: `v.upper().strip()`

  /** The characters Python's `str.isspace` accepts. */
  predicate IsSpace(c: char) {
    c == ' ' || ('\t' <= c <= '\r') || ('\U{1C}' <= c <= '\U{1F}')
    || c == '\U{85}' || c == '\U{A0}' || c == '\U{1680}'
    || ('\U{2000}' <= c <= '\U{200A}') || c == '\U{2028}' || c == '\U{2029}'
    || c == '\U{202F}' || c == '\U{205F}' || c == '\U{3000}'
  }

  predicate IsLowerAscii(c: char) {
    'a' <= c <= 'z'
  }

  /** Upper-cases one ASCII letter; every other character is kept. */
  function UpperChar(c: char): char {
    if IsLowerAscii(c) then (c as int - 32) as char else c
  }

  function Upper(s: string): (r: string)
    ensures |r| == |s|
    ensures forall i :: 0 <= i < |s| ==> r[i] == UpperChar(s[i])
  {
    seq(|s|, i requires 0 <= i < |s| => UpperChar(s[i]))
  }

  /** The number of leading whitespace characters. */
  function LeadingSpaces(s: string): (n: nat)
    ensures n <= |s|
    ensures forall j :: 0 <= j < n ==> IsSpace(s[j])
    ensures n < |s| ==> !IsSpace(s[n])
  {
    if |s| > 0 && IsSpace(s[0]) then 1 + LeadingSpaces(s[1..]) else 0
  }

  /** The number of trailing whitespace characters. */
  function TrailingSpaces(s: string): (n: nat)
    ensures n <= |s|
    ensures forall j :: |s| - n <= j < |s| ==> IsSpace(s[j])
    ensures n < |s| ==> !IsSpace(s[|s| - 1 - n])
  {
    if |s| > 0 && IsSpace(s[|s| - 1]) then 1 + TrailingSpaces(s[..|s| - 1]) else 0
  }

  /** Drops leading whitespace. */
  function LStrip(s: string): (r: string)
    ensures |r| <= |s| && r == s[|s| - |r|..]
    ensures forall i :: 0 <= i < |s| - |r| ==> IsSpace(s[i])
    ensures |r| > 0 ==> !IsSpace(r[0])
  {
    s[LeadingSpaces(s)..]
  }

  /** Drops trailing whitespace. */
  function RStrip(s: string): (r: string)
    ensures |r| <= |s| && r == s[..|r|]
    ensures forall i :: |r| <= i < |s| ==> IsSpace(s[i])
    ensures |r| > 0 ==> !IsSpace(r[|r| - 1])
  {
    s[..|s| - TrailingSpaces(s)]
  }

  /** `Transaction.normalize_asset`: upper-case, then strip surrounding
      whitespace. */
  function NormalizeAsset(s: string): (r: string)
    ensures |r| <= |s|
  {
    LStrip(RStrip(Upper(s)))
  }

  /** Upper-casing never turns a character into whitespace or back. */
  lemma UpperCharKeepsSpace(c: char)
    ensures IsSpace(UpperChar(c)) <==> IsSpace(c)
  {
  }

  /** Upper-casing leaves no lower-case ASCII letter. */
  lemma UpperCharIsUpper(c: char)
    ensures !IsLowerAscii(UpperChar(c))
  {
  }

  /** Stripping both ends leaves a slice of the input. */
  lemma StripIsSlice(u: string)
    ensures |RStrip(u)| - |LStrip(RStrip(u))| >= 0
    ensures LStrip(RStrip(u)) == u[|RStrip(u)| - |LStrip(RStrip(u))|..|RStrip(u)|]
  {
    var right := RStrip(u);
    var r := LStrip(right);
    assert right == u[..|right|];
    assert r == right[|right| - |r|..];
  }

  /** The normalised symbol has no lower-case ASCII letter. */
  lemma NormalizeAssetIsUpper(s: string)
    ensures forall k :: 0 <= k < |NormalizeAsset(s)| ==> !IsLowerAscii(NormalizeAsset(s)[k])
  {
    var u := Upper(s);
    var r := NormalizeAsset(s);
    StripIsSlice(u);
    var i := |RStrip(u)| - |r|;
    forall k | 0 <= k < |r| ensures !IsLowerAscii(r[k]) {
      assert r[k] == UpperChar(s[i + k]);
      UpperCharIsUpper(s[i + k]);
    }
  }

  /** The normalised symbol has no whitespace at either end. */
  lemma NormalizeAssetIsStripped(s: string)
    ensures var r := NormalizeAsset(s); |r| > 0 ==> !IsSpace(r[0]) && !IsSpace(r[|r| - 1])
  {
    var right := RStrip(Upper(s));
    var r := LStrip(right);
    if |r| > 0 {
      assert r[|r| - 1] == right[|right| - 1];
    }
  }

  /** Nothing but surrounding whitespace is removed: the result is the slice
      of the upper-cased input that starts right after its leading
      whitespace, and everything after the slice is whitespace. */
  lemma {:induction false} NormalizeAssetIsTrimmedSlice(s: string)
    ensures var r := NormalizeAsset(s);
      LeadingSpaces(s) + |r| <= |s|
      && r == Upper(s)[LeadingSpaces(s)..LeadingSpaces(s) + |r|]
      && forall j :: LeadingSpaces(s) + |r| <= j < |s| ==> IsSpace(s[j])
  {
    var u := Upper(s);
    StripIsSlice(u);
    LeadingSpacesOfNormalized(s, u);
    TrailingIsSpace(s, u, |RStrip(u)|);
    if |LStrip(RStrip(u))| == 0 {
      assert u[|s|..|s|] == [];
    }
  }

  /** The leading whitespace of the input is exactly what normalising drops
      in front: everything, when nothing is left. */
  lemma {:induction false} LeadingSpacesOfNormalized(s: string, u: string)
    requires u == Upper(s)
    ensures |LStrip(RStrip(u))| > 0 ==> LeadingSpaces(s) == |RStrip(u)| - |LStrip(RStrip(u))|
    ensures |LStrip(RStrip(u))| == 0 ==> LeadingSpaces(s) == |s|
  {
    if |LStrip(RStrip(u))| > 0 {
      LeadingSpacesBeforeKept(s, u);
    } else {
      LeadingIsSpace(s, u, 0);
      LeadingSpacesAll(s);
    }
  }

  lemma {:induction false} LeadingSpacesBeforeKept(s: string, u: string)
    requires u == Upper(s) && |LStrip(RStrip(u))| > 0
    ensures LeadingSpaces(s) == |RStrip(u)| - |LStrip(RStrip(u))|
  {
    var right := RStrip(u);
    var r := LStrip(right);
    var i := |right| - |r|;
    assert r == right[i..];
    assert right == u[..|right|];
    assert !IsSpace(UpperChar(s[i])) by {
      assert u[i] == r[0];
    }
    UpperCharKeepsSpace(s[i]);
    LeadingIsSpace(s, u, i);
    LeadingSpacesAt(s, i);
  }

  lemma {:induction false} LeadingIsSpace(s: string, u: string, i: nat)
    requires u == Upper(s) && i <= |RStrip(u)|
    requires i == |RStrip(u)| - |LStrip(RStrip(u))| || |LStrip(RStrip(u))| == 0
    ensures forall j :: 0 <= j < i ==> IsSpace(s[j])
    ensures |LStrip(RStrip(u))| == 0 ==> forall j :: 0 <= j < |s| ==> IsSpace(s[j])
  {
    var right := RStrip(u);
    assert right == u[..|right|];
    forall j | 0 <= j < |s| && (j < i || |LStrip(right)| == 0) ensures IsSpace(s[j]) {
      UpperCharKeepsSpace(s[j]);
      if j < |right| {
        assert IsSpace(right[j]);
      }
    }
  }

  lemma {:induction false} TrailingIsSpace(s: string, u: string, e: nat)
    requires u == Upper(s) && e == |RStrip(u)|
    ensures forall j :: e <= j < |s| ==> IsSpace(s[j])
  {
    forall j | e <= j < |s| ensures IsSpace(s[j]) {
      UpperCharKeepsSpace(s[j]);
    }
  }

  lemma {:induction false} LeadingSpacesAt(s: string, i: nat)
    requires i < |s| && !IsSpace(s[i]) && forall j :: 0 <= j < i ==> IsSpace(s[j])
    ensures LeadingSpaces(s) == i
    decreases i
  {
    if i > 0 {
      LeadingSpacesAt(s[1..], i - 1);
    }
  }

  lemma {:induction false} LeadingSpacesAll(s: string)
    requires forall j :: 0 <= j < |s| ==> IsSpace(s[j])
    ensures LeadingSpaces(s) == |s|
    decreases |s|
  {
    if |s| > 0 {
      LeadingSpacesAll(s[1..]);
    }
  }

  lemma NormalizeAssetIdempotent(s: string)
    ensures NormalizeAsset(NormalizeAsset(s)) == NormalizeAsset(s)
  {
    var r := NormalizeAsset(s);
    NormalizeAssetIsUpper(s);
    NormalizeAssetIsStripped(s);
    UpperFixesUpper(r);
    StripFixesStripped(r);
  }

  lemma UpperFixesUpper(r: string)
    requires forall k :: 0 <= k < |r| ==> !IsLowerAscii(r[k])
    ensures Upper(r) == r
  {
    assert forall k :: 0 <= k < |r| ==> Upper(r)[k] == r[k];
  }

  lemma StripFixesStripped(r: string)
    requires |r| > 0 ==> !IsSpace(r[0]) && !IsSpace(r[|r| - 1])
    ensures LStrip(RStrip(r)) == r
  {
    assert TrailingSpaces(r) == 0;
    assert r[..|r|] == r;
    assert LeadingSpaces(r) == 0;
  }

  // ---------------------------------------------------------------------------
  // Field validation: `Transaction.validate_fields`

  datatype ValidationError =
    | TooFewPriceFields(action: ActionType)   // BUY/SELL with fewer than two of amount, quantity, ave_price
    | MissingAmount(action: ActionType)       // DIV, FEE, CASH
    | MissingQuantity(action: ActionType)     // GIFT, GAS, FIX

  /** Python truthiness of an optional Decimal: present and non-zero. */
  predicate Truthy(v: Option<real>) {
    v.Some? && v.value != 0.0
  }

  function CountPresent(t: Transaction): nat {
    (if t.amount.Some? then 1 else 0)
    + (if t.quantity.Some? then 1 else 0)
    + (if t.avePrice.Some? then 1 else 0)
  }

  /** With exactly two of the three price fields present, fills in the third
      when both given ones are non-zero. */
  function DeriveMissing(t: Transaction): Transaction {
    if t.amount.None? && Truthy(t.quantity) && Truthy(t.avePrice) then
      t.(amount := Some(t.quantity.value * t.avePrice.value))
    else if t.quantity.None? && Truthy(t.amount) && Truthy(t.avePrice) then
      t.(quantity := Some(t.amount.value / t.avePrice.value))
    else if t.avePrice.None? && Truthy(t.amount) && Truthy(t.quantity) then
      t.(avePrice := Some(t.amount.value / t.quantity.value))
    else t
  }

  predicate NeedsAmount(a: ActionType) {
    a == Div || a == Fee || a == Cash
  }

  predicate NeedsQuantity(a: ActionType) {
    a == Gift || a == Gas || a == Fix
  }

  /** `Transaction.validate_fields`. */
  function ValidateFields(t: Transaction): (r: Result<Transaction, ValidationError>)
    // rejection happens exactly for the three missing-field rules
    ensures r.Err? <==>
      ((t.action == Buy || t.action == Sell) && CountPresent(t) < 2)
      || (NeedsAmount(t.action) && t.amount.None?)
      || (NeedsQuantity(t.action) && t.quantity.None?)
    // identity fields never change
    ensures r.Ok? ==> (r.value.date == t.date && r.value.asset == t.asset
                       && r.value.action == t.action && r.value.source == t.source
                       && r.value.comment == t.comment)
    // fields that were present are kept
    ensures r.Ok? ==> ((t.amount.Some? ==> r.value.amount == t.amount)
                       && (t.quantity.Some? ==> r.value.quantity == t.quantity)
                       && (t.avePrice.Some? ==> r.value.avePrice == t.avePrice))
    // only a BUY/SELL with exactly two non-zero fields gains the third
    ensures r.Ok? && r.value != t ==>
      ((t.action == Buy || t.action == Sell) && CountPresent(t) == 2 && CountPresent(r.value) == 3)
    ensures r.Ok? && (t.action == Buy || t.action == Sell) && CountPresent(t) == 2 ==>
      (CountPresent(r.value) == 3 <==>
        (t.amount.None? && Truthy(t.quantity) && Truthy(t.avePrice))
        || (t.quantity.None? && Truthy(t.amount) && Truthy(t.avePrice))
        || (t.avePrice.None? && Truthy(t.amount) && Truthy(t.quantity)))
  {
    match t.action
    case Buy | Sell =>
      var n := CountPresent(t);
      if n < 2 then Err(TooFewPriceFields(t.action))
      else if n == 2 then Ok(DeriveMissing(t))
      else Ok(t)
    case Div | Fee | Cash =>
      if t.amount.None? then Err(MissingAmount(t.action)) else Ok(t)
    case Gift | Gas | Fix =>
      if t.quantity.None? then Err(MissingQuantity(t.action)) else Ok(t)
  }

  /** A derived field agrees with the two given ones: after validation, a
      BUY/SELL that started with two fields and now has all three satisfies
      amount = quantity × ave_price. */
  lemma DerivedFieldConsistent(t: Transaction)
    requires (t.action == Buy || t.action == Sell) && CountPresent(t) == 2
    requires ValidateFields(t).Ok? && CountPresent(ValidateFields(t).value) == 3
    ensures var v := ValidateFields(t).value;
      v.amount.value == v.quantity.value * v.avePrice.value
  {
    var v := ValidateFields(t).value;
    if t.quantity.None? {
      assert v.quantity.value * t.avePrice.value == t.amount.value / t.avePrice.value * t.avePrice.value;
    } else if t.avePrice.None? {
      assert t.quantity.value * v.avePrice.value == t.quantity.value * (t.amount.value / t.quantity.value);
    }
  }

  /** The fields `Portfolio._process_transaction` reads for each action.
      A transaction lacking one of them makes the ledger raise `TypeError`. */
  predicate Processable(t: Transaction) {
    match t.action
    case Buy | Sell => t.quantity.Some? && t.avePrice.Some?
    case Div | Fee | Cash => t.amount.Some?
    case Gift | Gas | Fix => t.quantity.Some?
  }

  /** Validation guarantees the fields every non-trade action reads. */
  lemma ValidatedNonTradeIsProcessable(t: Transaction)
    requires t.action != Buy && t.action != Sell
    requires ValidateFields(t).Ok?
    ensures Processable(ValidateFields(t).value)
  {
  }

  /** Truthiness, not presence, decides derivation: a BUY given amount 0 and a
      price passes validation with its quantity still absent, so the ledger
      cannot process it. */
  lemma ZeroAmountBuyPassesUnprocessable()
    ensures var t := Transaction(0, "X", Buy, Some(0.0), None, Some(5.0), None, None);
      ValidateFields(t).Ok? && !Processable(ValidateFields(t).value)
  {
  }

  // ---------------------------------------------------------------------------
  // Holdings and summaries

  /** One current position; optional fields are filled in by price updates. */
  datatype Holding = Holding(
    symbol: string,
    quantity: real,
    costBasis: real,
    avgCost: real,
    currentPrice: Option<real>,
    marketValue: Option<real>,
    unrealizedPnl: Option<real>,
    pnlPercent: Option<real>,
    prevClose: Option<real>,
    dailyChangePercent: Option<real>,
    dailyChangeAmount: Option<real>,
    holdingDays: Option<int>,
    annualizedReturn: Option<real>)

  /** A holding with only its lot aggregates filled in. */
  function BareHolding(symbol: string, quantity: real, costBasis: real, avgCost: real): Holding {
    Holding(symbol, quantity, costBasis, avgCost, None, None, None, None, None, None, None, None, None)
  }

  /** `Holding.update_with_price`. */
  function UpdateWithPrice(h: Holding, price: real, prevClose: Option<real>): (r: Holding)
    ensures r.symbol == h.symbol && r.quantity == h.quantity
      && r.costBasis == h.costBasis && r.avgCost == h.avgCost
      && r.holdingDays == h.holdingDays && r.annualizedReturn == h.annualizedReturn
    ensures r.currentPrice == Some(price)
    ensures r.marketValue == Some(h.quantity * price)
    ensures r.unrealizedPnl == Some(h.quantity * price - h.costBasis)
    // percent is relative to cost; a zero-cost (gifted) position reads 100% when worth anything
    ensures h.costBasis > 0.0 ==>
      (r.pnlPercent.Some? && r.pnlPercent.value * h.costBasis == r.unrealizedPnl.value * 100.0)
    ensures h.costBasis <= 0.0 ==>
      r.pnlPercent == Some(if h.quantity * price > 0.0 then 100.0 else 0.0)
    // daily change only against a positive previous close; otherwise untouched
    ensures (prevClose.Some? && prevClose.value > 0.0) ==>
      (r.prevClose == prevClose
       && r.dailyChangeAmount.Some?
       && r.dailyChangeAmount.value == (price - prevClose.value) * h.quantity
       && r.dailyChangePercent.Some?
       && r.dailyChangePercent.value * prevClose.value == (price - prevClose.value) * 100.0)
    ensures !(prevClose.Some? && prevClose.value > 0.0) ==>
      (r.prevClose == h.prevClose && r.dailyChangeAmount == h.dailyChangeAmount
       && r.dailyChangePercent == h.dailyChangePercent)
  {
    var mv := h.quantity * price;
    var unrealized := mv - h.costBasis;
    var pct := if h.costBasis > 0.0 then (unrealized / h.costBasis) * 100.0
               else if mv > 0.0 then 100.0 else 0.0;
    var priced := h.(currentPrice := Some(price), marketValue := Some(mv),
                     unrealizedPnl := Some(unrealized), pnlPercent := Some(pct));
    if prevClose.Some? && prevClose.value > 0.0 then
      var pc := prevClose.value;
      priced.(prevClose := Some(pc),
              dailyChangePercent := Some(((price - pc) / pc) * 100.0),
              dailyChangeAmount := Some((price - pc) * h.quantity))
    else priced
  }

  datatype DividendSummary = DividendSummary(symbol: string, totalAmount: real, paymentCount: nat)

  datatype PortfolioSummary = PortfolioSummary(
    totalCostBasis: real,
    totalMarketValue: real,
    investmentMarketValue: real,
    totalUnrealizedPnl: real,
    totalRealizedPnl: real,
    totalPnl: real,
    totalPnlPercent: real,
    totalDividends: real,
    totalFees: real,
    allTimeCostBasis: real,
    holdings: seq<Holding>,
    dividendSummaries: seq<DividendSummary>)
}
