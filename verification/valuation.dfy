/** What app/portfolio.py reads off the ledger: the cash balance on a date,
    current holdings, days held, dividend and sale summaries, and the
    portfolio summary. Current and previous-close prices are parameters
    (empty maps when prices are not fetched); today's date is a parameter. */
module Valuation {
  import opened Common
  import opened Strings
  import opened Models
  import opened Ledger
  import Sorting

  // ---------------------------------------------------------------------------
  // Cash

  /** `get_cash_balance`: the snapshot with the latest date on or before
      `asOf`, or 0 when there is none. */
  function CashBalance(cash: map<int, real>, asOf: int): (r: real)
    ensures (forall d :: d in cash ==> d > asOf) ==> r == 0.0
  {
    match LatestKey(cash, asOf)
    case None => 0.0
    case Some(k) => cash[k]
  }

  /** The balance is the snapshot dated latest among those on or before the
      date asked for. */
  lemma CashBalanceIsLatestSnapshot(cash: map<int, real>, asOf: int, k: int)
    requires k in cash && k <= asOf
    requires forall d :: d in cash && d <= asOf ==> d <= k
    ensures CashBalance(cash, asOf) == cash[k]
  {
  }

  /** A CASH transaction sets the balance from its date on, until the next
      snapshot; a second one on the same date replaces the first. */
  lemma CashSnapshotGoverns(env: Env, l: Ledger, t: Transaction, asOf: int)
    requires t.action == Cash && Processable(t)
    requires t.date <= asOf
    requires forall d :: d in l.cash && t.date < d <= asOf ==> false
    ensures CashBalance(Process(env, l, t).cash, asOf) == t.amount.value
  {
    var c := Process(env, l, t).cash;
    assert c == l.cash[t.date := t.amount.value];
    CashBalanceIsLatestSnapshot(c, asOf, t.date);
  }

  // ---------------------------------------------------------------------------
  // Holding days

  /** Running state of `get_holding_days`: the unadjusted quantity, the start
      of the open period if any, the days of closed periods, and how many
      periods were recorded. */
  datatype DaysState = DaysState(qty: real, periodStart: Option<int>, total: int, periods: nat)

  /** The signed quantity change `get_holding_days` counts: BUY and GIFT add,
      SELL and GAS subtract, a missing quantity counts as 0, and every other
      action changes nothing. */
  function QtyDelta(t: Transaction): real {
    var q := t.quantity.GetOr(0.0);
    match t.action
    case Buy | Gift => q
    case Sell | Gas => -q
    case _ => 0.0
  }

  function DaysStep(st: DaysState, t: Transaction): DaysState {
    var prev := st.qty;
    var cur := prev + QtyDelta(t);
    var start := if prev <= 0.0 && cur > 0.0 then Some(t.date) else st.periodStart;
    if prev > 0.0 && cur <= 0.0 && start.Some? then
      DaysState(cur, None, st.total + (t.date - start.value), st.periods + 1)
    else
      DaysState(cur, start, st.total, st.periods)
  }

  /** The state after a sequence of transactions, processed first to last. */
  function DaysFold(txns: seq<Transaction>): DaysState
    decreases |txns|
  {
    if |txns| == 0 then DaysState(0.0, None, 0, 0)
    else DaysStep(DaysFold(txns[..|txns| - 1]), txns[|txns| - 1])
  }

  /** The net unadjusted quantity after a sequence of transactions. */
  function RunningQty(txns: seq<Transaction>): real
    decreases |txns|
  {
    if |txns| == 0 then 0.0 else RunningQty(txns[..|txns| - 1]) + QtyDelta(txns[|txns| - 1])
  }

  /** Whether the position was open after some transaction of the sequence. */
  predicate EverOpen(txns: seq<Transaction>)
    decreases |txns|
  {
    |txns| > 0 && (RunningQty(txns) > 0.0 || EverOpen(txns[..|txns| - 1]))
  }

  /** The fold tracks the running quantity, an open period exactly while the
      position is open, and a recorded period exactly when the position was
      opened and has closed since. */
  lemma {:induction false} DaysFoldInvariant(txns: seq<Transaction>)
    ensures var st := DaysFold(txns);
      && st.qty == RunningQty(txns)
      && (st.periodStart.Some? <==> st.qty > 0.0)
      && ((st.periods > 0 || st.qty > 0.0) <==> EverOpen(txns))
    decreases |txns|
  {
    if |txns| > 0 {
      DaysFoldInvariant(txns[..|txns| - 1]);
    }
  }

  /** The transactions of one symbol, oldest first (ties keep their order). */
  function SymbolTransactions(txns: seq<Transaction>, symbol: string): seq<Transaction> {
    Sorting.StableSortBy(Filter(txns, symbol), DateKey)
  }

  function Filter(txns: seq<Transaction>, symbol: string): seq<Transaction> {
    if |txns| == 0 then []
    else (if txns[0].asset == symbol then [txns[0]] else []) + Filter(txns[1..], symbol)
  }

  /** `get_holding_days`: the days of every period the position was open,
      the open one running to today, at least 1 when there was any period,
      and 0 otherwise. */
  function HoldingDays(txns: seq<Transaction>, symbol: string, today: int): (r: int)
    ensures r >= 0
  {
    var st := DaysFold(SymbolTransactions(txns, symbol));
    var total := if st.qty > 0.0 && st.periodStart.Some? then st.total + (today - st.periodStart.value) else st.total;
    var periods := if st.qty > 0.0 && st.periodStart.Some? then st.periods + 1 else st.periods;
    if periods > 0 then (if total > 1 then total else 1) else 0
  }

  /** A symbol has holding days exactly when its position was open at some
      point of its transaction history. */
  lemma HoldingDaysPositiveIffEverOpen(txns: seq<Transaction>, symbol: string, today: int)
    ensures HoldingDays(txns, symbol, today) > 0 <==> EverOpen(SymbolTransactions(txns, symbol))
  {
    DaysFoldInvariant(SymbolTransactions(txns, symbol));
  }

  // ---------------------------------------------------------------------------
  // Holdings

  /** The annualized return of a holding: P&L percent over the years held,
      counting at least one year. */
  function Annualized(pnlPercent: real, days: int): real {
    var years := days as real / 365.0;
    pnlPercent / (if years > 1.0 then years else 1.0)
  }

  /** One symbol's holding, if it has a positive quantity: lot totals, the
      price update when a price is known, then days held and the annualized
      return. */
  function HoldingFor(lots: seq<Lot>, txns: seq<Transaction>, symbol: string,
                      prices: map<string, real>, prevCloses: map<string, real>, today: int): (r: Option<Holding>)
    ensures r.Some? <==> Qty(lots) > 0.0
    ensures r.Some? ==>
      && r.value.symbol == symbol
      && r.value.quantity == Qty(lots)
      && r.value.costBasis == Cost(lots)
      && r.value.avgCost * r.value.quantity == r.value.costBasis
      && (r.value.currentPrice.Some? <==> symbol in prices)
      && r.value.holdingDays == Some(HoldingDays(txns, symbol, today))
    // valued at the known price; unvalued without one
    ensures r.Some? && symbol in prices ==>
      && r.value.marketValue.Some? && r.value.marketValue.value == Qty(lots) * prices[symbol]
      && r.value.unrealizedPnl.Some? && r.value.unrealizedPnl.value == Qty(lots) * prices[symbol] - Cost(lots)
    ensures r.Some? && symbol !in prices ==> r.value.marketValue.None? && r.value.unrealizedPnl.None?
  {
    if |lots| == 0 then None
    else
      var q := Qty(lots);
      if q <= 0.0 then None
      else
        var avg := Cost(lots) / q;
        AverageCostScales(Cost(lots), q);
        var priced := PriceIfKnown(BareHolding(symbol, q, Cost(lots), avg), prices, prevCloses);
        var days := HoldingDays(txns, symbol, today);
        var annualized := if days > 0 && priced.pnlPercent.Some? then Some(Annualized(priced.pnlPercent.value, days)) else priced.annualizedReturn;
        Some(priced.(holdingDays := Some(days), annualizedReturn := annualized))
  }

  /** The average cost times the quantity gives back the total cost. */
  lemma AverageCostScales(cost: real, q: real)
    requires q > 0.0
    ensures (cost / q) * q == cost
  {
  }

  /** `update_with_price` when the symbol has a price, the holding as it is
      otherwise; the position's totals are kept either way. */
  function PriceIfKnown(h: Holding, prices: map<string, real>, prevCloses: map<string, real>): (r: Holding)
    ensures r.symbol == h.symbol && r.quantity == h.quantity && r.costBasis == h.costBasis && r.avgCost == h.avgCost
    ensures r.currentPrice.Some? <==> h.symbol in prices || h.currentPrice.Some?
    ensures r.annualizedReturn == h.annualizedReturn
    ensures h.symbol in prices ==>
      && r.marketValue.Some? && r.marketValue.value == h.quantity * prices[h.symbol]
      && r.unrealizedPnl.Some? && r.unrealizedPnl.value == h.quantity * prices[h.symbol] - h.costBasis
    ensures h.symbol !in prices ==> r == h
  {
    if h.symbol in prices then UpdateWithPrice(h, prices[h.symbol], Get(prevCloses, h.symbol)) else h
  }

  /** Lots that cost nothing, as gifted lots do, cost nothing together. */
  lemma {:induction false} FreeLotsCostNothing(lots: seq<Lot>)
    requires forall i :: 0 <= i < |lots| ==> lots[i].costPerShare == 0.0
    ensures Cost(lots) == 0.0
    decreases |lots|
  {
    if |lots| > 0 {
      assert forall i :: 0 <= i < |lots| - 1 ==> lots[1..][i] == lots[i + 1];
      FreeLotsCostNothing(lots[1..]);
    }
  }

  /** A position made only of gifted lots reads as a 100% gain once it has
      a positive price, and its whole market value is gain. */
  lemma GiftedPositionReadsHundredPercent(lots: seq<Lot>, txns: seq<Transaction>, symbol: string,
                                          prices: map<string, real>, prevCloses: map<string, real>, today: int)
    requires forall i :: 0 <= i < |lots| ==> lots[i].costPerShare == 0.0
    requires Qty(lots) > 0.0 && symbol in prices && prices[symbol] > 0.0
    ensures var h := HoldingFor(lots, txns, symbol, prices, prevCloses, today);
      && h.Some? && h.value.costBasis == 0.0
      && h.value.pnlPercent.Some? && h.value.pnlPercent.value == 100.0
      && h.value.unrealizedPnl.Some? && h.value.marketValue.Some?
      && h.value.unrealizedPnl.value == h.value.marketValue.value
  {
    FreeLotsCostNothing(lots);
    var q := Qty(lots);
    var price := prices[symbol];
    assert q * price > 0.0 by { MulPositive(q, price); }
    var bare := BareHolding(symbol, q, Cost(lots), Cost(lots) / q);
    assert PriceIfKnown(bare, prices, prevCloses) == UpdateWithPrice(bare, price, Get(prevCloses, symbol));
  }

  lemma MulPositive(a: real, b: real)
    requires a > 0.0 && b > 0.0
    ensures a * b > 0.0
  {
  }

  /** The lots held for `s`, none when the symbol has no entry. */
  function LotsAt(lots: map<string, seq<Lot>>, s: string): seq<Lot> {
    if s in lots then lots[s] else []
  }

  /** The holdings of the listed symbols, in list order. */
  function HoldingsOver(lots: map<string, seq<Lot>>, txns: seq<Transaction>, symbols: seq<string>,
                        prices: map<string, real>, prevCloses: map<string, real>, today: int): (r: seq<Holding>)
    ensures |r| <= |symbols|
    decreases |symbols|
  {
    if |symbols| == 0 then []
    else
      var h := HoldingFor(LotsAt(lots, symbols[0]), txns, symbols[0], prices, prevCloses, today);
      (if h.Some? then [h.value] else []) + HoldingsOver(lots, txns, symbols[1..], prices, prevCloses, today)
  }

  /** Every holding belongs to a listed symbol with a positive quantity and
      carries that symbol's total shares and total lot cost. */
  ghost predicate HoldingsMatchLots(hs: seq<Holding>, lots: map<string, seq<Lot>>, symbols: seq<string>) {
    forall i :: 0 <= i < |hs| ==>
      && hs[i].symbol in symbols
      && Qty(LotsAt(lots, hs[i].symbol)) > 0.0
      && hs[i].quantity == Qty(LotsAt(lots, hs[i].symbol))
      && hs[i].costBasis == Cost(LotsAt(lots, hs[i].symbol))
  }

  /** Every holding belongs to a listed symbol with a positive quantity and
      carries that symbol's total shares and total lot cost. */
  lemma {:induction false} HoldingsOverSound(lots: map<string, seq<Lot>>, txns: seq<Transaction>, symbols: seq<string>,
                                             prices: map<string, real>, prevCloses: map<string, real>, today: int)
    ensures HoldingsMatchLots(HoldingsOver(lots, txns, symbols, prices, prevCloses, today), lots, symbols)
    decreases |symbols|, 1
  {
    if |symbols| > 0 {
      var h := HoldingFor(LotsAt(lots, symbols[0]), txns, symbols[0], prices, prevCloses, today);
      SoundRest(lots, txns, symbols, prices, prevCloses, today, h, HoldingsOver(lots, txns, symbols, prices, prevCloses, today));
    }
  }

  /** The first symbol's holding followed by the holdings of the rest match
      the lots. */
  lemma {:induction false} SoundRest(lots: map<string, seq<Lot>>, txns: seq<Transaction>, symbols: seq<string>,
                                     prices: map<string, real>, prevCloses: map<string, real>, today: int,
                                     h: Option<Holding>, r: seq<Holding>)
    requires |symbols| > 0 && h == HoldingFor(LotsAt(lots, symbols[0]), txns, symbols[0], prices, prevCloses, today)
    requires r == (if h.Some? then [h.value] else []) + HoldingsOver(lots, txns, symbols[1..], prices, prevCloses, today)
    ensures HoldingsMatchLots(r, lots, symbols)
    decreases |symbols|, 0
  {
    HoldingsOverSound(lots, txns, symbols[1..], prices, prevCloses, today);
    SoundStep(lots, symbols, h, HoldingsOver(lots, txns, symbols[1..], prices, prevCloses, today), r);
  }

  lemma {:induction false} SoundStep(lots: map<string, seq<Lot>>, symbols: seq<string>, h: Option<Holding>,
                                     rest: seq<Holding>, r: seq<Holding>)
    requires |symbols| > 0
    requires h.Some? ==>
      && h.value.symbol == symbols[0] && Qty(LotsAt(lots, symbols[0])) > 0.0
      && h.value.quantity == Qty(LotsAt(lots, symbols[0])) && h.value.costBasis == Cost(LotsAt(lots, symbols[0]))
    requires r == (if h.Some? then [h.value] else []) + rest
    requires HoldingsMatchLots(rest, lots, symbols[1..])
    ensures HoldingsMatchLots(r, lots, symbols)
  {
    forall i | 0 <= i < |r| ensures r[i].symbol in symbols {
      if h.Some? && i == 0 {
        assert r[0] == h.value;
      } else {
        assert r[i] == rest[i - (if h.Some? then 1 else 0)];
        InTail(symbols, r[i].symbol);
      }
    }
    forall i | 0 <= i < |r| ensures r[i].quantity == Qty(LotsAt(lots, r[i].symbol))
      && r[i].costBasis == Cost(LotsAt(lots, r[i].symbol)) && Qty(LotsAt(lots, r[i].symbol)) > 0.0
    {
      if h.Some? && i == 0 {
        assert r[0] == h.value;
      } else {
        assert r[i] == rest[i - (if h.Some? then 1 else 0)];
      }
    }
  }

  lemma InTail(xs: seq<string>, x: string)
    requires |xs| > 0 && x in xs[1..]
    ensures x in xs
  {
    var k :| 0 <= k < |xs[1..]| && xs[1..][k] == x;
    assert xs[k + 1] == x;
  }

  /** Every listed symbol with a positive quantity has a holding. */
  lemma {:induction false} HoldingsOverComplete(lots: map<string, seq<Lot>>, txns: seq<Transaction>, symbols: seq<string>,
                                                prices: map<string, real>, prevCloses: map<string, real>, today: int, s: string)
    requires s in symbols && Qty(LotsAt(lots, s)) > 0.0
    ensures HasSymbol(HoldingsOver(lots, txns, symbols, prices, prevCloses, today), s)
    decreases |symbols|
  {
    var r := HoldingsOver(lots, txns, symbols, prices, prevCloses, today);
    var rest := HoldingsOver(lots, txns, symbols[1..], prices, prevCloses, today);
    var h := HoldingFor(LotsAt(lots, symbols[0]), txns, symbols[0], prices, prevCloses, today);
    if symbols[0] == s {
      assert h.Some?;
      assert r[0] == h.value;
    } else {
      assert s in symbols[1..];
      HoldingsOverComplete(lots, txns, symbols[1..], prices, prevCloses, today, s);
      var i :| 0 <= i < |rest| && rest[i].symbol == s;
      if h.Some? {
        assert r == [h.value] + rest;
        assert r[i + 1] == rest[i];
      } else {
        assert r == rest;
      }
    }
  }

  /** Symbols listed in strictly ascending order give holdings in strictly
      ascending symbol order. */
  lemma {:induction false} HoldingsOverSorted(lots: map<string, seq<Lot>>, txns: seq<Transaction>, symbols: seq<string>,
                                              prices: map<string, real>, prevCloses: map<string, real>, today: int)
    requires StrictlySorted(symbols)
    ensures StrictlySortedHoldings(HoldingsOver(lots, txns, symbols, prices, prevCloses, today))
    decreases |symbols|, 1
  {
    if |symbols| > 0 {
      var h := HoldingFor(LotsAt(lots, symbols[0]), txns, symbols[0], prices, prevCloses, today);
      SortedRest(lots, txns, symbols, prices, prevCloses, today, h, HoldingsOver(lots, txns, symbols, prices, prevCloses, today));
    }
  }

  /** The first symbol's holding followed by the holdings of the rest are in
      ascending symbol order. */
  lemma {:induction false} SortedRest(lots: map<string, seq<Lot>>, txns: seq<Transaction>, symbols: seq<string>,
                                      prices: map<string, real>, prevCloses: map<string, real>, today: int,
                                      h: Option<Holding>, r: seq<Holding>)
    requires StrictlySorted(symbols)
    requires |symbols| > 0 && h == HoldingFor(LotsAt(lots, symbols[0]), txns, symbols[0], prices, prevCloses, today)
    requires r == (if h.Some? then [h.value] else []) + HoldingsOver(lots, txns, symbols[1..], prices, prevCloses, today)
    ensures StrictlySortedHoldings(r)
    decreases |symbols|, 0
  {
    var tail := symbols[1..];
    assert StrictlySorted(tail);
    HoldingsOverSorted(lots, txns, tail, prices, prevCloses, today);
    HoldingsOverSound(lots, txns, tail, prices, prevCloses, today);
    SortedStep(lots, symbols, h, HoldingsOver(lots, txns, tail, prices, prevCloses, today), r);
  }

  lemma {:induction false} SortedStep(lots: map<string, seq<Lot>>, symbols: seq<string>, h: Option<Holding>,
                                      rest: seq<Holding>, r: seq<Holding>)
    requires StrictlySorted(symbols) && |symbols| > 0
    requires h.Some? ==> h.value.symbol == symbols[0]
    requires r == (if h.Some? then [h.value] else []) + rest
    requires HoldingsMatchLots(rest, lots, symbols[1..]) && StrictlySortedHoldings(rest)
    ensures StrictlySortedHoldings(r)
  {
    var tail := symbols[1..];
    if h.Some? {
      forall i, j | 0 <= i < j < |r| ensures LexLt(r[i].symbol, r[j].symbol) {
        assert r[j] == rest[j - 1];
        if i == 0 {
          assert rest[j - 1].symbol in tail;
          var k :| 0 <= k < |tail| && tail[k] == rest[j - 1].symbol;
          assert symbols[k + 1] == tail[k];
        } else {
          assert r[i] == rest[i - 1];
        }
      }
    }
  }

  ghost predicate HasSymbol(hs: seq<Holding>, s: string) {
    exists i :: 0 <= i < |hs| && hs[i].symbol == s
  }

  ghost predicate StrictlySortedHoldings(hs: seq<Holding>) {
    forall i, j :: 0 <= i < j < |hs| ==> LexLt(hs[i].symbol, hs[j].symbol)
  }

  ghost predicate SortedHoldings(hs: seq<Holding>) {
    forall i, j :: 0 <= i < j < |hs| ==> LexLe(hs[i].symbol, hs[j].symbol)
  }

  /** The holding that stands for the cash balance. */
  function CashHolding(balance: real): Holding {
    Holding("CASH", 1.0, balance, balance, Some(balance), Some(balance), Some(0.0), Some(0.0),
            None, None, None, None, None)
  }

  /** Places `h` after every leading holding whose symbol is not greater, as
      a stable sort by symbol does with a holding appended last. */
  function InsertBySymbol(h: Holding, hs: seq<Holding>): (r: seq<Holding>)
    ensures |r| == |hs| + 1
    ensures multiset(r) == multiset(hs) + multiset{h}
    decreases |hs|
  {
    if |hs| == 0 || LexLt(h.symbol, hs[0].symbol) then [h] + hs
    else
      assert hs == [hs[0]] + hs[1..];
      [hs[0]] + InsertBySymbol(h, hs[1..])
  }

  ghost predicate SymbolsAtLeast(hs: seq<Holding>, b: string) {
    forall i :: 0 <= i < |hs| ==> LexLe(b, hs[i].symbol)
  }

  /** A lower bound on every symbol, including the inserted one, stays a
      lower bound after insertion. */
  lemma {:induction false} InsertBySymbolBounded(h: Holding, hs: seq<Holding>, b: string)
    requires LexLe(b, h.symbol)
    requires SymbolsAtLeast(hs, b)
    ensures SymbolsAtLeast(InsertBySymbol(h, hs), b)
    decreases |hs|
  {
    if |hs| > 0 && !LexLt(h.symbol, hs[0].symbol) {
      InsertBySymbolBounded(h, hs[1..], b);
      var r := InsertBySymbol(h, hs);
      var rest := InsertBySymbol(h, hs[1..]);
      assert r == [hs[0]] + rest;
      forall i | 0 <= i < |r| ensures LexLe(b, r[i].symbol) {
        if i > 0 { assert r[i] == rest[i - 1]; }
      }
    }
  }

  /** Inserting into a list sorted by symbol keeps it sorted. */
  lemma {:induction false} InsertBySymbolSorted(h: Holding, hs: seq<Holding>)
    requires SortedHoldings(hs)
    ensures SortedHoldings(InsertBySymbol(h, hs))
    decreases |hs|
  {
    var r := InsertBySymbol(h, hs);
    if |hs| == 0 || LexLt(h.symbol, hs[0].symbol) {
      assert r == [h] + hs;
      forall i, j | 0 <= i < j < |r| ensures LexLe(r[i].symbol, r[j].symbol) {
        assert r[j] == hs[j - 1];
        if i == 0 {
          if j > 1 {
            assert LexLe(hs[0].symbol, hs[j - 1].symbol);
            LexLeTransitive(h.symbol, hs[0].symbol, hs[j - 1].symbol);
          }
        } else {
          assert r[i] == hs[i - 1];
        }
      }
    } else {
      var tail := hs[1..];
      assert SortedHoldings(tail);
      InsertBySymbolSorted(h, tail);
      LexLtTrichotomy(h.symbol, hs[0].symbol);
      assert forall i :: 0 <= i < |tail| ==> tail[i] == hs[i + 1];
      InsertBySymbolBounded(h, tail, hs[0].symbol);
      var rest := InsertBySymbol(h, tail);
      assert r == [hs[0]] + rest;
      forall i, j | 0 <= i < j < |r| ensures LexLe(r[i].symbol, r[j].symbol) {
        assert r[j] == rest[j - 1];
        if i > 0 {
          assert r[i] == rest[i - 1];
        }
      }
    }
  }

  /** The investment holdings: one per symbol with a positive quantity, in
      symbol order. */
  function InvestmentHoldings(l: Ledger, prices: map<string, real>, prevCloses: map<string, real>, today: int): seq<Holding> {
    HoldingsOver(l.lots, l.transactions, SortedStrings(l.lots.Keys), prices, prevCloses, today)
  }

  /** `get_holdings` without the per-lot weighted return: the investment
      holdings, with a CASH holding placed by symbol when the balance today
      is positive. */
  function Holdings(l: Ledger, prices: map<string, real>, prevCloses: map<string, real>, today: int): (r: seq<Holding>)
    ensures var inv := InvestmentHoldings(l, prices, prevCloses, today);
      var cash := CashBalance(l.cash, today);
      multiset(r) == multiset(inv) + (if cash > 0.0 then multiset{CashHolding(cash)} else multiset{})
  {
    var inv := InvestmentHoldings(l, prices, prevCloses, today);
    var cash := CashBalance(l.cash, today);
    if cash > 0.0 then InsertBySymbol(CashHolding(cash), inv) else inv
  }

  /** The holdings come out sorted by symbol. */
  lemma HoldingsSorted(l: Ledger, prices: map<string, real>, prevCloses: map<string, real>, today: int)
    ensures SortedHoldings(Holdings(l, prices, prevCloses, today))
  {
    var inv := InvestmentHoldings(l, prices, prevCloses, today);
    HoldingsOverSorted(l.lots, l.transactions, SortedStrings(l.lots.Keys), prices, prevCloses, today);
    assert SortedHoldings(inv);
    var cash := CashBalance(l.cash, today);
    if cash > 0.0 {
      InsertBySymbolSorted(CashHolding(cash), inv);
    }
  }

  /** Exactly the symbols with a positive quantity have an investment
      holding, which carries the symbol's total shares and total lot cost;
      no symbol appears twice. */
  lemma InvestmentHoldingsAreOnePerOpenSymbol(l: Ledger, prices: map<string, real>, prevCloses: map<string, real>, today: int, s: string)
    ensures var hs := InvestmentHoldings(l, prices, prevCloses, today);
      && ((exists i :: 0 <= i < |hs| && hs[i].symbol == s) <==> Qty(LotsOf(l, s)) > 0.0)
      && (forall i :: 0 <= i < |hs| && hs[i].symbol == s ==>
            hs[i].quantity == Qty(LotsOf(l, s)) && hs[i].costBasis == Cost(LotsOf(l, s)))
      && StrictlySortedHoldings(hs)
  {
    var syms := SortedStrings(l.lots.Keys);
    var hs := InvestmentHoldings(l, prices, prevCloses, today);
    assert hs == HoldingsOver(l.lots, l.transactions, syms, prices, prevCloses, today);
    assert LotsOf(l, s) == LotsAt(l.lots, s);
    HoldingsOverSound(l.lots, l.transactions, syms, prices, prevCloses, today);
    HoldingsOverSorted(l.lots, l.transactions, syms, prices, prevCloses, today);
    if Qty(LotsOf(l, s)) > 0.0 {
      assert s in l.lots;
      HoldingsOverComplete(l.lots, l.transactions, syms, prices, prevCloses, today, s);
      assert HasSymbol(hs, s);
    } else {
      forall i | 0 <= i < |hs| ensures hs[i].symbol != s {
        assert Qty(LotsAt(l.lots, hs[i].symbol)) > 0.0;
      }
    }
  }

  // ---------------------------------------------------------------------------
  // Dividends

  /** `get_dividend_summaries` over a list of symbols. */
  function DividendSummariesOver(dividends: map<string, seq<real>>, symbols: seq<string>): (r: seq<DividendSummary>)
    ensures |r| <= |symbols|
    // one summary per listed symbol with payments, carrying their sum and count
    ensures forall i :: 0 <= i < |r| ==>
      && r[i].symbol in symbols && r[i].symbol in dividends
      && r[i].paymentCount == |dividends[r[i].symbol]| > 0
      && r[i].totalAmount == Sum(dividends[r[i].symbol])
    decreases |symbols|
  {
    if |symbols| == 0 then []
    else
      var s := symbols[0];
      var amounts := if s in dividends then dividends[s] else [];
      var rest := DividendSummariesOver(dividends, symbols[1..]);
      assert forall t :: t in symbols[1..] ==> t in symbols;
      if |amounts| > 0 then
        var r := [DividendSummary(s, Sum(amounts), |amounts|)] + rest;
        assert forall i :: 1 <= i < |r| ==> r[i] == rest[i - 1];
        r
      else rest
  }

  /** Every listed symbol with at least one payment gets a summary. */
  lemma {:induction false} DividendSummariesComplete(dividends: map<string, seq<real>>, symbols: seq<string>, s: string)
    requires s in symbols && s in dividends && |dividends[s]| > 0
    ensures exists i :: 0 <= i < |DividendSummariesOver(dividends, symbols)| && DividendSummariesOver(dividends, symbols)[i].symbol == s
    decreases |symbols|
  {
    var r := DividendSummariesOver(dividends, symbols);
    var first := symbols[0];
    var amounts := if first in dividends then dividends[first] else [];
    var rest := DividendSummariesOver(dividends, symbols[1..]);
    if first == s {
      assert r[0].symbol == s;
    } else {
      assert s in symbols[1..];
      DividendSummariesComplete(dividends, symbols[1..], s);
      var i :| 0 <= i < |rest| && rest[i].symbol == s;
      if |amounts| > 0 {
        assert r == [DividendSummary(first, Sum(amounts), |amounts|)] + rest;
        assert r[i + 1].symbol == s;
      } else {
        assert r == rest;
      }
    }
  }

  /** Symbols listed in ascending order give summaries in ascending order. */
  lemma {:induction false} DividendSummariesOverSorted(dividends: map<string, seq<real>>, symbols: seq<string>)
    requires StrictlySorted(symbols)
    ensures forall i, j :: 0 <= i < j < |DividendSummariesOver(dividends, symbols)| ==>
      LexLt(DividendSummariesOver(dividends, symbols)[i].symbol, DividendSummariesOver(dividends, symbols)[j].symbol)
    decreases |symbols|
  {
    if |symbols| > 0 {
      var s := symbols[0];
      var amounts := if s in dividends then dividends[s] else [];
      var rest := DividendSummariesOver(dividends, symbols[1..]);
      assert StrictlySorted(symbols[1..]);
      DividendSummariesOverSorted(dividends, symbols[1..]);
      if |amounts| > 0 {
        var r := [DividendSummary(s, Sum(amounts), |amounts|)] + rest;
        assert DividendSummariesOver(dividends, symbols) == r;
        HeadBelowRest(symbols);
        forall i, j | 0 <= i < j < |r| ensures LexLt(r[i].symbol, r[j].symbol) {
          if i == 0 {
            assert r[j] == rest[j - 1];
          } else {
            assert r[i] == rest[i - 1] && r[j] == rest[j - 1];
          }
        }
      }
    }
  }

  /** `get_dividend_summaries`: one summary per symbol that received a
      dividend, carrying the sum and number of its payments, in ascending
      symbol order. */
  function DividendSummaries(l: Ledger): (r: seq<DividendSummary>)
    ensures forall i :: 0 <= i < |r| ==>
      && r[i].symbol in l.dividends
      && r[i].paymentCount == |l.dividends[r[i].symbol]| > 0
      && r[i].totalAmount == Sum(l.dividends[r[i].symbol])
    ensures forall i, j :: 0 <= i < j < |r| ==> LexLt(r[i].symbol, r[j].symbol)
  {
    DividendSummariesOverSorted(l.dividends, SortedStrings(l.dividends.Keys));
    DividendSummariesOver(l.dividends, SortedStrings(l.dividends.Keys))
  }

  /** Every symbol with at least one payment has a summary. */
  lemma DividendSummariesListEveryPayer(l: Ledger, s: string)
    requires s in l.dividends && |l.dividends[s]| > 0
    ensures exists i :: 0 <= i < |DividendSummaries(l)| && DividendSummaries(l)[i].symbol == s
  {
    var syms := SortedStrings(l.dividends.Keys);
    assert s in syms;
    DividendSummariesComplete(l.dividends, syms, s);
    assert DividendSummaries(l) == DividendSummariesOver(l.dividends, syms);
  }

  function TotalDividendsOver(dividends: map<string, seq<real>>, symbols: seq<string>): real
    decreases |symbols|
  {
    if |symbols| == 0 then 0.0
    else (if symbols[0] in dividends then Sum(dividends[symbols[0]]) else 0.0)
         + TotalDividendsOver(dividends, symbols[1..])
  }

  /** `get_total_dividends`: every dividend amount of every symbol, which
      is the sum of the per-symbol summaries. */
  function TotalDividends(l: Ledger): (r: real)
    ensures r == SummaryTotal(DividendSummaries(l))
  {
    TotalDividendsMatchSummaries(l.dividends, SortedStrings(l.dividends.Keys));
    TotalDividendsOver(l.dividends, SortedStrings(l.dividends.Keys))
  }

  function SummaryTotal(summaries: seq<DividendSummary>): real
    decreases |summaries|
  {
    if |summaries| == 0 then 0.0 else summaries[0].totalAmount + SummaryTotal(summaries[1..])
  }

  lemma {:induction false} SummaryTotalAppend(a: seq<DividendSummary>, b: seq<DividendSummary>)
    ensures SummaryTotal(a + b) == SummaryTotal(a) + SummaryTotal(b)
    decreases |a|
  {
    if |a| == 0 {
      assert a + b == b;
    } else {
      assert (a + b)[1..] == a[1..] + b;
      SummaryTotalAppend(a[1..], b);
    }
  }

  /** The total dividend figure is the sum of the per-symbol summaries. */
  lemma {:induction false} TotalDividendsMatchSummaries(dividends: map<string, seq<real>>, symbols: seq<string>)
    ensures TotalDividendsOver(dividends, symbols) == SummaryTotal(DividendSummariesOver(dividends, symbols))
    decreases |symbols|
  {
    if |symbols| > 0 {
      TotalDividendsMatchSummaries(dividends, symbols[1..]);
      var s := symbols[0];
      var amounts := if s in dividends then dividends[s] else [];
      var head := if |amounts| > 0 then [DividendSummary(s, Sum(amounts), |amounts|)] else [];
      SummaryTotalAppend(head, DividendSummariesOver(dividends, symbols[1..]));
      if |amounts| > 0 {
        assert SummaryTotal(head) == Sum(amounts) by {
          assert head[1..] == [];
        }
      }
    }
  }

  // ---------------------------------------------------------------------------
  // Sold assets

  /** One entry of `get_sold_assets`. */
  datatype SoldAsset = SoldAsset(
    symbol: string,
    quantity: real,
    costBasis: real,
    avgCost: real,
    proceeds: real,
    avgSellPrice: real,
    pnl: real,
    pnlPercent: real)

  function SaleProceeds(sales: seq<Sale>): real {
    if |sales| == 0 then 0.0 else sales[0].proceeds + SaleProceeds(sales[1..])
  }

  /** Realized P&L of a list of sales, summed one sale at a time. */
  function SalePnl(sales: seq<Sale>): real {
    if |sales| == 0 then 0.0 else (sales[0].proceeds - sales[0].costBasis) + SalePnl(sales[1..])
  }

  lemma {:induction false} SalePnlIsProceedsLessCost(sales: seq<Sale>)
    ensures SalePnl(sales) == SaleProceeds(sales) - SoldCost(sales)
    decreases |sales|
  {
    if |sales| > 0 {
      SalePnlIsProceedsLessCost(sales[1..]);
    }
  }

  /** The summary of one symbol's sales, when it sold a positive quantity. */
  function SoldAssetFor(symbol: string, sales: seq<Sale>): (r: Option<SoldAsset>)
    ensures r.Some? <==> |sales| > 0 && SoldQty(sales) > 0.0
    ensures r.Some? ==>
      && r.value.symbol == symbol
      && r.value.quantity == SoldQty(sales)
      && r.value.costBasis == SoldCost(sales)
      && r.value.proceeds == SaleProceeds(sales)
      && r.value.pnl == r.value.proceeds - r.value.costBasis
      && r.value.avgCost * r.value.quantity == r.value.costBasis
      && r.value.avgSellPrice * r.value.quantity == r.value.proceeds
      && (r.value.costBasis > 0.0 ==> r.value.pnlPercent * r.value.costBasis == r.value.pnl * 100.0)
      && (r.value.costBasis <= 0.0 ==> r.value.pnlPercent == 0.0)
  {
    if |sales| == 0 then None
    else
      var q := SoldQty(sales);
      var cost := SoldCost(sales);
      var proceeds := SaleProceeds(sales);
      if q > 0.0 then
        var pnl := proceeds - cost;
        Some(SoldAsset(symbol, q, cost, cost / q, proceeds, proceeds / q, pnl,
                       if cost > 0.0 then pnl / cost * 100.0 else 0.0))
      else None
  }

  /** The sales recorded for `symbol`, none when it never sold. */
  function SalesAt(sales: map<string, seq<Sale>>, symbol: string): seq<Sale> {
    if symbol in sales then sales[symbol] else []
  }

  /** `get_sold_assets` over a list of symbols. */
  function SoldAssetsOver(sales: map<string, seq<Sale>>, symbols: seq<string>): (r: seq<SoldAsset>)
    ensures |r| <= |symbols|
    // each entry is the summary of a listed symbol's own sales
    ensures forall i :: 0 <= i < |r| ==>
      && r[i].symbol in symbols && r[i].symbol in sales
      && SoldAssetFor(r[i].symbol, SalesAt(sales, r[i].symbol)).Some?
      && r[i] == SoldAssetFor(r[i].symbol, SalesAt(sales, r[i].symbol)).value
    decreases |symbols|
  {
    if |symbols| == 0 then []
    else
      var s := symbols[0];
      var rest := SoldAssetsOver(sales, symbols[1..]);
      assert forall t :: t in symbols[1..] ==> t in symbols;
      match SoldAssetFor(s, SalesAt(sales, s))
      case Some(a) =>
        var r := [a] + rest;
        assert forall i :: 1 <= i < |r| ==> r[i] == rest[i - 1];
        r
      case None => rest
  }

  /** Every listed symbol that sold a positive quantity gets an entry. */
  lemma {:induction false} SoldAssetsComplete(sales: map<string, seq<Sale>>, symbols: seq<string>, s: string)
    requires s in symbols && SoldAssetFor(s, SalesAt(sales, s)).Some?
    ensures exists i :: 0 <= i < |SoldAssetsOver(sales, symbols)| && SoldAssetsOver(sales, symbols)[i].symbol == s
    decreases |symbols|
  {
    var r := SoldAssetsOver(sales, symbols);
    var first := symbols[0];
    var head := SoldAssetFor(first, SalesAt(sales, first));
    var rest := SoldAssetsOver(sales, symbols[1..]);
    if first == s {
      assert r == [head.value] + rest;
      assert r[0].symbol == s;
    } else {
      assert s in symbols[1..];
      SoldAssetsComplete(sales, symbols[1..], s);
      var i :| 0 <= i < |rest| && rest[i].symbol == s;
      if head.Some? {
        assert r == [head.value] + rest;
        assert r[i + 1].symbol == s;
      } else {
        assert r == rest;
      }
    }
  }

  /** Symbols listed in ascending order give entries in ascending order. */
  lemma {:induction false} SoldAssetsOverSorted(sales: map<string, seq<Sale>>, symbols: seq<string>)
    requires StrictlySorted(symbols)
    ensures forall i, j :: 0 <= i < j < |SoldAssetsOver(sales, symbols)| ==>
      LexLt(SoldAssetsOver(sales, symbols)[i].symbol, SoldAssetsOver(sales, symbols)[j].symbol)
    decreases |symbols|
  {
    if |symbols| > 0 {
      var s := symbols[0];
      var rest := SoldAssetsOver(sales, symbols[1..]);
      assert StrictlySorted(symbols[1..]);
      SoldAssetsOverSorted(sales, symbols[1..]);
      var head := SoldAssetFor(s, SalesAt(sales, s));
      if head.Some? {
        var r := [head.value] + rest;
        assert SoldAssetsOver(sales, symbols) == r;
        HeadBelowRest(symbols);
        forall i, j | 0 <= i < j < |r| ensures LexLt(r[i].symbol, r[j].symbol) {
          if i == 0 {
            assert r[j] == rest[j - 1];
          } else {
            assert r[i] == rest[i - 1] && r[j] == rest[j - 1];
          }
        }
      }
    }
  }

  /** `get_sold_assets`: one entry per symbol that sold a positive quantity,
      in ascending symbol order. */
  function SoldAssets(l: Ledger): (r: seq<SoldAsset>)
    ensures forall i :: 0 <= i < |r| ==>
      && r[i].symbol in l.sales
      && SoldAssetFor(r[i].symbol, l.sales[r[i].symbol]).Some?
      && r[i] == SoldAssetFor(r[i].symbol, l.sales[r[i].symbol]).value
    ensures forall i, j :: 0 <= i < j < |r| ==> LexLt(r[i].symbol, r[j].symbol)
  {
    SoldAssetsOverSorted(l.sales, SortedStrings(l.sales.Keys));
    SoldAssetsOver(l.sales, SortedStrings(l.sales.Keys))
  }

  /** Every symbol that sold a positive quantity is listed by `get_sold_assets`. */
  lemma SoldAssetsListsEverySale(l: Ledger, s: string)
    requires s in l.sales && SoldAssetFor(s, l.sales[s]).Some?
    ensures exists i :: 0 <= i < |SoldAssets(l)| && SoldAssets(l)[i].symbol == s
  {
    var syms := SortedStrings(l.sales.Keys);
    assert s in syms;
    assert SalesAt(l.sales, s) == l.sales[s];
    SoldAssetsComplete(l.sales, syms, s);
    assert SoldAssets(l) == SoldAssetsOver(l.sales, syms);
  }

  function SumSoldPnl(assets: seq<SoldAsset>): real {
    if |assets| == 0 then 0.0 else assets[0].pnl + SumSoldPnl(assets[1..])
  }

  /** Every recorded sale moved a positive number of shares. */
  ghost predicate SalesPositive(l: Ledger) {
    forall s, i :: 0 <= i < |SalesOf(l, s)| ==> SalesOf(l, s)[i].quantity > 0.0
  }

  /** A SELL records a sale only when it removed shares, so every recorded
      sale is positive. */
  lemma ProcessKeepsSalesPositive(env: Env, l: Ledger, t: Transaction)
    requires Processable(t) && SalesPositive(l)
    ensures SalesPositive(Process(env, l, t))
  {
    var r := Process(env, l, t);
    if t.action == Sell {
      var f := Factor(env, t);
      assert r == ApplySell(l, t, f);
      var d := Deplete(LotsOf(l, t.asset), AdjustedQty(t, f));
      forall s, i | 0 <= i < |SalesOf(r, s)| ensures SalesOf(r, s)[i].quantity > 0.0 {
        if s == t.asset && d.removed > 0.0 && i == |SalesOf(l, s)| {
          assert SalesOf(r, s)[i].quantity == d.removed;
        } else if s == t.asset && d.removed > 0.0 {
          assert SalesOf(r, s)[i] == SalesOf(l, s)[i];
        }
      }
    } else {
      assert forall s :: SalesOf(r, s) == SalesOf(l, s);
    }
  }

  /** Replaying any processable transactions keeps every sale positive. */
  lemma {:induction false} ReplayKeepsSalesPositive(env: Env, l: Ledger, txns: seq<Transaction>)
    requires AllProcessable(txns) && SalesPositive(l)
    ensures SalesPositive(ApplyAll(env, l, txns))
    decreases |txns|
  {
    if |txns| > 0 {
      ProcessKeepsSalesPositive(env, l, txns[0]);
      ReplayKeepsSalesPositive(env, Process(env, l, txns[0]), txns[1..]);
    }
  }

  lemma {:induction false} SoldQtyPositive(sales: seq<Sale>)
    requires |sales| > 0
    requires forall i :: 0 <= i < |sales| ==> sales[i].quantity > 0.0
    ensures SoldQty(sales) > 0.0
    decreases |sales|
  {
    if |sales| > 1 {
      assert forall i :: 0 <= i < |sales| - 1 ==> sales[1..][i] == sales[i + 1];
      SoldQtyPositive(sales[1..]);
    }
  }

  /** With every sale positive, the realized P&L of the summary is the sum
      of the P&L of the sold-asset entries: no symbol with sales is left out
      of the sold assets. */
  lemma {:induction false} RealizedMatchesSoldAssets(sales: map<string, seq<Sale>>, symbols: seq<string>)
    requires forall s, i :: s in sales && 0 <= i < |sales[s]| ==> sales[s][i].quantity > 0.0
    ensures RealizedOver(sales, symbols) == SumSoldPnl(SoldAssetsOver(sales, symbols))
    decreases |symbols|
  {
    if |symbols| > 0 {
      RealizedMatchesSoldAssets(sales, symbols[1..]);
      var s := symbols[0];
      var list := SalesAt(sales, s);
      var head := SoldAssetFor(s, list);
      var rest := SoldAssetsOver(sales, symbols[1..]);
      SalePnlIsProceedsLessCost(list);
      if |list| > 0 {
        SoldQtyPositive(list);
        assert SoldAssetsOver(sales, symbols) == [head.value] + rest;
        assert ([head.value] + rest)[1..] == rest;
      } else {
        assert SoldAssetsOver(sales, symbols) == rest;
      }
    }
  }

  /** The realized P&L of the summary, as the sold-asset list reports it. */
  lemma SummaryRealizedIsSoldAssetsPnl(l: Ledger, prices: map<string, real>, prevCloses: map<string, real>, today: int)
    requires SalesPositive(l)
    ensures Summary(l, prices, prevCloses, today).totalRealizedPnl == SumSoldPnl(SoldAssets(l))
  {
    forall s, i | s in l.sales && 0 <= i < |l.sales[s]| ensures l.sales[s][i].quantity > 0.0 {
      assert SalesOf(l, s)[i] == l.sales[s][i];
    }
    RealizedMatchesSoldAssets(l.sales, SortedStrings(l.sales.Keys));
  }

  // ---------------------------------------------------------------------------
  // Summary

  function RealizedOver(sales: map<string, seq<Sale>>, symbols: seq<string>): real
    decreases |symbols|
  {
    if |symbols| == 0 then 0.0
    else (if symbols[0] in sales then SalePnl(sales[symbols[0]]) else 0.0) + RealizedOver(sales, symbols[1..])
  }

  function SoldCostOver(sales: map<string, seq<Sale>>, symbols: seq<string>): real
    decreases |symbols|
  {
    if |symbols| == 0 then 0.0
    else (if symbols[0] in sales then SoldCost(sales[symbols[0]]) else 0.0) + SoldCostOver(sales, symbols[1..])
  }

  function SumCostBasis(hs: seq<Holding>): real {
    if |hs| == 0 then 0.0 else hs[0].costBasis + SumCostBasis(hs[1..])
  }

  function SumMarketValue(hs: seq<Holding>): real {
    if |hs| == 0 then 0.0 else hs[0].marketValue.GetOr(0.0) + SumMarketValue(hs[1..])
  }

  function SumUnrealized(hs: seq<Holding>): real {
    if |hs| == 0 then 0.0 else hs[0].unrealizedPnl.GetOr(0.0) + SumUnrealized(hs[1..])
  }

  function NonCash(hs: seq<Holding>): (r: seq<Holding>)
    ensures forall i :: 0 <= i < |r| ==> r[i].symbol != "CASH"
  {
    if |hs| == 0 then []
    else (if hs[0].symbol != "CASH" then [hs[0]] else []) + NonCash(hs[1..])
  }

  /** The first holding named CASH. */
  function FirstCash(hs: seq<Holding>): (r: Option<Holding>)
    ensures r.Some? ==> r.value.symbol == "CASH" && r.value in hs
  {
    if |hs| == 0 then None
    else if hs[0].symbol == "CASH" then Some(hs[0])
    else FirstCash(hs[1..])
  }

  /** `pnl` as a percentage of `base`, 0 when the base is not positive. */
  function PercentOf(pnl: real, base: real): (p: real)
    ensures base > 0.0 ==> p * base == pnl * 100.0
    ensures base <= 0.0 ==> p == 0.0
  {
    if base > 0.0 then (pnl / base) * 100.0 else 0.0
  }

  /** The cash counted in the total market value: the market value of the
      first CASH holding when it has a non-zero one, else 0. */
  function CashValue(hs: seq<Holding>): (v: real)
    ensures v != 0.0 ==> FirstCash(hs).Some? && FirstCash(hs).value.marketValue == Some(v)
    ensures FirstCash(hs).Some? && FirstCash(hs).value.marketValue.Some? ==> v == FirstCash(hs).value.marketValue.value
  {
    var c := FirstCash(hs);
    if c.Some? && c.value.marketValue.Some? && c.value.marketValue.value != 0.0 then c.value.marketValue.value else 0.0
  }

  /** The figures of `get_portfolio_summary` without the weighted annualized
      return, computed from the holdings, the recorded sales and the dividend
      figures. */
  function SummaryFrom(holdings: seq<Holding>, sales: map<string, seq<Sale>>, totalDividends: real, fees: real,
                       dividendSummaries: seq<DividendSummary>): (r: PortfolioSummary)
    ensures r.holdings == holdings && r.dividendSummaries == dividendSummaries
    ensures r.totalDividends == totalDividends && r.totalFees == fees
    // the investment figures add up the non-CASH holdings
    ensures r.totalCostBasis == SumCostBasis(NonCash(holdings))
    ensures r.investmentMarketValue == SumMarketValue(NonCash(holdings))
    ensures r.totalUnrealizedPnl == SumUnrealized(NonCash(holdings))
    // realized P&L runs over every recorded sale
    ensures r.totalRealizedPnl == RealizedOver(sales, SortedStrings(sales.Keys))
    ensures r.totalPnl == r.totalRealizedPnl + r.totalUnrealizedPnl
    ensures r.allTimeCostBasis == r.totalCostBasis + SoldCostOver(sales, SortedStrings(sales.Keys))
    ensures r.totalPnlPercent == PercentOf(r.totalPnl, r.allTimeCostBasis)
    ensures r.totalMarketValue == r.investmentMarketValue + CashValue(holdings)
  {
    var investments := NonCash(holdings);
    var investMv := SumMarketValue(investments);
    var syms := SortedStrings(sales.Keys);
    var realized := RealizedOver(sales, syms);
    var unrealized := SumUnrealized(investments);
    var allTime := SumCostBasis(investments) + SoldCostOver(sales, syms);
    var totalPnl := realized + unrealized;
    var pct := PercentOf(totalPnl, allTime);
    PortfolioSummary(SumCostBasis(investments), investMv + CashValue(holdings), investMv, unrealized, realized,
                     totalPnl, pct, totalDividends, fees, allTime, holdings, dividendSummaries)
  }

  /** `get_portfolio_summary` of a ledger: the holdings, the dividend
      summaries and the dividend total of the ledger on the day. */
  function Summary(l: Ledger, prices: map<string, real>, prevCloses: map<string, real>, today: int): PortfolioSummary {
    SummaryFrom(Holdings(l, prices, prevCloses, today), l.sales, TotalDividends(l), l.totalFees, DividendSummaries(l))
  }

  function ProceedsOver(sales: map<string, seq<Sale>>, symbols: seq<string>): real
    decreases |symbols|
  {
    if |symbols| == 0 then 0.0
    else (if symbols[0] in sales then SaleProceeds(sales[symbols[0]]) else 0.0) + ProceedsOver(sales, symbols[1..])
  }

  /** Realized P&L is what the sales brought in less what the sold shares
      cost. */
  lemma {:induction false} RealizedIsProceedsLessSoldCost(sales: map<string, seq<Sale>>, symbols: seq<string>)
    ensures RealizedOver(sales, symbols) == ProceedsOver(sales, symbols) - SoldCostOver(sales, symbols)
    decreases |symbols|
  {
    if |symbols| > 0 {
      RealizedIsProceedsLessSoldCost(sales, symbols[1..]);
      if symbols[0] in sales {
        SalePnlIsProceedsLessCost(sales[symbols[0]]);
      }
    }
  }

  /** What a symbol's open position adds to the summary: its lot cost, and
      its value and gain at the known price; nothing when the position is
      closed or named CASH, and no value or gain without a price. */
  function OpenCost(held: seq<Lot>, s: string): real {
    if s != "CASH" && Qty(held) > 0.0 then Cost(held) else 0.0
  }

  function OpenValue(held: seq<Lot>, s: string, prices: map<string, real>): real {
    if s != "CASH" && Qty(held) > 0.0 && s in prices then Qty(held) * prices[s] else 0.0
  }

  function OpenGain(held: seq<Lot>, s: string, prices: map<string, real>): real {
    if s != "CASH" && Qty(held) > 0.0 && s in prices then Qty(held) * prices[s] - Cost(held) else 0.0
  }

  function OpenCostOver(lots: map<string, seq<Lot>>, symbols: seq<string>): real
    decreases |symbols|
  {
    if |symbols| == 0 then 0.0
    else OpenCost(LotsAt(lots, symbols[0]), symbols[0]) + OpenCostOver(lots, symbols[1..])
  }

  function OpenValueOver(lots: map<string, seq<Lot>>, symbols: seq<string>, prices: map<string, real>): real
    decreases |symbols|
  {
    if |symbols| == 0 then 0.0
    else OpenValue(LotsAt(lots, symbols[0]), symbols[0], prices) + OpenValueOver(lots, symbols[1..], prices)
  }

  function OpenGainOver(lots: map<string, seq<Lot>>, symbols: seq<string>, prices: map<string, real>): real
    decreases |symbols|
  {
    if |symbols| == 0 then 0.0
    else OpenGain(LotsAt(lots, symbols[0]), symbols[0], prices) + OpenGainOver(lots, symbols[1..], prices)
  }

  /** Summing the non-CASH holdings of a symbol list gives the cost, value
      and gain of the open positions among them. */
  lemma {:induction false} HoldingsOverTotals(lots: map<string, seq<Lot>>, txns: seq<Transaction>, symbols: seq<string>,
                                              prices: map<string, real>, prevCloses: map<string, real>, today: int)
    ensures var inv := NonCash(HoldingsOver(lots, txns, symbols, prices, prevCloses, today));
      && SumCostBasis(inv) == OpenCostOver(lots, symbols)
      && SumMarketValue(inv) == OpenValueOver(lots, symbols, prices)
      && SumUnrealized(inv) == OpenGainOver(lots, symbols, prices)
    decreases |symbols|
  {
    if |symbols| > 0 {
      HoldingsOverTotals(lots, txns, symbols[1..], prices, prevCloses, today);
      HoldingTotalsStep(lots, txns, symbols, prices, prevCloses, today);
      assert OpenCostOver(lots, symbols) == OpenCost(LotsAt(lots, symbols[0]), symbols[0]) + OpenCostOver(lots, symbols[1..]);
      assert OpenValueOver(lots, symbols, prices) == OpenValue(LotsAt(lots, symbols[0]), symbols[0], prices) + OpenValueOver(lots, symbols[1..], prices);
      assert OpenGainOver(lots, symbols, prices) == OpenGain(LotsAt(lots, symbols[0]), symbols[0], prices) + OpenGainOver(lots, symbols[1..], prices);
    }
  }

  /** The first symbol's holding adds its open position's figures to the
      sums over the rest. */
  lemma HoldingTotalsStep(lots: map<string, seq<Lot>>, txns: seq<Transaction>, symbols: seq<string>,
                          prices: map<string, real>, prevCloses: map<string, real>, today: int)
    requires |symbols| > 0
    ensures var inv := NonCash(HoldingsOver(lots, txns, symbols, prices, prevCloses, today));
      var tail := NonCash(HoldingsOver(lots, txns, symbols[1..], prices, prevCloses, today));
      var held := LotsAt(lots, symbols[0]);
      && SumCostBasis(inv) == OpenCost(held, symbols[0]) + SumCostBasis(tail)
      && SumMarketValue(inv) == OpenValue(held, symbols[0], prices) + SumMarketValue(tail)
      && SumUnrealized(inv) == OpenGain(held, symbols[0], prices) + SumUnrealized(tail)
  {
    var s := symbols[0];
    var h := HoldingFor(LotsAt(lots, s), txns, s, prices, prevCloses, today);
    var rest := HoldingsOver(lots, txns, symbols[1..], prices, prevCloses, today);
    assert HoldingsOver(lots, txns, symbols, prices, prevCloses, today) == (if h.Some? then [h.value] else []) + rest;
    HoldingFigures(h, LotsAt(lots, s), s, prices);
    MaybeConsSums(h, rest);
  }

  /** A holding that may be absent, in front of a list, adds its own figures
      to the non-CASH sums when present and not named CASH. */
  lemma MaybeConsSums(h: Option<Holding>, rest: seq<Holding>)
    ensures var inv := NonCash((if h.Some? then [h.value] else []) + rest);
      var counted := h.Some? && h.value.symbol != "CASH";
      && SumCostBasis(inv) == (if counted then h.value.costBasis else 0.0) + SumCostBasis(NonCash(rest))
      && SumMarketValue(inv) == (if counted then h.value.marketValue.GetOr(0.0) else 0.0) + SumMarketValue(NonCash(rest))
      && SumUnrealized(inv) == (if counted then h.value.unrealizedPnl.GetOr(0.0) else 0.0) + SumUnrealized(NonCash(rest))
  {
    if h.Some? {
      NonCashConsSums(h.value, rest);
    } else {
      assert [] + rest == rest;
    }
  }

  /** A symbol's holding, when it has one, carries the figures its open
      position adds to the summary. */
  lemma HoldingFigures(h: Option<Holding>, held: seq<Lot>, s: string, prices: map<string, real>)
    requires h.Some? <==> Qty(held) > 0.0
    requires h.Some? ==> h.value.symbol == s && h.value.costBasis == Cost(held)
    requires h.Some? && s in prices ==>
      && h.value.marketValue.Some? && h.value.marketValue.value == Qty(held) * prices[s]
      && h.value.unrealizedPnl.Some? && h.value.unrealizedPnl.value == Qty(held) * prices[s] - Cost(held)
    requires h.Some? && s !in prices ==> h.value.marketValue.None? && h.value.unrealizedPnl.None?
    ensures OpenCost(held, s) == (if h.Some? && h.value.symbol != "CASH" then h.value.costBasis else 0.0)
    ensures OpenValue(held, s, prices) == (if h.Some? && h.value.symbol != "CASH" then h.value.marketValue.GetOr(0.0) else 0.0)
    ensures OpenGain(held, s, prices) == (if h.Some? && h.value.symbol != "CASH" then h.value.unrealizedPnl.GetOr(0.0) else 0.0)
  {
  }

  /** One holding in front of a list adds its own figures to the non-CASH
      sums, unless it is named CASH. */
  lemma NonCashConsSums(h: Holding, rest: seq<Holding>)
    ensures var inv := NonCash([h] + rest);
      var counted := h.symbol != "CASH";
      && SumCostBasis(inv) == (if counted then h.costBasis else 0.0) + SumCostBasis(NonCash(rest))
      && SumMarketValue(inv) == (if counted then h.marketValue.GetOr(0.0) else 0.0) + SumMarketValue(NonCash(rest))
      && SumUnrealized(inv) == (if counted then h.unrealizedPnl.GetOr(0.0) else 0.0) + SumUnrealized(NonCash(rest))
  {
    assert ([h] + rest)[1..] == rest;
    if h.symbol != "CASH" {
      var kept := [h] + NonCash(rest);
      assert NonCash([h] + rest) == kept;
      assert kept[1..] == NonCash(rest);
    } else {
      assert NonCash([h] + rest) == NonCash(rest);
    }
  }

  /** The inserted CASH holding is dropped again by NonCash. */
  lemma {:induction false} NonCashSkipsCash(h: Holding, hs: seq<Holding>)
    requires h.symbol == "CASH"
    ensures NonCash(InsertBySymbol(h, hs)) == NonCash(hs)
    decreases |hs|
  {
    if |hs| == 0 || LexLt(h.symbol, hs[0].symbol) {
      assert ([h] + hs)[1..] == hs;
    } else {
      NonCashSkipsCash(h, hs[1..]);
      var r := InsertBySymbol(h, hs);
      assert r[0] == hs[0] && r[1..] == InsertBySymbol(h, hs[1..]);
    }
  }

  /** The non-CASH holdings add up to the cost, value and gain of the open
      positions: the CASH holding for the balance is not counted. */
  lemma HoldingsTotals(l: Ledger, prices: map<string, real>, prevCloses: map<string, real>, today: int)
    ensures var inv := NonCash(Holdings(l, prices, prevCloses, today));
      var held := SortedStrings(l.lots.Keys);
      && SumCostBasis(inv) == OpenCostOver(l.lots, held)
      && SumMarketValue(inv) == OpenValueOver(l.lots, held, prices)
      && SumUnrealized(inv) == OpenGainOver(l.lots, held, prices)
  {
    HoldingsOverTotals(l.lots, l.transactions, SortedStrings(l.lots.Keys), prices, prevCloses, today);
    var cash := CashBalance(l.cash, today);
    if cash > 0.0 {
      NonCashSkipsCash(CashHolding(cash), InvestmentHoldings(l, prices, prevCloses, today));
    }
  }

  /** The summary's investment figures come from the open positions: cost
      basis is the lot cost of every symbol still held, market value and
      unrealized P&L add up the positions with a known price, and realized
      P&L is sale proceeds less the cost of the shares sold. */
  lemma SummaryTotalsFromLots(l: Ledger, prices: map<string, real>, prevCloses: map<string, real>, today: int)
    ensures var r := Summary(l, prices, prevCloses, today);
      var held := SortedStrings(l.lots.Keys);
      var sold := SortedStrings(l.sales.Keys);
      && r.totalCostBasis == OpenCostOver(l.lots, held)
      && r.investmentMarketValue == OpenValueOver(l.lots, held, prices)
      && r.totalUnrealizedPnl == OpenGainOver(l.lots, held, prices)
      && r.totalRealizedPnl == ProceedsOver(l.sales, sold) - SoldCostOver(l.sales, sold)
  {
    HoldingsTotals(l, prices, prevCloses, today);
    RealizedIsProceedsLessSoldCost(l.sales, SortedStrings(l.sales.Keys));
  }

  /** A dividend changes neither the holdings nor the total P&L, which
      leaves dividends out; it only adds to the dividend figures. */
  lemma DividendLeavesPnlUnchanged(env: Env, l: Ledger, t: Transaction,
                                   prices: map<string, real>, prevCloses: map<string, real>, today: int)
    requires t.action == Div && Processable(t)
    ensures var before := Summary(l, prices, prevCloses, today);
      var after := Summary(Process(env, l, t), prices, prevCloses, today);
      && after.holdings == before.holdings
      && after.totalPnl == before.totalPnl
      && after.totalMarketValue == before.totalMarketValue
      && DividendsOf(Process(env, l, t), t.asset) == DividendsOf(l, t.asset) + [t.amount.value]
  {
    var r := Process(env, l, t);
    assert r == l.(dividends := r.dividends);
    SummaryIgnoresIncome(l, r.dividends, l.totalFees, prices, prevCloses, today);
  }

  /** Holdings, total P&L and market value do not read dividends or fees. */
  lemma SummaryIgnoresIncome(l: Ledger, dividends: map<string, seq<real>>, fees: real,
                             prices: map<string, real>, prevCloses: map<string, real>, today: int)
    ensures var before := Summary(l, prices, prevCloses, today);
      var after := Summary(l.(dividends := dividends, totalFees := fees), prices, prevCloses, today);
      && after.holdings == before.holdings
      && after.totalPnl == before.totalPnl
      && after.totalMarketValue == before.totalMarketValue
  {
    HoldingsIgnoreIncome(l, dividends, fees, prices, prevCloses, today);
  }

  /** The holdings do not read dividends or fees. */
  lemma HoldingsIgnoreIncome(l: Ledger, dividends: map<string, seq<real>>, fees: real,
                             prices: map<string, real>, prevCloses: map<string, real>, today: int)
    ensures Holdings(l.(dividends := dividends, totalFees := fees), prices, prevCloses, today)
         == Holdings(l, prices, prevCloses, today)
  {
    var l2 := l.(dividends := dividends, totalFees := fees);
    assert InvestmentHoldings(l2, prices, prevCloses, today) == InvestmentHoldings(l, prices, prevCloses, today);
  }

  /** A fee only adds to the fee total. */
  lemma FeeOnlyAddsToFees(env: Env, l: Ledger, t: Transaction,
                          prices: map<string, real>, prevCloses: map<string, real>, today: int)
    requires t.action == Fee && Processable(t)
    ensures var before := Summary(l, prices, prevCloses, today);
      var after := Summary(Process(env, l, t), prices, prevCloses, today);
      && after.totalFees == before.totalFees + t.amount.value
      && after.holdings == before.holdings
      && after.totalPnl == before.totalPnl
  {
    var r := Process(env, l, t);
    assert r == l.(totalFees := r.totalFees);
    SummaryIgnoresIncome(l, l.dividends, r.totalFees, prices, prevCloses, today);
  }

  lemma {:induction false} FirstCashAbsent(hs: seq<Holding>)
    requires forall i :: 0 <= i < |hs| ==> hs[i].symbol != "CASH"
    ensures FirstCash(hs) == None
    decreases |hs|
  {
    if |hs| > 0 {
      assert forall i :: 0 <= i < |hs| - 1 ==> hs[1..][i] == hs[i + 1];
      FirstCashAbsent(hs[1..]);
    }
  }

  lemma {:induction false} FirstCashInserted(h: Holding, hs: seq<Holding>)
    requires h.symbol == "CASH"
    requires forall i :: 0 <= i < |hs| ==> hs[i].symbol != "CASH"
    ensures FirstCash(InsertBySymbol(h, hs)) == Some(h)
    decreases |hs|
  {
    if |hs| > 0 && !LexLt(h.symbol, hs[0].symbol) {
      assert forall i :: 0 <= i < |hs| - 1 ==> hs[1..][i] == hs[i + 1];
      FirstCashInserted(h, hs[1..]);
      assert InsertBySymbol(h, hs)[1..] == InsertBySymbol(h, hs[1..]);
    }
  }

  /** When no position is named CASH, the total market value is the
      investment market value plus the cash balance on the day, counted only
      when positive. */
  lemma TotalIsInvestmentsPlusCash(l: Ledger, prices: map<string, real>, prevCloses: map<string, real>, today: int)
    requires Qty(LotsOf(l, "CASH")) <= 0.0
    ensures var r := Summary(l, prices, prevCloses, today);
      r.totalMarketValue == r.investmentMarketValue + Max(CashBalance(l.cash, today), 0.0)
  {
    CashValueIsBalance(l, prices, prevCloses, today);
  }

  /** With no position named CASH, the cash counted in the summary is the
      balance on the day when positive, else 0. */
  lemma CashValueIsBalance(l: Ledger, prices: map<string, real>, prevCloses: map<string, real>, today: int)
    requires Qty(LotsOf(l, "CASH")) <= 0.0
    ensures CashValue(Holdings(l, prices, prevCloses, today)) == Max(CashBalance(l.cash, today), 0.0)
  {
    var inv := InvestmentHoldings(l, prices, prevCloses, today);
    HoldingsOverSound(l.lots, l.transactions, SortedStrings(l.lots.Keys), prices, prevCloses, today);
    assert LotsOf(l, "CASH") == LotsAt(l.lots, "CASH");
    forall i | 0 <= i < |inv| ensures inv[i].symbol != "CASH" {
      assert Qty(LotsAt(l.lots, inv[i].symbol)) > 0.0;
    }
    var cash := CashBalance(l.cash, today);
    if cash > 0.0 {
      FirstCashInserted(CashHolding(cash), inv);
    } else {
      FirstCashAbsent(inv);
    }
  }
}
