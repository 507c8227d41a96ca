/** `get_investment_history` (app/portfolio.py): per calendar month that
    has a transaction in the requested range, the BUY amounts per symbol and
    per category, and the total lot cost at the month's end from a replay of
    the date-sorted transactions. Dates are Python day ordinals, so they are
    at least 1. */
module Investments {
  import opened Common
  import opened Strings
  import opened Models
  import opened Ledger
  import opened Replay
  import opened Calendar
  import History

  // ---------------------------------------------------------------------------
  // Categories

  /** The chart category of a symbol: a fixed table first, then any `-USD`
      pair is crypto, and everything else is an individual stock. */
  function Category(symbol: string): string {
    if symbol in {"BTC-USD", "ETH-USD", "MSTR", "CRCL", "IBIT"} then "Crypto"
    else if symbol in {"VOO", "QQQM", "QQQ", "BRK-B", "SOXX"} then "Index"
    else if symbol == "CASH" then "Cash"
    else if EndsWith(symbol, "-USD") then "Crypto"
    else "Individual Stocks"
  }

  /** Every `-USD` pair is crypto, including the two the table lists; a
      symbol outside the table is an individual stock exactly when it is not
      such a pair. */
  lemma CategoryRule(symbol: string)
    ensures EndsWith(symbol, "-USD") ==> Category(symbol) == "Crypto"
    ensures Category(symbol) == "Individual Stocks" <==>
      symbol !in {"BTC-USD", "ETH-USD", "MSTR", "CRCL", "IBIT", "VOO", "QQQM", "QQQ", "BRK-B", "SOXX", "CASH"}
      && !EndsWith(symbol, "-USD")
  {
    if EndsWith(symbol, "-USD") {
      var n := |symbol|;
      assert symbol[n - 4] == '-' by { assert symbol[n - 4..][0] == '-'; }
      assert symbol != "VOO" && symbol != "QQQ";
      assert symbol != "QQQM" && symbol != "SOXX" && symbol != "CASH" by {
        assert symbol[n - 4..][0] == '-';
      }
      assert "BRK-B"[1] == 'R';
    }
  }

  // ---------------------------------------------------------------------------
  // Monthly BUY totals

  predicate InRange(t: Transaction, start: int, end: int) {
    start <= t.date <= end
  }

  /** A BUY's amount for the chart: its amount, 0 when missing. */
  function BuyAmount(t: Transaction): real {
    if t.amount.Some? then t.amount.value else 0.0
  }

  /** Whether `t` is a BUY in range that falls in month `k`. */
  predicate IsMonthBuy(t: Transaction, start: int, end: int, k: int) {
    t.action == Buy && InRange(t, start, end) && t.date >= 1 && MonthOf(t.date) == k
  }

  /** The key a BUY is totalled under: its symbol, or its category. */
  function KeyOf(t: Transaction, byCategory: bool): string {
    if byCategory then Category(t.asset) else t.asset
  }

  /** Whether `t` adds to the total of `key` in month `k`. */
  predicate Counts(t: Transaction, start: int, end: int, k: int, byCategory: bool, key: string) {
    IsMonthBuy(t, start, end, k) && KeyOf(t, byCategory) == key
  }

  function AddTo(m: map<string, real>, key: string, amount: real): map<string, real> {
    m[key := (if key in m then m[key] else 0.0) + amount]
  }

  /** Accumulates, in transaction order, the BUY amounts of month `k` per
      key (symbol or category). */
  function Accumulate(acc: map<string, real>, txns: seq<Transaction>, start: int, end: int, k: int,
                      byCategory: bool): map<string, real>
    decreases |txns|
  {
    if |txns| == 0 then acc
    else
      var t := txns[0];
      var next := if IsMonthBuy(t, start, end, k) then AddTo(acc, KeyOf(t, byCategory), BuyAmount(t)) else acc;
      Accumulate(next, txns[1..], start, end, k, byCategory)
  }

  /** The reference total: the BUY amounts of month `k` whose key is `key`. */
  function BuyTotal(txns: seq<Transaction>, start: int, end: int, k: int, byCategory: bool, key: string): real
    decreases |txns|
  {
    if |txns| == 0 then 0.0
    else
      (if Counts(txns[0], start, end, k, byCategory, key) then BuyAmount(txns[0]) else 0.0)
      + BuyTotal(txns[1..], start, end, k, byCategory, key)
  }

  /** Whether some transaction adds to the total of `key` in month `k`. */
  predicate HasBuy(txns: seq<Transaction>, start: int, end: int, k: int, byCategory: bool, key: string)
    decreases |txns|
  {
    |txns| > 0 && (Counts(txns[0], start, end, k, byCategory, key) || HasBuy(txns[1..], start, end, k, byCategory, key))
  }

  /** The accumulated map has an entry exactly for the keys with a BUY in
      the month, holding the sum of their amounts. */
  lemma {:induction false} AccumulateIsTotal(acc: map<string, real>, txns: seq<Transaction>, start: int, end: int,
                                             k: int, byCategory: bool, key: string)
    ensures key in Accumulate(acc, txns, start, end, k, byCategory)
      <==> key in acc || HasBuy(txns, start, end, k, byCategory, key)
    ensures key in Accumulate(acc, txns, start, end, k, byCategory) ==>
      Accumulate(acc, txns, start, end, k, byCategory)[key]
        == (if key in acc then acc[key] else 0.0) + BuyTotal(txns, start, end, k, byCategory, key)
    decreases |txns|
  {
    if |txns| > 0 {
      var t := txns[0];
      var next := if IsMonthBuy(t, start, end, k) then AddTo(acc, KeyOf(t, byCategory), BuyAmount(t)) else acc;
      AccumulateIsTotal(next, txns[1..], start, end, k, byCategory, key);
    }
  }

  /** `HasBuy` finds exactly the keys of the month's BUYs. */
  lemma {:induction false} HasBuyIsExists(txns: seq<Transaction>, start: int, end: int, k: int, byCategory: bool, key: string)
    ensures HasBuy(txns, start, end, k, byCategory, key)
      <==> exists i :: 0 <= i < |txns| && Counts(txns[i], start, end, k, byCategory, key)
    decreases |txns|
  {
    if |txns| > 0 {
      HasBuyIsExists(txns[1..], start, end, k, byCategory, key);
      if exists i :: 0 <= i < |txns[1..]| && Counts(txns[1..][i], start, end, k, byCategory, key) {
        var i :| 0 <= i < |txns[1..]| && Counts(txns[1..][i], start, end, k, byCategory, key);
        assert txns[i + 1] == txns[1..][i];
      }
      if exists i :: 0 <= i < |txns| && Counts(txns[i], start, end, k, byCategory, key) {
        var i :| 0 <= i < |txns| && Counts(txns[i], start, end, k, byCategory, key);
        if i > 0 {
          assert txns[1..][i - 1] == txns[i];
        }
      }
    }
  }

  /** One tooltip entry: a symbol bought during the month and the amount. */
  datatype BuyDetail = BuyDetail(symbol: string, amount: real)

  /** The tooltip entries: symbols in order, only positive totals. */
  function DetailsOver(buys: map<string, real>, symbols: seq<string>): (r: seq<BuyDetail>)
    requires forall s :: s in symbols ==> s in buys
    ensures forall i :: 0 <= i < |r| ==> r[i].symbol in symbols && r[i].amount == buys[r[i].symbol] && r[i].amount > 0.0
    decreases |symbols|
  {
    if |symbols| == 0 then []
    else
      var s := symbols[0];
      var rest := DetailsOver(buys, symbols[1..]);
      assert forall i :: 0 <= i < |rest| ==> rest[i].symbol in symbols by {
        forall i | 0 <= i < |rest| ensures rest[i].symbol in symbols {
          var x := rest[i].symbol;
          var j :| 0 <= j < |symbols[1..]| && symbols[1..][j] == x;
          assert symbols[j + 1] == x;
        }
      }
      (if buys[s] > 0.0 then [BuyDetail(s, buys[s])] else []) + rest
  }

  /** Every symbol with a positive total gets an entry. */
  lemma {:induction false} DetailsOverComplete(buys: map<string, real>, symbols: seq<string>, s: string)
    requires forall x :: x in symbols ==> x in buys
    requires s in symbols && buys[s] > 0.0
    ensures exists i :: 0 <= i < |DetailsOver(buys, symbols)| && DetailsOver(buys, symbols)[i] == BuyDetail(s, buys[s])
    decreases |symbols|
  {
    var r := DetailsOver(buys, symbols);
    if symbols[0] == s {
      assert r[0] == BuyDetail(s, buys[s]);
    } else {
      assert s in symbols[1..];
      DetailsOverComplete(buys, symbols[1..], s);
      var rest := DetailsOver(buys, symbols[1..]);
      var i :| 0 <= i < |rest| && rest[i] == BuyDetail(s, buys[s]);
      assert r[|r| - |rest| + i] == rest[i];
    }
  }

  // ---------------------------------------------------------------------------
  // Monthly rows

  /** One month of the history. */
  datatype MonthRow = MonthRow(
    month: int,                       // 12 * year + (month - 1)
    costBasis: real,
    netInvestment: real,
    transactions: seq<BuyDetail>,
    byCategory: map<string, real>)

  /** The months that have a transaction, of any action, in the range. */
  function MonthsIn(txns: seq<Transaction>, start: int, end: int): (r: set<int>)
    requires forall i :: 0 <= i < |txns| ==> txns[i].date >= 1
    ensures forall k :: k in r ==> k >= 12
  {
    set i | 0 <= i < |txns| && InRange(txns[i], start, end) :: MonthOf(txns[i].date)
  }

  /** The month loop: catch up to the month's last day, take the total lot
      cost, and report its change since the previous month. */
  function MonthRows(env: Env, sorted: seq<Transaction>, start: int, end: int, months: seq<int>,
                     l: Ledger, idx: nat, prev: real): (r: seq<MonthRow>)
    requires AllProcessable(sorted) && idx <= |sorted|
    requires forall i :: 0 <= i < |months| ==> months[i] >= 12
    ensures |r| == |months|
    ensures forall i :: 0 <= i < |r| ==> r[i].month == months[i]
    decreases |months|
  {
    if |months| == 0 then []
    else
      var k := months[0];
      var caught := CatchUp(env, l, sorted, idx, MonthEnd(k));
      var cost := TotalLotCost(caught.0);
      var rest := MonthRows(env, sorted, start, end, months[1..], caught.0, caught.1, cost);
      assert forall i :: 1 <= i < |months| ==> rest[i - 1].month == months[i];
      [MonthRowOf(sorted, start, end, k, cost, prev)] + rest
  }

  /** The row of month `k`, given its cost basis and the previous month's. */
  function MonthRowOf(sorted: seq<Transaction>, start: int, end: int, k: int, cost: real, prev: real): (r: MonthRow)
    ensures r.month == k && r.costBasis == cost && r.netInvestment == cost - prev
  {
    var buys := Accumulate(map[], sorted, start, end, k, false);
    MonthRow(k, cost, cost - prev, DetailsOver(buys, SortedStrings(buys.Keys)),
             Accumulate(map[], sorted, start, end, k, true))
  }

  function SumNet(rows: seq<MonthRow>): real {
    if |rows| == 0 then 0.0 else rows[0].netInvestment + SumNet(rows[1..])
  }

  /** The monthly net investments telescope: together they are the change in
      total lot cost from before the first month to the end of the last. */
  lemma {:induction false} NetInvestmentTelescopes(env: Env, sorted: seq<Transaction>, start: int, end: int,
                                                   months: seq<int>, l: Ledger, idx: nat, prev: real)
    requires AllProcessable(sorted) && idx <= |sorted|
    requires forall i :: 0 <= i < |months| ==> months[i] >= 12
    ensures var r := MonthRows(env, sorted, start, end, months, l, idx, prev);
      SumNet(r) == (if |r| == 0 then 0.0 else r[|r| - 1].costBasis - prev)
    decreases |months|
  {
    if |months| > 0 {
      var caught := CatchUp(env, l, sorted, idx, MonthEnd(months[0]));
      var cost := TotalLotCost(caught.0);
      var rest := MonthRows(env, sorted, start, end, months[1..], caught.0, caught.1, cost);
      var h := MonthRowOf(sorted, start, end, months[0], cost, prev);
      MonthRowsUnfold(env, sorted, start, end, months, l, idx, prev);
      NetInvestmentTelescopes(env, sorted, start, end, months[1..], caught.0, caught.1, cost);
      var r := [h] + rest;
      assert SumNet(r) == h.netInvestment + SumNet(rest) by {
        assert r[1..] == rest;
      }
      if |rest| > 0 {
        assert r[|r| - 1] == rest[|rest| - 1];
      }
    }
  }

  /** One step of the month loop. */
  lemma MonthRowsUnfold(env: Env, sorted: seq<Transaction>, start: int, end: int, months: seq<int>,
                        l: Ledger, idx: nat, prev: real)
    requires AllProcessable(sorted) && idx <= |sorted| && |months| > 0
    requires forall i :: 0 <= i < |months| ==> months[i] >= 12
    ensures var caught := CatchUp(env, l, sorted, idx, MonthEnd(months[0]));
      MonthRows(env, sorted, start, end, months, l, idx, prev)
      == [MonthRowOf(sorted, start, end, months[0], TotalLotCost(caught.0), prev)]
         + MonthRows(env, sorted, start, end, months[1..], caught.0, caught.1, TotalLotCost(caught.0))
  {
  }

  /** Every row's cost basis is from a replay of exactly the transactions
      dated on or before the month's last day. */
  ghost predicate CostsAreReplays(env: Env, sorted: seq<Transaction>, rows: seq<MonthRow>)
    requires AllProcessable(sorted)
  {
    forall i :: 0 <= i < |rows| && rows[i].month >= 12 ==>
      rows[i].costBasis == TotalLotCost(ReplayPrefix(env, sorted, CountThrough(sorted, MonthEnd(rows[i].month))))
  }

  lemma MonthEndMonotone(j: int, k: int)
    requires 12 <= j <= k
    ensures MonthEnd(j) <= MonthEnd(k)
  {
    MonthStartMonotone(j + 1, k + 1);
  }

  lemma {:induction false} MonthRowsAreReplays(env: Env, sorted: seq<Transaction>, start: int, end: int,
                                               months: seq<int>, day: int, prev: real)
    requires AllProcessable(sorted)
    requires forall i :: 0 <= i < |months| ==> months[i] >= 12 && day <= MonthEnd(months[i])
    requires StrictlyAscending(months)
    ensures var idx := CountThrough(sorted, day);
      CostsAreReplays(env, sorted, MonthRows(env, sorted, start, end, months, ReplayPrefix(env, sorted, idx), idx, prev))
    decreases |months|
  {
    if |months| > 0 {
      var idx := CountThrough(sorted, day);
      var k := months[0];
      var e := MonthEnd(k);
      CountThroughMonotone(sorted, day, e);
      CatchUpIsReplay(env, sorted, idx, e);
      var n := CountThrough(sorted, e);
      var tail := months[1..];
      forall i | 0 <= i < |tail| ensures tail[i] >= 12 && e <= MonthEnd(tail[i]) {
        assert tail[i] == months[i + 1];
        MonthEndMonotone(k, months[i + 1]);
      }
      assert StrictlyAscending(tail);
      var cost := TotalLotCost(ReplayPrefix(env, sorted, n));
      MonthRowsAreReplays(env, sorted, start, end, tail, e, cost);
      var r := MonthRows(env, sorted, start, end, months, ReplayPrefix(env, sorted, idx), idx, prev);
      var rest := MonthRows(env, sorted, start, end, tail, ReplayPrefix(env, sorted, n), n, cost);
      assert r[1..] == rest;
      forall i | 0 <= i < |r| && r[i].month >= 12
        ensures r[i].costBasis == TotalLotCost(ReplayPrefix(env, sorted, CountThrough(sorted, MonthEnd(r[i].month))))
      {
        if i > 0 {
          assert r[i] == rest[i - 1];
        }
      }
    }
  }

  lemma ByDateDatesPositive(txns: seq<Transaction>)
    requires forall i :: 0 <= i < |txns| ==> txns[i].date >= 1
    ensures forall i :: 0 <= i < |ByDate(txns)| ==> ByDate(txns)[i].date >= 1
  {
    var r := ByDate(txns);
    forall i | 0 <= i < |r| ensures r[i].date >= 1 {
      assert r[i] in multiset(txns);
      var j :| 0 <= j < |txns| && txns[j] == r[i];
    }
  }

  /** The first day of the history: the given start, else the earliest
      transaction date. */
  function StartDay(l: Ledger, start: Option<int>): (s: int)
    requires |l.transactions| > 0
    ensures start.None? ==> exists i :: 0 <= i < |l.transactions| && s == l.transactions[i].date
    ensures start.None? ==> forall i :: 0 <= i < |l.transactions| ==> s <= l.transactions[i].date
  {
    start.GetOr(History.MinDate(l.transactions))
  }

  /** The months of the range that have a transaction, in ascending order. */
  function HistoryMonths(txns: seq<Transaction>, s: int, e: int): (months: seq<int>)
    requires forall i :: 0 <= i < |txns| ==> txns[i].date >= 1
    ensures StrictlyAscending(months)
    ensures forall i :: 0 <= i < |months| ==> months[i] in MonthsIn(txns, s, e) && months[i] >= 12
    ensures forall k :: k in MonthsIn(txns, s, e) ==> k in months
  {
    SortedInts(MonthsIn(txns, s, e))
  }

  /** The cost basis the history starts from: a replay of every transaction
      dated before the start day. */
  function OpeningCost(env: Env, sorted: seq<Transaction>, s: int): real
    requires AllProcessable(sorted)
  {
    TotalLotCost(ReplayPrefix(env, sorted, CountThrough(sorted, s - 1)))
  }

  /** The fast-forward over transactions dated before the start day, then the
      month loop; the fast-forward lands on a replay of exactly those
      transactions. */
  function HistoryRows(env: Env, sorted: seq<Transaction>, s: int, e: int): (r: seq<MonthRow>)
    requires AllProcessable(sorted)
    requires forall i :: 0 <= i < |sorted| ==> sorted[i].date >= 1
    ensures var n := CountThrough(sorted, s - 1);
      r == MonthRows(env, sorted, s, e, HistoryMonths(sorted, s, e), ReplayPrefix(env, sorted, n), n,
                     OpeningCost(env, sorted, s))
  {
    var first := CatchUp(env, Empty, sorted, 0, s - 1);
    assert ReplayPrefix(env, sorted, 0) == Empty by {
      assert sorted[..0] == [];
    }
    CatchUpIsReplay(env, sorted, 0, s - 1);
    MonthRows(env, sorted, s, e, HistoryMonths(sorted, s, e), first.0, first.1, TotalLotCost(first.0))
  }

  /** `get_investment_history`. */
  function InvestmentHistory(env: Env, l: Ledger, start: Option<int>, end: Option<int>): (r: seq<MonthRow>)
    requires AllProcessable(l.transactions)
    requires forall i :: 0 <= i < |l.transactions| ==> l.transactions[i].date >= 1
    ensures |l.transactions| == 0 ==> r == []
    ensures |l.transactions| > 0 ==> AllProcessable(ByDate(l.transactions))
    ensures |l.transactions| > 0 ==> forall i :: 0 <= i < |ByDate(l.transactions)| ==> ByDate(l.transactions)[i].date >= 1
  {
    if |l.transactions| == 0 then []
    else
      ByDateProcessable(l.transactions);
      ByDateDatesPositive(l.transactions);
      HistoryRows(env, ByDate(l.transactions), StartDay(l, start), end.GetOr(env.today))
  }

  /** Rows in strictly ascending month order. */
  predicate MonthsAscending(r: seq<MonthRow>) {
    forall i, j :: 0 <= i < j < |r| ==> r[i].month < r[j].month
  }

  /** The month set of the rows. */
  function RowMonths(r: seq<MonthRow>): set<int> {
    set i | 0 <= i < |r| :: r[i].month
  }

  /** A permutation has the same months in range. */
  lemma MonthsInPermuted(a: seq<Transaction>, b: seq<Transaction>, s: int, e: int)
    requires multiset(a) == multiset(b)
    requires forall i :: 0 <= i < |a| ==> a[i].date >= 1
    requires forall i :: 0 <= i < |b| ==> b[i].date >= 1
    ensures MonthsIn(a, s, e) == MonthsIn(b, s, e)
  {
    forall k | k in MonthsIn(a, s, e) ensures k in MonthsIn(b, s, e) {
      var i :| 0 <= i < |a| && InRange(a[i], s, e) && MonthOf(a[i].date) == k;
      assert a[i] in multiset(b);
      var j :| 0 <= j < |b| && b[j] == a[i];
    }
    forall k | k in MonthsIn(b, s, e) ensures k in MonthsIn(a, s, e) {
      var i :| 0 <= i < |b| && InRange(b[i], s, e) && MonthOf(b[i].date) == k;
      assert b[i] in multiset(a);
      var j :| 0 <= j < |a| && a[j] == b[i];
    }
  }

  /** One row per month that has a transaction in the range, in ascending
      month order. */
  lemma {:induction false} HistoryRowsMonths(env: Env, sorted: seq<Transaction>, s: int, e: int)
    requires AllProcessable(sorted)
    requires forall i :: 0 <= i < |sorted| ==> sorted[i].date >= 1
    ensures MonthsAscending(HistoryRows(env, sorted, s, e))
    ensures RowMonths(HistoryRows(env, sorted, s, e)) == MonthsIn(sorted, s, e)
  {
    var months := HistoryMonths(sorted, s, e);
    var n := CountThrough(sorted, s - 1);
    MonthRowsFollowMonths(env, sorted, s, e, months, ReplayPrefix(env, sorted, n), n, OpeningCost(env, sorted, s));
    assert forall k :: k in MonthsIn(sorted, s, e) <==> k in months;
  }

  /** The month loop emits one row per month, in the months' order. */
  lemma MonthRowsFollowMonths(env: Env, sorted: seq<Transaction>, start: int, end: int, months: seq<int>,
                              l: Ledger, idx: nat, prev: real)
    requires AllProcessable(sorted) && idx <= |sorted|
    requires forall i :: 0 <= i < |months| ==> months[i] >= 12
    requires StrictlyAscending(months)
    ensures MonthsAscending(MonthRows(env, sorted, start, end, months, l, idx, prev))
    ensures forall k :: k in RowMonths(MonthRows(env, sorted, start, end, months, l, idx, prev)) <==> k in months
  {
    var r := MonthRows(env, sorted, start, end, months, l, idx, prev);
    forall k | k in months ensures k in RowMonths(r) {
      var i :| 0 <= i < |months| && months[i] == k;
      assert r[i].month == k;
    }
  }

  /** Each month's cost basis is the total lot cost after replaying exactly
      the transactions dated up to the month's last day. */
  lemma {:induction false} HistoryRowsCosts(env: Env, sorted: seq<Transaction>, s: int, e: int)
    requires AllProcessable(sorted)
    requires forall i :: 0 <= i < |sorted| ==> sorted[i].date >= 1
    ensures CostsAreReplays(env, sorted, HistoryRows(env, sorted, s, e))
  {
    var months := HistoryMonths(sorted, s, e);
    forall i | 0 <= i < |months| ensures months[i] >= 12 && s - 1 <= MonthEnd(months[i]) {
      var j :| 0 <= j < |sorted| && InRange(sorted[j], s, e) && MonthOf(sorted[j].date) == months[i];
    }
    MonthRowsAreReplays(env, sorted, s, e, months, s - 1, OpeningCost(env, sorted, s));
  }

  /** The net investments add up to the change in cost basis from before
      the start day to the end of the last month. */
  lemma {:induction false} HistoryRowsNet(env: Env, sorted: seq<Transaction>, s: int, e: int)
    requires AllProcessable(sorted)
    requires forall i :: 0 <= i < |sorted| ==> sorted[i].date >= 1
    ensures var r := HistoryRows(env, sorted, s, e);
      SumNet(r) == (if |r| == 0 then 0.0 else r[|r| - 1].costBasis - OpeningCost(env, sorted, s))
  {
    var n := CountThrough(sorted, s - 1);
    NetInvestmentTelescopes(env, sorted, s, e, HistoryMonths(sorted, s, e), ReplayPrefix(env, sorted, n), n,
                            OpeningCost(env, sorted, s));
  }

  /** The months of `get_investment_history` are those of the ledger's own
      transactions in the range, whatever their order. */
  lemma InvestmentHistoryMonths(env: Env, l: Ledger, start: Option<int>, end: Option<int>)
    requires AllProcessable(l.transactions) && |l.transactions| > 0
    requires forall i :: 0 <= i < |l.transactions| ==> l.transactions[i].date >= 1
    ensures RowMonths(InvestmentHistory(env, l, start, end))
      == MonthsIn(l.transactions, StartDay(l, start), end.GetOr(env.today))
  {
    var sorted := ByDate(l.transactions);
    ByDateProcessable(l.transactions);
    ByDateDatesPositive(l.transactions);
    HistoryRowsMonths(env, sorted, StartDay(l, start), end.GetOr(env.today));
    MonthsInPermuted(sorted, l.transactions, StartDay(l, start), end.GetOr(env.today));
  }
}
