/** The portfolio's value over time (`get_historical_values`) and its
    monthly investment history (`get_investment_history`), both computed by
    replaying the date-sorted transactions into a fresh ledger. Today's date
    comes from the environment; what the market-data provider would return
    for each symbol is a parameter. */
module History {
  import opened Common
  import opened Strings
  import opened Models
  import opened Ledger
  import opened Replay
  import opened Calendar
  import Cache
  import Prices
  import Valuation

  // ---------------------------------------------------------------------------
  // Daily values

  /** The actions that make a symbol's prices worth fetching. */
  predicate IsTrade(a: ActionType) {
    a == Buy || a == Sell || a == Gift || a == Gas
  }

  /** The symbols with a BUY, SELL, GIFT or GAS transaction. */
  function TradedSymbols(txns: seq<Transaction>): (r: set<string>)
    ensures forall s :: s in r <==> exists i :: 0 <= i < |txns| && txns[i].asset == s && IsTrade(txns[i].action)
  {
    set i | 0 <= i < |txns| && IsTrade(txns[i].action) :: txns[i].asset
  }

  /** The first day to compute: when the value cache reaches back to
      `start`, only the week before the cache cutoff onwards is recomputed. */
  function CalcStart(cached: map<int, Cache.ValueRow>, start: int, today: int): (c: int)
    ensures c >= start
    ensures (exists d :: d in cached && d <= start) ==>
      c == (if start < Cache.Cutoff(today) - 7 then Cache.Cutoff(today) - 7 else start)
    ensures !(exists d :: d in cached && d <= start) ==> c == start
  {
    if cached == map[] then start
    else if MinInt(cached.Keys) <= start then
      (if start < Cache.Cutoff(today) - 7 then Cache.Cutoff(today) - 7 else start)
    else start
  }

  /** Fetches the closes of each listed symbol through the price service,
      threading the cache through; a symbol without a provider answer counts
      as a failed fetch. */
  function FetchPrices(db: Cache.CacheDb, symbols: seq<string>, from: int, end: int, today: int,
                       providers: map<string, Option<map<int, real>>>): (r: (map<string, map<int, real>>, Cache.CacheDb))
    ensures forall s :: s in r.0 <==> s in symbols
    ensures forall s :: s in r.0 ==> forall d :: d in r.0[s] ==> from <= d <= end
    decreases |symbols|
  {
    if |symbols| == 0 then (map[], db)
    else
      var s := symbols[0];
      var fetched := Prices.HistoricalPrices(db, s, from, end, today, if s in providers then providers[s] else None);
      var rest := FetchPrices(fetched.1, symbols[1..], from, end, today, providers);
      (rest.0[s := fetched.0], rest.1)
  }

  /** Market value of the positions with a positive quantity and a known
      close on or before `day`. */
  function InvestmentValueOver(lots: map<string, seq<Lot>>, prices: map<string, map<int, real>>,
                               symbols: seq<string>, day: int): real
    decreases |symbols|
  {
    if |symbols| == 0 then 0.0
    else
      var s := symbols[0];
      var q := Qty(if s in lots then lots[s] else []);
      var here := if q > 0.0 && s in prices then
                    (match LatestValue(prices[s], day) case Some(p) => q * p case None => 0.0)
                  else 0.0;
      here + InvestmentValueOver(lots, prices, symbols[1..], day)
  }

  /** The row computed for one day from a replayed ledger. */
  function DayValue(l: Ledger, prices: map<string, map<int, real>>, day: int): (r: Cache.ValueRow)
    ensures r.costBasis == TotalLotCost(l)
    // every open symbol at its latest close on or before the day
    ensures r.investmentValue == InvestmentValueOver(l.lots, prices, SortedStrings(l.lots.Keys), day)
    ensures r.cashValue == Valuation.CashBalance(l.cash, day)
    ensures r.totalValue == r.investmentValue + r.cashValue
  {
    var inv := InvestmentValueOver(l.lots, prices, SortedStrings(l.lots.Keys), day);
    var cash := Valuation.CashBalance(l.cash, day);
    Cache.ValueRow(inv + cash, inv, TotalLotCost(l), cash)
  }

  /** The day loop: catch up with the transactions dated up to the day,
      value the ledger, and keep the row when the value is positive or some
      transaction has been processed. */
  function DayRows(env: Env, l: Ledger, idx: nat, sorted: seq<Transaction>,
                   prices: map<string, map<int, real>>, day: int, end: int): (r: seq<Cache.ValueRecord>)
    requires AllProcessable(sorted) && idx <= |sorted|
    decreases end + 1 - day
  {
    if day > end then []
    else
      var caught := CatchUp(env, l, sorted, idx, day);
      var row := DayValue(caught.0, prices, day);
      (if row.totalValue > 0.0 || caught.1 > 0 then [Cache.ValueRecord(day, row)] else [])
      + DayRows(env, caught.0, caught.1, sorted, prices, day + 1, end)
  }

  /** The reference row of a day: the value of a fresh ledger that has
      processed exactly the transactions dated on or before that day. */
  function ReferenceRow(env: Env, sorted: seq<Transaction>, prices: map<string, map<int, real>>, day: int): Cache.ValueRow
    requires AllProcessable(sorted)
  {
    DayValue(ReplayPrefix(env, sorted, CountThrough(sorted, day)), prices, day)
  }

  /** The reference series: every day from `day` through `end`, each valued
      from scratch, kept under the same rule as the day loop. */
  function ReferenceRows(env: Env, sorted: seq<Transaction>, prices: map<string, map<int, real>>,
                         day: int, end: int): (r: seq<Cache.ValueRecord>)
    requires AllProcessable(sorted)
    ensures forall i :: 0 <= i < |r| ==> day <= r[i].date <= end
    ensures forall i, j :: 0 <= i < j < |r| ==> r[i].date < r[j].date
    decreases end + 1 - day
  {
    if day > end then []
    else
      var row := ReferenceRow(env, sorted, prices, day);
      var head := if row.totalValue > 0.0 || CountThrough(sorted, day) > 0 then [Cache.ValueRecord(day, row)] else [];
      var rest := ReferenceRows(env, sorted, prices, day + 1, end);
      ConsDatedRows(head, rest, day, end);
      head + rest
  }

  /** A row for `day`, if any, in front of ascending rows dated after it. */
  lemma ConsDatedRows(head: seq<Cache.ValueRecord>, rest: seq<Cache.ValueRecord>, day: int, end: int)
    requires day <= end && |head| <= 1 && forall i :: 0 <= i < |head| ==> head[i].date == day
    requires forall i :: 0 <= i < |rest| ==> day + 1 <= rest[i].date <= end
    requires forall i, j :: 0 <= i < j < |rest| ==> rest[i].date < rest[j].date
    ensures forall i :: 0 <= i < |head + rest| ==> day <= (head + rest)[i].date <= end
    ensures forall i, j :: 0 <= i < j < |head + rest| ==> (head + rest)[i].date < (head + rest)[j].date
  {
    var r := head + rest;
    forall i | 0 <= i < |r| ensures day <= r[i].date <= end {
      if i >= |head| {
        assert r[i] == rest[i - |head|];
      }
    }
    forall i, j | 0 <= i < j < |r| ensures r[i].date < r[j].date {
      assert r[j] == rest[j - |head|];
      if i >= |head| {
        assert r[i] == rest[i - |head|];
      }
    }
  }

  /** The incremental day loop computes the reference series: carrying one
      ledger from day to day gives the same rows as replaying from scratch
      for every day. */
  lemma {:induction false} DayRowsMatchReference(env: Env, sorted: seq<Transaction>, prices: map<string, map<int, real>>,
                                                 day: int, end: int)
    requires AllProcessable(sorted)
    ensures var idx := CountThrough(sorted, day - 1);
      DayRows(env, ReplayPrefix(env, sorted, idx), idx, sorted, prices, day, end)
        == ReferenceRows(env, sorted, prices, day, end)
    decreases end + 1 - day
  {
    if day <= end {
      var idx := CountThrough(sorted, day - 1);
      CountThroughMonotone(sorted, day - 1, day);
      CatchUpIsReplay(env, sorted, idx, day);
      DayRowsMatchReference(env, sorted, prices, day + 1, end);
    }
  }

  /** The cached rows dated before `calcStart`, in date order. */
  function CachedBefore(cached: map<int, Cache.ValueRow>, dates: seq<int>, calcStart: int): (r: seq<Cache.ValueRecord>)
    requires forall d :: d in dates ==> d in cached
    ensures forall i :: 0 <= i < |r| ==> r[i].date < calcStart && r[i].date in cached && r[i].row == cached[r[i].date]
    decreases |dates|
  {
    if |dates| == 0 then []
    else
      (if dates[0] < calcStart then [Cache.ValueRecord(dates[0], cached[dates[0]])] else [])
      + CachedBefore(cached, dates[1..], calcStart)
  }

  /** Keeps the rows dated on or after `start`. */
  function FromDate(rows: seq<Cache.ValueRecord>, start: int): (r: seq<Cache.ValueRecord>)
    ensures forall x :: x in r <==> x in rows && x.date >= start
    decreases |rows|
  {
    if |rows| == 0 then []
    else (if rows[0].date >= start then [rows[0]] else []) + FromDate(rows[1..], start)
  }

  lemma {:induction false} FromDateKeepsAll(rows: seq<Cache.ValueRecord>, start: int)
    requires forall i :: 0 <= i < |rows| ==> rows[i].date >= start
    ensures FromDate(rows, start) == rows
    decreases |rows|
  {
    if |rows| > 0 {
      assert forall i :: 0 <= i < |rows| - 1 ==> rows[1..][i] == rows[i + 1];
      FromDateKeepsAll(rows[1..], start);
    }
  }

  function MinDate(txns: seq<Transaction>): (d: int)
    requires |txns| > 0
    ensures forall i :: 0 <= i < |txns| ==> d <= txns[i].date
    ensures exists i :: 0 <= i < |txns| && d == txns[i].date
  {
    if |txns| == 1 then txns[0].date
    else
      var rest := MinDate(txns[1..]);
      assert forall i :: 1 <= i < |txns| ==> txns[i] == txns[1..][i - 1];
      if txns[0].date <= rest then txns[0].date else rest
  }

  /** The fast-forward over transactions dated before the first day to
      compute, then the day loop. */
  function ComputedRows(env: Env, sorted: seq<Transaction>, prices: map<string, map<int, real>>,
                        calcStart: int, end: int): (r: seq<Cache.ValueRecord>)
    requires AllProcessable(sorted)
    ensures r == ReferenceRows(env, sorted, prices, calcStart, end)
  {
    var first := CatchUp(env, Empty, sorted, 0, calcStart - 1);
    assert ReplayPrefix(env, sorted, 0) == Empty by {
      assert sorted[..0] == [];
    }
    CatchUpIsReplay(env, sorted, 0, calcStart - 1);
    DayRowsMatchReference(env, sorted, prices, calcStart, end);
    DayRows(env, first.0, first.1, sorted, prices, calcStart, end)
  }

  function StartOf(l: Ledger, start: Option<int>): int
    requires |l.transactions| > 0
  {
    start.GetOr(MinDate(l.transactions))
  }

  /** The cached rows inside the requested range. */
  function CachedRange(env: Env, l: Ledger, db: Cache.CacheDb, start: Option<int>, end: Option<int>): map<int, Cache.ValueRow>
    requires |l.transactions| > 0
  {
    Cache.GetPortfolioValues(db, StartOf(l, start), end.GetOr(env.today), env.today)
  }

  function CalcStartOf(env: Env, l: Ledger, db: Cache.CacheDb, start: Option<int>, end: Option<int>): int
    requires |l.transactions| > 0
  {
    CalcStart(CachedRange(env, l, db, start, end), StartOf(l, start), env.today)
  }

  /** The closes of every traded symbol, from a week before the first day
      to compute, and the cache after fetching them. */
  function PricesFor(env: Env, l: Ledger, db: Cache.CacheDb, start: Option<int>, end: Option<int>,
                     providers: map<string, Option<map<int, real>>>): (map<string, map<int, real>>, Cache.CacheDb)
    requires |l.transactions| > 0
  {
    FetchPrices(db, SortedStrings(TradedSymbols(l.transactions)), CalcStartOf(env, l, db, start, end) - 7,
                end.GetOr(env.today), env.today, providers)
  }

  /** `get_historical_values`: returns the rows and the cache afterwards.
      Rows come in date order: the cached rows before the first day to
      compute, then the reference series from that day through the end date,
      each kept day valued from the transactions dated on or before it. */
  function HistoricalValues(env: Env, l: Ledger, db: Cache.CacheDb, start: Option<int>, end: Option<int>,
                            providers: map<string, Option<map<int, real>>>): (r: (seq<Cache.ValueRecord>, Cache.CacheDb))
    requires AllProcessable(l.transactions)
    ensures |l.transactions| == 0 ==> r == ([], db)
    ensures |l.transactions| > 0 ==>
      var cached := CachedRange(env, l, db, start, end);
      var calcStart := CalcStartOf(env, l, db, start, end);
      && AllProcessable(ByDate(l.transactions))
      && r.0 == CachedBefore(cached, SortedInts(cached.Keys), calcStart)
                + ReferenceRows(env, ByDate(l.transactions), PricesFor(env, l, db, start, end, providers).0,
                                calcStart, end.GetOr(env.today))
    // the computed rows are saved into the cache the prices were fetched into
    ensures |l.transactions| > 0 ==>
      var fetched := PricesFor(env, l, db, start, end, providers);
      && AllProcessable(ByDate(l.transactions))
      && var rows := ReferenceRows(env, ByDate(l.transactions), fetched.0, CalcStartOf(env, l, db, start, end),
                                   end.GetOr(env.today));
         r.1 == (if |rows| > 0 then Cache.SavePortfolioValuesBatch(fetched.1, rows, env.today).1 else fetched.1)
  {
    if |l.transactions| == 0 then ([], db)
    else
      var s := StartOf(l, start);
      var e := end.GetOr(env.today);
      var cached := CachedRange(env, l, db, start, end);
      var calcStart := CalcStartOf(env, l, db, start, end);
      var fetched := PricesFor(env, l, db, start, end, providers);
      var sorted := ByDate(l.transactions);
      ByDateProcessable(l.transactions);
      var rows := ComputedRows(env, sorted, fetched.0, calcStart, e);
      FromDateKeepsAll(rows, s);
      var saved := if |rows| > 0 then Cache.SavePortfolioValuesBatch(fetched.1, rows, env.today).1 else fetched.1;
      (CachedBefore(cached, SortedInts(cached.Keys), calcStart) + FromDate(rows, s), saved)
  }

  /** After the history is computed, every computed row old enough to be
      cached is read back from the returned cache. */
  lemma HistoryCachesComputedRows(env: Env, l: Ledger, db: Cache.CacheDb, start: Option<int>, end: Option<int>,
                                  providers: map<string, Option<map<int, real>>>)
    requires AllProcessable(l.transactions) && |l.transactions| > 0
    ensures AllProcessable(ByDate(l.transactions))
    ensures var rows := ReferenceRows(env, ByDate(l.transactions), PricesFor(env, l, db, start, end, providers).0,
                                      CalcStartOf(env, l, db, start, end), end.GetOr(env.today));
      var after := HistoricalValues(env, l, db, start, end, providers).1;
      forall i :: 0 <= i < |rows| && Cache.IsCacheable(rows[i].date, env.today) ==>
        var got := Cache.GetPortfolioValue(after, rows[i].date, env.today);
        got.Some? && got.value == rows[i].row
  {
    ByDateProcessable(l.transactions);
    var fetched := PricesFor(env, l, db, start, end, providers);
    var rows := ReferenceRows(env, ByDate(l.transactions), fetched.0, CalcStartOf(env, l, db, start, end),
                              end.GetOr(env.today));
    var after := HistoricalValues(env, l, db, start, end, providers).1;
    forall i | 0 <= i < |rows| && Cache.IsCacheable(rows[i].date, env.today)
      ensures var got := Cache.GetPortfolioValue(after, rows[i].date, env.today);
        got.Some? && got.value == rows[i].row
    {
      Cache.LastCacheableRowOfAscending(rows, i, env.today);
      Cache.BatchSaveEffect(fetched.1, rows, env.today, rows[i].date);
    }
  }

  ghost predicate DatesAscending(rows: seq<Cache.ValueRecord>) {
    forall i, j :: 0 <= i < j < |rows| ==> rows[i].date < rows[j].date
  }

  lemma {:induction false} CachedBeforeAscending(cached: map<int, Cache.ValueRow>, dates: seq<int>, calcStart: int)
    requires forall d :: d in dates ==> d in cached
    requires StrictlyAscending(dates)
    ensures DatesAscending(CachedBefore(cached, dates, calcStart))
    ensures forall i :: 0 <= i < |CachedBefore(cached, dates, calcStart)| ==>
      CachedBefore(cached, dates, calcStart)[i].date in dates
    decreases |dates|
  {
    if |dates| > 0 {
      var tail := dates[1..];
      assert StrictlyAscending(tail);
      CachedBeforeAscending(cached, tail, calcStart);
      var rest := CachedBefore(cached, tail, calcStart);
      var r := CachedBefore(cached, dates, calcStart);
      forall i | 0 <= i < |rest| ensures dates[0] < rest[i].date && rest[i].date in dates {
        var k :| 0 <= k < |tail| && tail[k] == rest[i].date;
        assert dates[k + 1] == tail[k];
      }
      if dates[0] < calcStart {
        assert r == [Cache.ValueRecord(dates[0], cached[dates[0]])] + rest;
        forall i, j | 0 <= i < j < |r| ensures r[i].date < r[j].date {
          assert r[j] == rest[j - 1];
          if i > 0 { assert r[i] == rest[i - 1]; }
        }
        forall i | 0 <= i < |r| ensures r[i].date in dates {
          if i > 0 { assert r[i] == rest[i - 1]; }
        }
      } else {
        assert r == rest;
      }
    }
  }

  /** The history comes out in strictly ascending date order, cached rows
      and computed rows never sharing a date. */
  lemma HistoricalDatesAscending(env: Env, l: Ledger, db: Cache.CacheDb, start: Option<int>, end: Option<int>,
                                 providers: map<string, Option<map<int, real>>>)
    requires AllProcessable(l.transactions)
    ensures DatesAscending(HistoricalValues(env, l, db, start, end, providers).0)
  {
    if |l.transactions| > 0 {
      var cached := CachedRange(env, l, db, start, end);
      var calcStart := CalcStartOf(env, l, db, start, end);
      ByDateProcessable(l.transactions);
      CachedThenComputedAscending(cached, calcStart,
        ReferenceRows(env, ByDate(l.transactions), PricesFor(env, l, db, start, end, providers).0,
                      calcStart, end.GetOr(env.today)));
    }
  }

  /** Cached rows before the first computed day, followed by computed rows
      in ascending order from that day, are in ascending order. */
  lemma CachedThenComputedAscending(cached: map<int, Cache.ValueRow>, calcStart: int, b: seq<Cache.ValueRecord>)
    requires forall i, j :: 0 <= i < j < |b| ==> b[i].date < b[j].date
    requires forall i :: 0 <= i < |b| ==> b[i].date >= calcStart
    ensures DatesAscending(CachedBefore(cached, SortedInts(cached.Keys), calcStart) + b)
  {
    CachedBeforeAscending(cached, SortedInts(cached.Keys), calcStart);
    AppendAscending(CachedBefore(cached, SortedInts(cached.Keys), calcStart), b, calcStart);
  }

  lemma AppendAscending(a: seq<Cache.ValueRecord>, b: seq<Cache.ValueRecord>, c: int)
    requires DatesAscending(a) && DatesAscending(b)
    requires forall i :: 0 <= i < |a| ==> a[i].date < c
    requires forall i :: 0 <= i < |b| ==> b[i].date >= c
    ensures DatesAscending(a + b)
  {
    var r := a + b;
    forall i, j | 0 <= i < j < |r| ensures r[i].date < r[j].date {
      if j < |a| {
        assert r[i] == a[i] && r[j] == a[j];
      } else if i >= |a| {
        assert r[i] == b[i - |a|] && r[j] == b[j - |a|];
      } else {
        assert r[i] == a[i] && r[j] == b[j - |a|];
      }
    }
  }
}
