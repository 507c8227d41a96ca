/** The persistent cache of daily closing prices and daily portfolio values
    (app/cache_service.py). The two tables are maps keyed like the tables'
    primary keys: (symbol, date) for prices and date for portfolio values.
    Only dates strictly before the cutoff, two days before today, are ever
    read from or written to the cache. */
module Cache {
  import opened Common

  /** Dates at least this many days old may be cached. */
  const ThresholdDays: int := 2

  /** The four amounts stored for one day of portfolio value. */
  datatype ValueRow = ValueRow(totalValue: real, investmentValue: real, costBasis: real, cashValue: real)

  /** A dated portfolio value, as the daily replay produces it. */
  datatype ValueRecord = ValueRecord(date: int, row: ValueRow)

  /** Both tables: symbol → date → close, and date → portfolio value. */
  datatype CacheDb = CacheDb(prices: map<string, map<int, real>>, values: map<int, ValueRow>)

  /** `_get_cache_cutoff_date`. */
  function Cutoff(today: int): (c: int)
    ensures c < today
  {
    today - ThresholdDays
  }

  /** `is_cacheable_date`: strictly before the cutoff. */
  predicate IsCacheable(d: int, today: int) {
    d < Cutoff(today)
  }

  /** A date is cacheable exactly when it lies more than two days in the past. */
  lemma CacheableIffOlderThanThreshold(d: int, today: int)
    ensures IsCacheable(d, today) <==> today - d > 2
  {
  }

  /** The last date a range read may return: the requested end, clipped to
      the day before the cutoff. */
  function EffectiveEnd(end: int, today: int): (e: int)
    ensures e <= end && e < Cutoff(today)
    ensures e == end || e == Cutoff(today) - 1
  {
    if end < Cutoff(today) - 1 then end else Cutoff(today) - 1
  }

  /** The stored prices of one symbol. */
  function PricesOf(db: CacheDb, symbol: string): map<int, real> {
    if symbol in db.prices then db.prices[symbol] else map[]
  }

  // ---------------------------------------------------------------------------
  // Historical prices

  /** `get_historical_price`: nothing for a recent date, else the stored close
      if there is one. */
  function GetHistoricalPrice(db: CacheDb, symbol: string, d: int, today: int): (r: Option<real>)
    ensures r.Some? <==> IsCacheable(d, today) && d in PricesOf(db, symbol)
    ensures r.Some? ==> r.value == PricesOf(db, symbol)[d]
  {
    if !IsCacheable(d, today) then None else Get(PricesOf(db, symbol), d)
  }

  /** `get_historical_prices`: the stored closes of `symbol` dated from
      `start` through `end`, never reaching the cutoff. */
  function GetHistoricalPrices(db: CacheDb, symbol: string, start: int, end: int, today: int): (r: map<int, real>)
    ensures forall d :: d in r <==>
      (d in PricesOf(db, symbol) && start <= d <= end && IsCacheable(d, today))
    ensures forall d :: d in r ==> r[d] == PricesOf(db, symbol)[d]
  {
    var e := EffectiveEnd(end, today);
    if start > e then map[] else Window(PricesOf(db, symbol), start, e)
  }

  /** `save_historical_price`: refuses a recent date and leaves the table
      alone; otherwise inserts or replaces the close. */
  function SaveHistoricalPrice(db: CacheDb, symbol: string, d: int, price: real, today: int): (r: (bool, CacheDb))
    ensures !r.0 <==> !IsCacheable(d, today)
    ensures !r.0 ==> r.1 == db
    ensures r.1.values == db.values
    ensures r.0 ==> PricesOf(r.1, symbol) == PricesOf(db, symbol)[d := price]
    ensures forall s :: s != symbol ==> PricesOf(r.1, s) == PricesOf(db, s)
  {
    if !IsCacheable(d, today) then (false, db)
    else (true, db.(prices := db.prices[symbol := PricesOf(db, symbol)[d := price]]))
  }

  /** The entries of a price map that may be cached. */
  function CacheablePrices(prices: map<int, real>, today: int): (r: map<int, real>)
    ensures forall d :: d in r <==> d in prices && IsCacheable(d, today)
    ensures forall d :: d in r ==> r[d] == prices[d]
  {
    map d | d in prices && IsCacheable(d, today) :: prices[d]
  }

  /** `save_historical_prices_batch`: stores every cacheable entry of
      `prices`, replacing what was stored for that date, and reports how many
      entries it stored. */
  function SaveHistoricalPricesBatch(db: CacheDb, symbol: string, prices: map<int, real>, today: int): (r: (nat, CacheDb))
    ensures r.0 == |CacheablePrices(prices, today)|
    ensures r.0 == 0 ==> r.1 == db
    ensures r.1.values == db.values
    ensures forall s :: s != symbol ==> PricesOf(r.1, s) == PricesOf(db, s)
    ensures forall d :: d in PricesOf(r.1, symbol) <==>
      (d in PricesOf(db, symbol) || (d in prices && IsCacheable(d, today)))
    ensures forall d :: d in PricesOf(r.1, symbol) ==>
      PricesOf(r.1, symbol)[d] == (if d in prices && IsCacheable(d, today) then prices[d] else PricesOf(db, symbol)[d])
  {
    var cacheable := CacheablePrices(prices, today);
    if |cacheable| == 0 then (0, db)
    else (|cacheable|, db.(prices := db.prices[symbol := PricesOf(db, symbol) + cacheable]))
  }

  /** A saved close is read back unchanged. */
  lemma SavedPriceIsRead(db: CacheDb, symbol: string, d: int, price: real, today: int)
    requires IsCacheable(d, today)
    ensures GetHistoricalPrice(SaveHistoricalPrice(db, symbol, d, price, today).1, symbol, d, today) == Some(price)
  {
  }

  /** A batch save followed by a range read over the same dates returns
      every cacheable entry of the batch. */
  lemma BatchSavedPricesAreRead(db: CacheDb, symbol: string, prices: map<int, real>, start: int, end: int, today: int)
    ensures var after := SaveHistoricalPricesBatch(db, symbol, prices, today).1;
      forall d :: d in prices && IsCacheable(d, today) && start <= d <= end ==>
        d in GetHistoricalPrices(after, symbol, start, end, today)
        && GetHistoricalPrices(after, symbol, start, end, today)[d] == prices[d]
  {
  }

  // ---------------------------------------------------------------------------
  // Portfolio values

  /** `get_portfolio_value`. */
  function GetPortfolioValue(db: CacheDb, d: int, today: int): (r: Option<ValueRow>)
    ensures r.Some? <==> IsCacheable(d, today) && d in db.values
    ensures r.Some? ==> r.value == db.values[d]
  {
    if !IsCacheable(d, today) then None else Get(db.values, d)
  }

  /** `get_portfolio_values`: the stored rows dated from `start` through
      `end`, never reaching the cutoff; empty when `start` is past that
      bound. */
  function GetPortfolioValues(db: CacheDb, start: int, end: int, today: int): (r: map<int, ValueRow>)
    ensures forall d :: d in r <==> (d in db.values && start <= d <= EffectiveEnd(end, today))
    ensures forall d :: d in r ==> r[d] == db.values[d]
    ensures start > EffectiveEnd(end, today) ==> r == map[]
  {
    var e := EffectiveEnd(end, today);
    if start > e then map[] else Window(db.values, start, e)
  }

  /** `save_portfolio_value`. */
  function SavePortfolioValue(db: CacheDb, d: int, row: ValueRow, today: int): (r: (bool, CacheDb))
    ensures !r.0 <==> !IsCacheable(d, today)
    ensures !r.0 ==> r.1 == db
    ensures r.1.prices == db.prices
    ensures r.0 ==> r.1.values == db.values[d := row]
  {
    if !IsCacheable(d, today) then (false, db)
    else (true, db.(values := db.values[d := row]))
  }

  /** Writes rows in order into the value table, skipping those dated on or
      after the cutoff (one `INSERT OR REPLACE` per row). */
  function StoreRows(values: map<int, ValueRow>, records: seq<ValueRecord>, today: int): map<int, ValueRow>
    decreases |records|
  {
    if |records| == 0 then values
    else
      var r := records[0];
      StoreRows(if IsCacheable(r.date, today) then values[r.date := r.row] else values, records[1..], today)
  }

  /** The row of the last cacheable record dated `d`, if any. */
  function LastCacheableRow(records: seq<ValueRecord>, d: int, today: int): Option<ValueRow>
    decreases |records|
  {
    if |records| == 0 then None
    else
      var r := records[|records| - 1];
      if r.date == d && IsCacheable(d, today) then Some(r.row)
      else LastCacheableRow(records[..|records| - 1], d, today)
  }

  /** In records with strictly ascending dates, the last cacheable record
      for a date is the only record with that date. */
  lemma {:induction false} LastCacheableRowOfAscending(records: seq<ValueRecord>, i: nat, today: int)
    requires forall j, k :: 0 <= j < k < |records| ==> records[j].date < records[k].date
    requires i < |records| && IsCacheable(records[i].date, today)
    ensures LastCacheableRow(records, records[i].date, today) == Some(records[i].row)
    decreases |records|
  {
    var n := |records|;
    if i < n - 1 {
      assert records[n - 1].date != records[i].date;
      var init := records[..n - 1];
      assert init[i] == records[i];
      LastCacheableRowOfAscending(init, i, today);
    }
  }

  /** The number of records that may be cached, duplicates included. */
  function CountCacheable(records: seq<ValueRecord>, today: int): (n: nat)
    ensures n <= |records|
  {
    if |records| == 0 then 0
    else (if IsCacheable(records[0].date, today) then 1 else 0) + CountCacheable(records[1..], today)
  }

  /** `save_portfolio_values_batch`: stores the cacheable records and counts
      them; the later of two records for the same date wins. */
  function SavePortfolioValuesBatch(db: CacheDb, records: seq<ValueRecord>, today: int): (r: (nat, CacheDb))
    ensures r.0 == CountCacheable(records, today)
    ensures r.1.prices == db.prices
    ensures r.0 == 0 ==> r.1 == db
  {
    if CountCacheable(records, today) == 0 then (0, db)
    else (CountCacheable(records, today), db.(values := StoreRows(db.values, records, today)))
  }

  lemma {:induction false} StoreRowsSnoc(values: map<int, ValueRow>, records: seq<ValueRecord>, x: ValueRecord, today: int)
    ensures StoreRows(values, records + [x], today)
      == (var m := StoreRows(values, records, today); if IsCacheable(x.date, today) then m[x.date := x.row] else m)
    decreases |records|
  {
    if |records| == 0 {
      assert ([] + [x])[1..] == [];
    } else {
      assert (records + [x])[1..] == records[1..] + [x];
      var r := records[0];
      StoreRowsSnoc(if IsCacheable(r.date, today) then values[r.date := r.row] else values, records[1..], x, today);
    }
  }

  /** After a batch save, a date holds the row of the last cacheable record
      for it, and a date no cacheable record names keeps what it had. */
  lemma {:induction false} StoreRowsLastWins(values: map<int, ValueRow>, records: seq<ValueRecord>, today: int, d: int)
    ensures var m := StoreRows(values, records, today);
      match LastCacheableRow(records, d, today)
      case Some(row) => d in m && m[d] == row
      case None => (d in m <==> d in values) && (d in m ==> m[d] == values[d])
    decreases |records|
  {
    if |records| > 0 {
      var init := records[..|records| - 1];
      var x := records[|records| - 1];
      assert records == init + [x];
      StoreRowsSnoc(values, init, x, today);
      StoreRowsLastWins(values, init, today, d);
    }
  }

  /** The whole effect of `save_portfolio_values_batch` on one date. */
  lemma BatchSaveEffect(db: CacheDb, records: seq<ValueRecord>, today: int, d: int)
    ensures var after := SavePortfolioValuesBatch(db, records, today).1;
      match LastCacheableRow(records, d, today)
      case Some(row) => d in after.values && after.values[d] == row
      case None => (d in after.values <==> d in db.values)
                   && (d in after.values ==> after.values[d] == db.values[d])
  {
    StoreRowsLastWins(db.values, records, today, d);
    if CountCacheable(records, today) == 0 {
      NoCacheableNoLast(records, today, d);
    }
  }

  lemma {:induction false} NoCacheableNoLast(records: seq<ValueRecord>, today: int, d: int)
    requires CountCacheable(records, today) == 0
    ensures LastCacheableRow(records, d, today) == None
    decreases |records|
  {
    if |records| > 0 {
      var init := records[..|records| - 1];
      CountCacheableSnoc(init, records[|records| - 1], today);
      assert records == init + [records[|records| - 1]];
      NoCacheableNoLast(init, today, d);
    }
  }

  lemma {:induction false} CountCacheableSnoc(records: seq<ValueRecord>, x: ValueRecord, today: int)
    ensures CountCacheable(records + [x], today)
      == CountCacheable(records, today) + (if IsCacheable(x.date, today) then 1 else 0)
    decreases |records|
  {
    if |records| == 0 {
      assert ([] + [x])[1..] == [];
    } else {
      assert (records + [x])[1..] == records[1..] + [x];
      CountCacheableSnoc(records[1..], x, today);
    }
  }

  /** A saved row is read back unchanged, and a read never returns a row at
      or after the cutoff. */
  lemma SavedValueIsRead(db: CacheDb, d: int, row: ValueRow, today: int)
    requires IsCacheable(d, today)
    ensures GetPortfolioValue(SavePortfolioValue(db, d, row, today).1, d, today) == Some(row)
    ensures GetPortfolioValues(SavePortfolioValue(db, d, row, today).1, d, d, today) == map[d := row]
  {
    var after := SavePortfolioValue(db, d, row, today).1;
    var r := GetPortfolioValues(after, d, d, today);
    assert forall k :: k in r <==> k == d;
  }

  // ---------------------------------------------------------------------------

  /** `clear_cache`: both tables become empty. */
  function ClearCache(db: CacheDb): (r: CacheDb)
    ensures r.prices == map[] && r.values == map[]
  {
    CacheDb(map[], map[])
  }

  /** After clearing, every read finds nothing. */
  lemma ClearedCacheReadsNothing(db: CacheDb, symbol: string, start: int, end: int, d: int, today: int)
    ensures GetHistoricalPrice(ClearCache(db), symbol, d, today) == None
    ensures GetHistoricalPrices(ClearCache(db), symbol, start, end, today) == map[]
    ensures GetPortfolioValue(ClearCache(db), d, today) == None
    ensures GetPortfolioValues(ClearCache(db), start, end, today) == map[]
  {
  }
}
