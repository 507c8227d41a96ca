/** The pure parts of the price service (app/price_service.py): the crypto
    suffix test, the previous-close choice over a daily close series, and
    how historical closes are assembled from the cache and a fresh fetch.
    The market-data provider is a parameter: the closes it would return, or
    `None` when the fetch fails. */
module Prices {
  import opened Common
  import opened Strings
  import Cache

  /** `_is_crypto_symbol`: traded around the clock, recognised by its quote
      currency suffix. */
  predicate IsCryptoSymbol(symbol: string) {
    EndsWith(symbol, "-USD") || EndsWith(symbol, "-USDT")
    || EndsWith(symbol, "-BTC") || EndsWith(symbol, "-ETH")
  }

  /** The suffix decides, whatever comes before it. */
  lemma AnyBaseWithSuffixIsCrypto(base: string)
    ensures IsCryptoSymbol(base + "-USD") && IsCryptoSymbol(base + "-USDT")
    ensures IsCryptoSymbol(base + "-BTC") && IsCryptoSymbol(base + "-ETH")
  {
    var s := base + "-USD";
    assert s[|s| - 4..] == "-USD";
    var t := base + "-USDT";
    assert t[|t| - 5..] == "-USDT";
    var u := base + "-BTC";
    assert u[|u| - 4..] == "-BTC";
    var v := base + "-ETH";
    assert v[|v| - 4..] == "-ETH";
  }

  /** Every suffix starts with a dash, so a symbol without one, such as a
      bare currency code or a stock ticker, is never crypto. */
  lemma CryptoNeedsDash(symbol: string)
    requires forall i :: 0 <= i < |symbol| ==> symbol[i] != '-'
    ensures !IsCryptoSymbol(symbol)
  {
    var n := |symbol|;
    if n >= 4 {
      assert symbol[n - 4..][0] == symbol[n - 4];
    }
    if n >= 5 {
      assert symbol[n - 5..][0] == symbol[n - 5];
    }
  }

  // ---------------------------------------------------------------------------
  // Previous close

  /** One daily bar of a close series; the close may be missing. */
  datatype Bar = Bar(date: int, close: Option<real>)

  /** The bars that carry a close, in series order (`dropna`). */
  function Present(series: seq<Bar>): (r: seq<Bar>)
    ensures |r| <= |series|
    ensures forall i :: 0 <= i < |r| ==> r[i].close.Some?
  {
    if |series| == 0 then []
    else (if series[0].close.Some? then [series[0]] else []) + Present(series[1..])
  }

  /** `_get_prev_close_from_series`: the close of the most recent completed
      session. If the last bar with a close is dated today it is a partial
      session, so the bar before it is used when there is one. */
  function PrevCloseFromSeries(series: seq<Bar>, today: int): (r: Option<real>)
    ensures r.None? <==> forall b :: b in series ==> b.close.None?
    ensures r.Some? ==> exists b :: b in series && b.close == Some(r.value)
  {
    var present := Present(series);
    PresentIsComplete(series);
    if |present| == 0 then
      None
    else
      var last := present[|present| - 1];
      var chosen := if last.date == today && |present| >= 2 then present[|present| - 2] else last;
      PresentIndex(series, chosen);
      Some(chosen.close.value)
  }

  /** With bars in strictly ascending date order and none after today, the
      previous close is the close of the latest bar dated before today; only
      when today's bar is the sole bar with a close is today's close used. */
  lemma {:induction false} PrevCloseIsLatestBeforeToday(series: seq<Bar>, today: int, i: nat)
    requires forall j, k :: 0 <= j < k < |series| ==> series[j].date < series[k].date
    requires forall j :: 0 <= j < |series| ==> series[j].date <= today
    requires i < |series| && series[i].close.Some? && series[i].date < today
    requires forall j :: i < j < |series| && series[j].date < today ==> series[j].close.None?
    ensures PrevCloseFromSeries(series, today) == series[i].close
  {
    var present := Present(series);
    PresentOrder(series);
    PresentIsComplete(series);
    PresentInSeries(series);
    assert series[i] in present;
    var p :| 0 <= p < |present| && present[p] == series[i];
    LaterPresentBarsAreToday(series, today, i, present, p);
    ChosenBar(present, today, p);
  }

  lemma LaterPresentBarsAreToday(series: seq<Bar>, today: int, i: nat, present: seq<Bar>, p: nat)
    requires forall j, k :: 0 <= j < k < |series| ==> series[j].date < series[k].date
    requires forall j :: 0 <= j < |series| ==> series[j].date <= today
    requires i < |series| && series[i].date < today
    requires forall j :: i < j < |series| && series[j].date < today ==> series[j].close.None?
    requires forall q :: 0 <= q < |present| ==> present[q] in series && present[q].close.Some?
    requires forall j, k :: 0 <= j < k < |present| ==> present[j].date < present[k].date
    requires p < |present| && present[p] == series[i]
    ensures forall q :: p < q < |present| ==> present[q].date == today
  {
    forall q | p < q < |present| ensures present[q].date == today {
      var j :| 0 <= j < |series| && series[j] == present[q];
      assert series[i].date < series[j].date;
      assert i < j;
    }
  }

  /** Every present bar is a bar of the series. */
  lemma PresentInSeries(series: seq<Bar>)
    ensures forall q :: 0 <= q < |Present(series)| ==> Present(series)[q] in series
  {
    var present := Present(series);
    forall q | 0 <= q < |present| ensures present[q] in series {
      PresentIndex(series, present[q]);
    }
  }

  /** On the present bars: if every bar after position `p` is today's, the
      bar chosen as previous close is the one at `p`. */
  lemma ChosenBar(present: seq<Bar>, today: int, p: nat)
    requires forall j, k :: 0 <= j < k < |present| ==> present[j].date < present[k].date
    requires p < |present| && present[p].date < today
    requires forall q :: p < q < |present| ==> present[q].date == today
    ensures var n := |present|;
      var last := present[n - 1];
      (if last.date == today && n >= 2 then present[n - 2] else last) == present[p]
  {
    var n := |present|;
    assert n >= 2 ==> present[n - 2].date < present[n - 1].date;
    assert p >= n - 2;
  }

  /** Present keeps the strict date order of the series. */
  lemma {:induction false} PresentOrder(series: seq<Bar>)
    requires forall j, k :: 0 <= j < k < |series| ==> series[j].date < series[k].date
    ensures forall j, k :: 0 <= j < k < |Present(series)| ==> Present(series)[j].date < Present(series)[k].date
    decreases |series|
  {
    if |series| > 0 {
      PresentOrder(series[1..]);
      var rest := Present(series[1..]);
      forall k | 0 <= k < |rest| ensures series[0].date < rest[k].date {
        PresentIndex(series[1..], rest[k]);
        var m :| 0 <= m < |series[1..]| && series[1..][m] == rest[k];
        assert series[m + 1] == rest[k];
      }
    }
  }

  /** Every kept bar comes from the series. */
  lemma {:induction false} PresentIndex(series: seq<Bar>, b: Bar)
    requires b in Present(series)
    ensures exists j :: 0 <= j < |series| && series[j] == b
    decreases |series|
  {
    if b != series[0] {
      PresentIndex(series[1..], b);
      var j :| 0 <= j < |series[1..]| && series[1..][j] == b;
      assert series[j + 1] == b;
    }
  }

  /** The last bar with a close is the previous close unless it is dated
      today. */
  lemma PrevCloseIsLastBar(series: seq<Bar>, today: int, i: nat)
    requires i < |series| && series[i].close.Some? && series[i].date != today
    requires forall k :: i < k < |series| ==> series[k].close.None?
    ensures PrevCloseFromSeries(series, today) == series[i].close
  {
    PresentEndsAt(series, i);
  }

  /** When the last bar with a close is dated today, the close of the bar
      with a close before it is used. */
  lemma PrevCloseSkipsTodaysBar(series: seq<Bar>, today: int, j: nat, i: nat)
    requires j < i < |series|
    requires series[i].close.Some? && series[i].date == today && series[j].close.Some?
    requires forall k :: i < k < |series| ==> series[k].close.None?
    requires forall k :: j < k < i ==> series[k].close.None?
    ensures PrevCloseFromSeries(series, today) == series[j].close
  {
    PresentEndsAt(series, i);
    PresentEndsAt(series[..i], j);
    assert series[..i][..j] == series[..j];
  }

  /** When today's bar is the only bar with a close, its close is used. */
  lemma PrevCloseTodaysBarAlone(series: seq<Bar>, today: int, i: nat)
    requires i < |series| && series[i].close.Some? && series[i].date == today
    requires forall k :: 0 <= k < |series| && k != i ==> series[k].close.None?
    ensures PrevCloseFromSeries(series, today) == series[i].close
  {
    PresentEndsAt(series, i);
    PresentNone(series[..i]);
  }

  /** The bars with a close are those before `i` followed by the bar at `i`,
      when no later bar has a close. */
  lemma PresentEndsAt(series: seq<Bar>, i: nat)
    requires i < |series| && series[i].close.Some?
    requires forall k :: i < k < |series| ==> series[k].close.None?
    ensures Present(series) == Present(series[..i]) + [series[i]]
  {
    PresentDropsEmptyTail(series, i);
    PresentUpTo(series, i);
  }

  /** Bars after `i` without a close add nothing to the present bars. */
  lemma PresentDropsEmptyTail(series: seq<Bar>, i: nat)
    requires i < |series|
    requires forall k :: i < k < |series| ==> series[k].close.None?
    ensures Present(series) == Present(series[..i + 1])
  {
    var tail := series[i + 1..];
    forall k | 0 <= k < |tail| ensures tail[k].close.None? {
      assert tail[k] == series[i + 1 + k];
    }
    PresentNone(tail);
    assert series == series[..i + 1] + tail;
    PresentAppend(series[..i + 1], tail);
  }

  /** The bar at `i`, when it has a close, follows the present bars before it. */
  lemma PresentUpTo(series: seq<Bar>, i: nat)
    requires i < |series| && series[i].close.Some?
    ensures Present(series[..i + 1]) == Present(series[..i]) + [series[i]]
  {
    assert series[..i + 1] == series[..i] + [series[i]];
    PresentAppend(series[..i], [series[i]]);
    assert [series[i]][1..] == [];
  }

  lemma {:induction false} PresentAppend(a: seq<Bar>, b: seq<Bar>)
    ensures Present(a + b) == Present(a) + Present(b)
    decreases |a|
  {
    if |a| == 0 {
      assert a + b == b;
    } else {
      assert (a + b)[1..] == a[1..] + b;
      PresentAppend(a[1..], b);
    }
  }

  lemma {:induction false} PresentNone(s: seq<Bar>)
    requires forall k :: 0 <= k < |s| ==> s[k].close.None?
    ensures Present(s) == []
    decreases |s|
  {
    if |s| > 0 {
      PresentNone(s[1..]);
    }
  }

  /** Every bar with a close is kept. */
  lemma {:induction false} PresentIsComplete(series: seq<Bar>)
    ensures forall j :: 0 <= j < |series| && series[j].close.Some? ==> series[j] in Present(series)
    decreases |series|
  {
    if |series| > 0 {
      PresentIsComplete(series[1..]);
      forall j | 0 <= j < |series| && series[j].close.Some? ensures series[j] in Present(series) {
        if j > 0 {
          assert series[1..][j - 1] == series[j];
        }
      }
    }
  }

  // ---------------------------------------------------------------------------
  // Historical closes

  /** The first date to ask the provider for: when the cache already reaches
      back to `start`, only the week before the cutoff onwards is refetched. */
  function FetchStart(cached: map<int, real>, start: int, today: int): (f: int)
    ensures f >= start
    ensures (cached != map[] && (exists d :: d in cached && d <= start)) ==>
      f == (if start < Cache.Cutoff(today) - 7 then Cache.Cutoff(today) - 7 else start)
    ensures !(exists d :: d in cached && d <= start) ==> f == start
  {
    if cached == map[] then start
    else
      var earliest := MinInt(cached.Keys);
      if earliest <= start then
        (if start < Cache.Cutoff(today) - 7 then Cache.Cutoff(today) - 7 else start)
      else start
  }

  /** `get_historical_prices` without its in-memory copy: reads the cache,
      asks the provider for the dates from `FetchStart` through `end`, saves
      the cacheable part of the answer, and returns the cached closes
      overridden by the fetched ones. A failed fetch returns what the cache
      had and leaves the cache alone. */
  function HistoricalPrices(db: Cache.CacheDb, symbol: string, start: int, end: int, today: int,
                            provider: Option<map<int, real>>): (r: (map<int, real>, Cache.CacheDb))
    // every returned close is dated inside the request
    ensures forall d :: d in r.0 ==> start <= d <= end
    ensures provider.None? ==>
      r == (Cache.GetHistoricalPrices(db, symbol, start, end, today), db)
    // a fresh close replaces a cached one for the same date
    ensures provider.Some? ==> forall d :: d in r.0 <==>
      (d in Cache.GetHistoricalPrices(db, symbol, start, end, today)
       || (d in provider.value
           && FetchStart(Cache.GetHistoricalPrices(db, symbol, start, end, today), start, today) <= d <= end))
    ensures provider.Some? ==> forall d :: d in r.0 ==>
      r.0[d] == (if d in provider.value
                    && FetchStart(Cache.GetHistoricalPrices(db, symbol, start, end, today), start, today) <= d
                 then provider.value[d]
                 else Cache.PricesOf(db, symbol)[d])
  {
    var cached := Cache.GetHistoricalPrices(db, symbol, start, end, today);
    var fetchStart := FetchStart(cached, start, today);
    match provider
    case None => (cached, db)
    case Some(history) =>
      var fetched := Window(history, fetchStart, end);
      var saved := if fetched != map[] then Cache.SaveHistoricalPricesBatch(db, symbol, fetched, today).1 else db;
      (cached + fetched, saved)
  }

  /** After a successful fetch the cache holds every fetched close that is
      old enough, and nothing of other symbols or of portfolio values
      changes. */
  lemma FetchedClosesAreCached(db: Cache.CacheDb, symbol: string, start: int, end: int, today: int,
                               history: map<int, real>)
    ensures var after := HistoricalPrices(db, symbol, start, end, today, Some(history)).1;
      var fs := FetchStart(Cache.GetHistoricalPrices(db, symbol, start, end, today), start, today);
      && after.values == db.values
      && (forall s :: s != symbol ==> Cache.PricesOf(after, s) == Cache.PricesOf(db, s))
      && (forall d :: d in history && fs <= d <= end && Cache.IsCacheable(d, today) ==>
            d in Cache.PricesOf(after, symbol) && Cache.PricesOf(after, symbol)[d] == history[d])
  {
  }
}
