/** `get_intraday_values` and `get_multiday_intraday_values`
    (app/portfolio.py): the value of the current investment positions over a
    day (or several), with each symbol's price carried forward from its
    previous close until a sample arrives. Times of day are minutes since
    midnight (the zero-padded `"HH:MM"` strings of the source order the same
    way); multiday timestamps are instants on one integer clock. The clock
    and every price feed are parameters. */
module Intraday {
  import opened Common
  import opened Models
  import opened Ledger
  import Valuation

  // ---------------------------------------------------------------------------
  // Positions

  /** A held symbol and its quantity. */
  datatype Position = Position(symbol: string, quantity: real)

  /** The non-CASH holdings as positions, in holdings order. */
  function PositionsOf(hs: seq<Holding>): (r: seq<Position>)
    ensures forall h :: h in hs && h.symbol != "CASH" ==> Position(h.symbol, h.quantity) in r
    ensures forall p :: p in r ==> p.symbol != "CASH" && exists h :: h in hs && p == Position(h.symbol, h.quantity)
    decreases |hs|
  {
    if |hs| == 0 then []
    else
      var rest := PositionsOf(hs[1..]);
      assert forall h :: h in hs[1..] ==> h in hs;
      (if hs[0].symbol != "CASH" then [Position(hs[0].symbol, hs[0].quantity)] else []) + rest
  }

  /** `get_holdings(fetch_prices=False)` without its CASH entry. */
  function Positions(l: Ledger, today: int): seq<Position> {
    PositionsOf(Valuation.Holdings(l, map[], map[], today))
  }

  function Syms(ps: seq<Position>): set<string> {
    set i | 0 <= i < |ps| :: ps[i].symbol
  }

  /** Σ quantity × price over the positions that have a price in `m`. */
  function ValueAt(ps: seq<Position>, m: map<string, real>): real
    decreases |ps|
  {
    if |ps| == 0 then 0.0
    else (if ps[0].symbol in m then ps[0].quantity * m[ps[0].symbol] else 0.0) + ValueAt(ps[1..], m)
  }

  /** Whether some position has a price in `m`. */
  predicate HasPrice(ps: seq<Position>, m: map<string, real>)
    decreases |ps|
  {
    |ps| > 0 && (ps[0].symbol in m || HasPrice(ps[1..], m))
  }

  /** `{symbol: prev_close.get(symbol) for symbol in symbols}`, with a
      missing close left out of the map. */
  function InitialLast(ps: seq<Position>, prevClose: map<string, real>): (m: map<string, real>)
    ensures forall s :: s in m <==> s in Syms(ps) && s in prevClose
    ensures forall s :: s in m ==> m[s] == prevClose[s]
  {
    map s | s in Syms(ps) && s in prevClose :: prevClose[s]
  }

  /** Only the positions' own symbols are looked up. */
  lemma {:induction false} ValueAtLocal(ps: seq<Position>, a: map<string, real>, b: map<string, real>)
    requires forall s :: s in Syms(ps) ==> Get(a, s) == Get(b, s)
    ensures ValueAt(ps, a) == ValueAt(ps, b)
    ensures HasPrice(ps, a) == HasPrice(ps, b)
    decreases |ps|
  {
    if |ps| > 0 {
      assert ps[0].symbol in Syms(ps);
      assert Get(a, ps[0].symbol) == Get(b, ps[0].symbol);
      assert Syms(ps[1..]) <= Syms(ps) by {
        forall s | s in Syms(ps[1..]) ensures s in Syms(ps) {
          var i :| 0 <= i < |ps[1..]| && ps[1..][i].symbol == s;
          assert ps[i + 1].symbol == s;
        }
      }
      ValueAtLocal(ps[1..], a, b);
    }
  }

  /** The baseline (`Σ quantity × previous close`) is the value at the
      initial carried prices. */
  lemma BaselineIsInitialValue(ps: seq<Position>, prevClose: map<string, real>)
    ensures ValueAt(ps, InitialLast(ps, prevClose)) == ValueAt(ps, prevClose)
  {
    ValueAtLocal(ps, InitialLast(ps, prevClose), prevClose);
  }

  // ---------------------------------------------------------------------------
  // One time point: the loop over symbols

  /** The running value, the data flag and the carried prices. */
  datatype Tally = Tally(total: real, hasData: bool, last: map<string, real>)

  /** One position of the inner loop: a symbol with an offered price at
      this time takes it and carries it; any other symbol uses its carried
      price, if it has one. */
  function TallyStep(p: Position, offered: map<string, real>, acc: Tally): Tally {
    var f := Get(offered, p.symbol);
    var last := if f.Some? then acc.last[p.symbol := f.value] else acc.last;
    var price := if f.Some? then f else Get(acc.last, p.symbol);
    if price.Some? then Tally(acc.total + p.quantity * price.value, true, last)
    else Tally(acc.total, acc.hasData, last)
  }

  /** The inner loop over the positions. */
  function TallyOver(ps: seq<Position>, offered: map<string, real>, acc: Tally): Tally
    decreases |ps|
  {
    if |ps| == 0 then acc else TallyOver(ps[1..], offered, TallyStep(ps[0], offered, acc))
  }

  lemma SymsTail(ps: seq<Position>)
    requires |ps| > 0
    ensures Syms(ps) == {ps[0].symbol} + Syms(ps[1..])
  {
    forall s | s in Syms(ps) ensures s in {ps[0].symbol} + Syms(ps[1..]) {
      var i :| 0 <= i < |ps| && ps[i].symbol == s;
      if i > 0 {
        assert ps[1..][i - 1].symbol == s;
      }
    }
    forall s | s in Syms(ps[1..]) ensures s in Syms(ps) {
      var i :| 0 <= i < |ps[1..]| && ps[1..][i].symbol == s;
      assert ps[i + 1].symbol == s;
    }
  }

  /** After the inner loop each position's symbol carries its offered price if
      it has one and its old price otherwise; other symbols are untouched;
      and the total and the data flag are those of the refreshed prices. */
  lemma TallyOverRefreshes(ps: seq<Position>, offered: map<string, real>, acc: Tally)
    ensures forall s :: (Get(TallyOver(ps, offered, acc).last, s)
      == if s in Syms(ps) && s in offered then Some(offered[s]) else Get(acc.last, s))
    ensures TallyOver(ps, offered, acc).total == acc.total + ValueAt(ps, TallyOver(ps, offered, acc).last)
    ensures TallyOver(ps, offered, acc).hasData == (acc.hasData || HasPrice(ps, TallyOver(ps, offered, acc).last))
  {
    TallyOverLast(ps, offered, acc);
    TallyOverTotal(ps, offered, acc);
  }

  lemma {:induction false} TallyOverLast(ps: seq<Position>, offered: map<string, real>, acc: Tally)
    ensures forall s :: (Get(TallyOver(ps, offered, acc).last, s)
      == if s in Syms(ps) && s in offered then Some(offered[s]) else Get(acc.last, s))
    decreases |ps|
  {
    if |ps| > 0 {
      var p := ps[0];
      var next := TallyStep(p, offered, acc);
      TallyOverLast(ps[1..], offered, next);
      SymsTail(ps);
      assert Get(next.last, p.symbol) == (if p.symbol in offered then Some(offered[p.symbol]) else Get(acc.last, p.symbol));
    }
  }

  lemma {:induction false} TallyOverTotal(ps: seq<Position>, offered: map<string, real>, acc: Tally)
    ensures TallyOver(ps, offered, acc).total == acc.total + ValueAt(ps, TallyOver(ps, offered, acc).last)
    ensures TallyOver(ps, offered, acc).hasData == (acc.hasData || HasPrice(ps, TallyOver(ps, offered, acc).last))
    decreases |ps|
  {
    if |ps| > 0 {
      var p := ps[0];
      var next := TallyStep(p, offered, acc);
      var fin := TallyOver(ps[1..], offered, next);
      assert TallyOver(ps, offered, acc) == fin;
      TallyOverTotal(ps[1..], offered, next);
      TallyOverLast(ps[1..], offered, next);
      assert Get(fin.last, p.symbol) == (if p.symbol in offered then Some(offered[p.symbol]) else Get(acc.last, p.symbol));
    }
  }

  // ---------------------------------------------------------------------------
  // Price samples

  /** One intraday bar: a time and its price. */
  datatype Sample = Sample(time: int, price: real)

  /** `intraday_prices.get(symbol, [])`. */
  function SamplesOf(feed: map<string, seq<Sample>>, s: string): seq<Sample> {
    if s in feed then feed[s] else []
  }

  /** Every time that occurs in the feed, over all symbols. */
  function SampleTimes(feed: map<string, seq<Sample>>): set<int> {
    set s, i | s in feed && 0 <= i < |feed[s]| :: feed[s][i].time
  }

  /** The scan for the bar at time `t`, stopping at the first match. */
  function FirstAt(samples: seq<Sample>, t: int): Option<real>
    decreases |samples|
  {
    if |samples| == 0 then None
    else if samples[0].time == t then Some(samples[0].price)
    else FirstAt(samples[1..], t)
  }

  /** The scan finds nothing exactly when no bar is at `t`, and otherwise
      the price of the first bar at `t`. */
  lemma {:induction false} FirstAtFinds(samples: seq<Sample>, t: int)
    ensures FirstAt(samples, t).None? <==> forall i :: 0 <= i < |samples| ==> samples[i].time != t
    ensures FirstAt(samples, t).Some? ==> exists i :: (0 <= i < |samples| && samples[i] == Sample(t, FirstAt(samples, t).value)
                                    && forall j :: 0 <= j < i ==> samples[j].time != t)
    decreases |samples|
  {
    if |samples| > 0 && samples[0].time != t {
      var r := FirstAt(samples[1..], t);
      FirstAtFinds(samples[1..], t);
      assert forall i :: 1 <= i < |samples| ==> samples[i] == samples[1..][i - 1];
      if r.Some? {
        var i :| 0 <= i < |samples[1..]| && samples[1..][i] == Sample(t, r.value)
                 && forall j :: 0 <= j < i ==> samples[1..][j].time != t;
        assert samples[i + 1] == Sample(t, r.value);
      }
    }
  }

  /** The bars as a map from time to the price of the first bar at that
      time. */
  function FirstMatch(samples: seq<Sample>): map<int, real>
    decreases |samples|
  {
    if |samples| == 0 then map[]
    else FirstMatch(samples[1..])[samples[0].time := samples[0].price]
  }

  /** The map's keys are the bar times. */
  lemma {:induction false} FirstMatchKeys(samples: seq<Sample>)
    ensures forall t :: t in FirstMatch(samples) <==> exists i :: 0 <= i < |samples| && samples[i].time == t
    decreases |samples|
  {
    if |samples| > 0 {
      FirstMatchKeys(samples[1..]);
      assert forall i :: 1 <= i < |samples| ==> samples[i] == samples[1..][i - 1];
      assert forall t :: t in FirstMatch(samples[1..]) ==> exists i :: 0 <= i < |samples| && samples[i].time == t;
    }
  }

  /** The scan finds the map's entry. */
  lemma {:induction false} FirstAtIsFirstMatch(samples: seq<Sample>, t: int)
    ensures FirstAt(samples, t) == Get(FirstMatch(samples), t)
    decreases |samples|
  {
    if |samples| > 0 && samples[0].time != t {
      FirstAtIsFirstMatch(samples[1..], t);
    }
  }

  /** The bars as a map from time to the price of the last bar at that time
      (a dictionary built from the bars in order). */
  function LastMatch(samples: seq<Sample>): map<int, real>
    decreases |samples|
  {
    if |samples| == 0 then map[]
    else map[samples[0].time := samples[0].price] + LastMatch(samples[1..])
  }

  /** The map's keys are the bar times. */
  lemma {:induction false} LastMatchKeys(samples: seq<Sample>)
    ensures forall t :: t in LastMatch(samples) <==> exists i :: 0 <= i < |samples| && samples[i].time == t
    decreases |samples|
  {
    if |samples| > 0 {
      LastMatchKeys(samples[1..]);
      assert forall i :: 1 <= i < |samples| ==> samples[i] == samples[1..][i - 1];
    }
  }

  /** Each entry holds the price of the last bar at its time. */
  lemma {:induction false} LastMatchIsLast(samples: seq<Sample>, t: int)
    requires t in LastMatch(samples)
    ensures exists i :: 0 <= i < |samples| && samples[i] == Sample(t, LastMatch(samples)[t])
                        && forall j :: i < j < |samples| ==> samples[j].time != t
    decreases |samples|
  {
    var rest := LastMatch(samples[1..]);
    LastMatchKeys(samples[1..]);
    if t in rest {
      LastMatchIsLast(samples[1..], t);
      var i :| 0 <= i < |samples[1..]| && samples[1..][i] == Sample(t, rest[t])
               && forall j :: i < j < |samples[1..]| ==> samples[1..][j].time != t;
      assert samples[i + 1] == Sample(t, LastMatch(samples)[t]);
      forall j | i + 1 < j < |samples| ensures samples[j].time != t {
        assert samples[j] == samples[1..][j - 1];
      }
    } else {
      assert samples[0] == Sample(t, LastMatch(samples)[t]);
      forall j | 0 < j < |samples| ensures samples[j].time != t {
        assert samples[j] == samples[1..][j - 1];
      }
    }
  }

  /** The latest key at or before `t` is `t` itself when present, and
      otherwise the latest one before it. */
  lemma LatestKeyAt<V>(m: map<int, V>, t: int)
    ensures t in m ==> LatestKey(m, t) == Some(t)
    ensures t !in m ==> LatestKey(m, t) == LatestKey(m, t - 1)
  {
    var a := LatestKey(m, t);
    var b := LatestKey(m, t - 1);
    if t !in m && a.Some? {
      assert b.Some?;
    }
  }

  /** Raising the bound over a stretch without keys changes nothing. */
  lemma LatestKeyGap<V>(m: map<int, V>, a: int, b: int)
    requires a <= b
    requires forall k :: k in m && a < k ==> b < k
    ensures LatestKey(m, b) == LatestKey(m, a)
  {
    var x := LatestKey(m, a);
    var y := LatestKey(m, b);
    if y.Some? {
      assert x.Some?;
    }
  }

  // ---------------------------------------------------------------------------
  // Time grid of the one-day curve

  /** The market markers: midnight, the open at 09:30, the close at 16:00,
      the steps of `step` minutes within each hour from 16:00 to 23:59 that
      are not after `now`, and `now` itself. */
  function MarkerTimes(now: int, step: int): (r: set<int>)
    requires step >= 1
    ensures {0, 570, 960, now} <= r
    ensures forall t :: t in r && t !in {0, 570, 960, now} ==> 960 <= t <= now && t < 1440 && (t % 60) % step == 0
  {
    {0, 570, 960, now} + set t: int | 960 <= t < 1440 && t <= now && (t % 60) % step == 0
  }

  /** Every sample time, plus the markers when the baseline is positive. */
  function AllTimes(feed: map<string, seq<Sample>>, baseline: real, now: int, step: int): (r: set<int>)
    requires step >= 1
    ensures SampleTimes(feed) <= r
  {
    SampleTimes(feed) + (if baseline > 0.0 then MarkerTimes(now, step) else {})
  }

  /** Whether position `idx` is the last time not after `now`. */
  predicate IsLastPoint(times: seq<int>, idx: nat, now: int)
    requires idx < |times|
  {
    idx == |times| - 1 || times[idx + 1] > now
  }

  /** In ascending times, the check of the next time alone finds the last
      time not after `now`. */
  lemma IsLastPointIff(times: seq<int>, idx: nat, now: int)
    requires StrictlyAscending(times) && idx < |times|
    ensures IsLastPoint(times, idx, now) <==> forall j :: idx < j < |times| ==> times[j] > now
  {
    if IsLastPoint(times, idx, now) && idx < |times| - 1 {
      forall j | idx < j < |times| ensures times[j] > now {
        assert times[idx + 1] <= times[j];
      }
    }
  }

  // ---------------------------------------------------------------------------
  // One-day points

  /** A mover in the tooltip. */
  datatype AssetChange = AssetChange(symbol: string, pnl: real, pnlPercent: real, prevPrice: real, currentPrice: real)

  /** One point of the one-day curve. */
  datatype Point = Point(time: int, value: real, baseline: real, dailyPnl: real, dailyPnlPercent: real,
                         assetChanges: seq<AssetChange>)

  function Abs(x: real): real {
    if x < 0.0 then -x else x
  }

  /** Per position with a carried price and a positive previous close, the
      change since the previous close. */
  function ChangesOver(ps: seq<Position>, last: map<string, real>, prevClose: map<string, real>): (r: seq<AssetChange>)
    ensures forall c :: c in r ==> (c.symbol in last && c.symbol in prevClose && c.prevPrice > 0.0
      && c.prevPrice == prevClose[c.symbol] && c.currentPrice == last[c.symbol])
    decreases |ps|
  {
    if |ps| == 0 then []
    else
      var s := ps[0].symbol;
      var rest := ChangesOver(ps[1..], last, prevClose);
      if s in last && s in prevClose && prevClose[s] > 0.0 then
        var cur := last[s];
        var prev := prevClose[s];
        [AssetChange(s, (cur - prev) * ps[0].quantity, (cur - prev) / prev * 100.0, prev, cur)] + rest
      else rest
  }

  /** Position of the first change, from position `from` on, with the
      largest absolute P&L. */
  function LargestFrom(cs: seq<AssetChange>, from: nat): (i: nat)
    requires from < |cs|
    ensures from <= i < |cs|
    decreases |cs| - from
  {
    if from == |cs| - 1 then from
    else
      var k := LargestFrom(cs, from + 1);
      if Abs(cs[from].pnl) >= Abs(cs[k].pnl) then from else k
  }

  /** The chosen change, from `from` on, moved at least as much as every
      change there, and more than every earlier one there. */
  lemma {:induction false} LargestFromIsLargest(cs: seq<AssetChange>, from: nat)
    requires from < |cs|
    ensures forall j :: from <= j < |cs| ==> Abs(cs[j].pnl) <= Abs(cs[LargestFrom(cs, from)].pnl)
    ensures forall j :: from <= j < LargestFrom(cs, from) ==> Abs(cs[j].pnl) < Abs(cs[LargestFrom(cs, from)].pnl)
    decreases |cs| - from
  {
    if from < |cs| - 1 {
      LargestFromIsLargest(cs, from + 1);
    }
  }

  /** Position of the first change with the largest absolute P&L. */
  function FirstLargest(cs: seq<AssetChange>): (i: nat)
    requires |cs| > 0
    ensures i < |cs|
  {
    LargestFrom(cs, 0)
  }

  /** The chosen change moved at least as much as every change, and more
      than every earlier one. */
  lemma FirstLargestIsLargest(cs: seq<AssetChange>)
    requires |cs| > 0
    ensures forall j :: 0 <= j < |cs| ==> Abs(cs[j].pnl) <= Abs(cs[FirstLargest(cs)].pnl)
    ensures forall j :: 0 <= j < FirstLargest(cs) ==> Abs(cs[j].pnl) < Abs(cs[FirstLargest(cs)].pnl)
  {
    LargestFromIsLargest(cs, 0);
  }

  /** The `n` largest moves by absolute P&L, largest first, and among equal
      moves the earlier change first: a stable sort by descending absolute
      P&L cut to `n`, written as repeated selection. */
  function Largest(cs: seq<AssetChange>, n: nat): (r: seq<AssetChange>)
    ensures |r| == if |cs| < n then |cs| else n
    decreases n
  {
    if n == 0 || |cs| == 0 then []
    else
      var i := FirstLargest(cs);
      [cs[i]] + Largest(cs[..i] + cs[i + 1..], n - 1)
  }

  /** The ten largest moves of the tooltip. */
  function TopMovers(changes: seq<AssetChange>): (r: seq<AssetChange>)
    ensures |r| == if |changes| < 10 then |changes| else 10
  {
    Largest(changes, 10)
  }

  lemma RemoveOne(cs: seq<AssetChange>, i: nat)
    requires i < |cs|
    ensures multiset(cs) == multiset(cs[..i] + cs[i + 1..]) + multiset{cs[i]}
  {
    assert cs == cs[..i] + [cs[i]] + cs[i + 1..];
  }

  /** The first largest change moved at least as much as any member. */
  lemma LargestBoundsAll(cs: seq<AssetChange>)
    requires |cs| > 0
    ensures forall c :: c in multiset(cs) ==> Abs(c.pnl) <= Abs(cs[FirstLargest(cs)].pnl)
  {
    FirstLargestIsLargest(cs);
    forall c | c in multiset(cs) ensures Abs(c.pnl) <= Abs(cs[FirstLargest(cs)].pnl) {
      var m :| 0 <= m < |cs| && cs[m] == c;
    }
  }

  /** Taking the first largest change out of `cs` leaves `rest`, every
      member of which moved no more than the change taken. */
  lemma TakeLargest(cs: seq<AssetChange>) returns (x: AssetChange, rest: seq<AssetChange>)
    requires |cs| > 0
    ensures x == cs[FirstLargest(cs)] && rest == cs[..FirstLargest(cs)] + cs[FirstLargest(cs) + 1..]
    ensures multiset(cs) == multiset(rest) + multiset{x}
    ensures forall c :: c in multiset(cs) ==> Abs(c.pnl) <= Abs(x.pnl)
  {
    var k := FirstLargest(cs);
    x := cs[k];
    rest := cs[..k] + cs[k + 1..];
    RemoveOne(cs, k);
    LargestBoundsAll(cs);
  }

  /** One selection step: the selection is the change taken followed by the
      selection from what is left, which together hold what `cs` holds. */
  lemma UnfoldKeeping(cs: seq<AssetChange>, n: nat) returns (x: AssetChange, rest: seq<AssetChange>)
    requires n > 0 && |cs| > 0
    ensures Largest(cs, n) == [x] + Largest(rest, n - 1)
    ensures multiset(cs) == multiset(rest) + multiset{x}
    ensures x == cs[FirstLargest(cs)]
  {
    x, rest := TakeLargest(cs);
  }

  /** One selection step: the change taken moved at least as much as every
      change left. */
  lemma UnfoldBounded(cs: seq<AssetChange>, n: nat) returns (x: AssetChange, rest: seq<AssetChange>)
    requires n > 0 && |cs| > 0
    ensures Largest(cs, n) == [x] + Largest(rest, n - 1)
    ensures forall j :: 0 <= j < |rest| ==> Abs(rest[j].pnl) <= Abs(x.pnl)
  {
    x, rest := TakeLargest(cs);
    forall j | 0 <= j < |rest| ensures Abs(rest[j].pnl) <= Abs(x.pnl) {
      assert rest[j] in multiset(rest);
    }
  }

  lemma {:induction false} FromInputStep(cs: seq<AssetChange>, x: AssetChange, rest: seq<AssetChange>,
                                         tail: seq<AssetChange>)
    requires multiset(cs) == multiset(rest) + multiset{x}
    requires multiset(tail) <= multiset(rest)
    ensures multiset([x] + tail) <= multiset(cs)
  {
  }

  /** The selection takes its changes from the input. */
  lemma {:induction false} LargestFromInput(cs: seq<AssetChange>, n: nat)
    ensures multiset(Largest(cs, n)) <= multiset(cs)
    decreases n
  {
    if n > 0 && |cs| > 0 {
      var x, rest := UnfoldKeeping(cs, n);
      LargestFromInput(rest, n - 1);
      FromInputStep(cs, x, rest, Largest(rest, n - 1));
    } else {
      assert Largest(cs, n) == [];
    }
  }

  /** A bound on every change of the input bounds every change selected. */
  lemma LargestBoundedBy(cs: seq<AssetChange>, n: nat, b: real)
    requires forall j :: 0 <= j < |cs| ==> Abs(cs[j].pnl) <= b
    ensures forall i :: 0 <= i < |Largest(cs, n)| ==> Abs(Largest(cs, n)[i].pnl) <= b
  {
    var r := Largest(cs, n);
    LargestFromInput(cs, n);
    forall i | 0 <= i < |r| ensures Abs(r[i].pnl) <= b {
      assert r[i] in multiset(r);
      assert r[i] in multiset(cs);
    }
  }

  lemma {:induction false} DescendingStep(x: AssetChange, tail: seq<AssetChange>)
    requires forall j :: 0 <= j < |tail| ==> Abs(tail[j].pnl) <= Abs(x.pnl)
    requires forall i, j :: 0 <= i < j < |tail| ==> Abs(tail[i].pnl) >= Abs(tail[j].pnl)
    ensures forall i, j :: 0 <= i < j < |[x] + tail| ==> Abs(([x] + tail)[i].pnl) >= Abs(([x] + tail)[j].pnl)
  {
    var r := [x] + tail;
    forall i, j | 0 <= i < j < |r| ensures Abs(r[i].pnl) >= Abs(r[j].pnl) {
      assert r[j] == tail[j - 1];
      if i > 0 {
        assert r[i] == tail[i - 1];
      }
    }
  }

  /** The selection comes out largest first. */
  lemma {:induction false} LargestDescending(cs: seq<AssetChange>, n: nat)
    ensures forall i, j :: 0 <= i < j < |Largest(cs, n)| ==> Abs(Largest(cs, n)[i].pnl) >= Abs(Largest(cs, n)[j].pnl)
    decreases n
  {
    if n > 0 && |cs| > 0 {
      var x, rest := UnfoldBounded(cs, n);
      LargestDescending(rest, n - 1);
      LargestBoundedBy(rest, n - 1, Abs(x.pnl));
      DescendingStep(x, Largest(rest, n - 1));
    }
  }

  lemma {:induction false} DominatesStep(cs: seq<AssetChange>, x: AssetChange, rest: seq<AssetChange>,
                                         tail: seq<AssetChange>, r: seq<AssetChange>)
    requires |cs| > 0 && x == cs[FirstLargest(cs)] && r == [x] + tail
    requires multiset(cs) == multiset(rest) + multiset{x}
    requires forall c, i :: c in multiset(rest) - multiset(tail) && 0 <= i < |tail| ==> Abs(c.pnl) <= Abs(tail[i].pnl)
    ensures forall c, i :: (c in multiset(cs) - multiset(r) && 0 <= i < |r| ==> Abs(c.pnl) <= Abs(r[i].pnl))
  {
    LargestBoundsAll(cs);
    assert multiset(r) == multiset{x} + multiset(tail);
    forall c, i | c in multiset(cs) - multiset(r) && 0 <= i < |r| ensures Abs(c.pnl) <= Abs(r[i].pnl) {
      if i > 0 {
        assert r[i] == tail[i - 1];
        assert (multiset(cs) - multiset(r))[c] == (multiset(rest) - multiset(tail))[c];
      }
    }
  }

  /** The change taken first, followed by the `m` largest of what is
      left, dominates everything it leaves out. */
  lemma {:induction false} DominatesRest(cs: seq<AssetChange>, m: nat, x: AssetChange, rest: seq<AssetChange>,
                                         r: seq<AssetChange>)
    requires |cs| > 0 && x == cs[FirstLargest(cs)] && r == [x] + Largest(rest, m)
    requires multiset(cs) == multiset(rest) + multiset{x}
    ensures forall c, i :: (c in multiset(cs) - multiset(r) && 0 <= i < |r| ==> Abs(c.pnl) <= Abs(r[i].pnl))
    decreases m + 1, 0
  {
    LargestDominates(rest, m);
    DominatesStep(cs, x, rest, Largest(rest, m), r);
  }

  /** Every change the selection leaves out moved no more than any change
      it took. */
  lemma {:induction false} LargestDominates(cs: seq<AssetChange>, n: nat)
    ensures forall c, i :: (c in multiset(cs) - multiset(Largest(cs, n)) && 0 <= i < |Largest(cs, n)|
      ==> Abs(c.pnl) <= Abs(Largest(cs, n)[i].pnl))
    decreases n, 1
  {
    if n > 0 && |cs| > 0 {
      var x, rest := UnfoldKeeping(cs, n);
      DominatesRest(cs, n - 1, x, rest, Largest(cs, n));
    } else {
      assert Largest(cs, n) == [];
    }
  }

  /** A point from the time's value and carried prices: the change against
      the baseline and its percentage, and the top movers. */
  function MakePoint(ps: seq<Position>, t: int, baseline: real, prevClose: map<string, real>, total: real,
                     last: map<string, real>): (p: Point)
    ensures p.time == t && p.value == total && p.baseline == baseline
    ensures p.dailyPnl == total - baseline
    ensures baseline > 0.0 ==> p.dailyPnlPercent * baseline == (total - baseline) * 100.0
    ensures baseline <= 0.0 ==> p.dailyPnlPercent == 0.0
    ensures |p.assetChanges| <= 10
  {
    Point(t, total, baseline, total - baseline, Valuation.PercentOf(total - baseline, baseline),
          TopMovers(ChangesOver(ps, last, prevClose)))
  }

  /** What a time point contributes to the curve: its point when some
      symbol has a price and the value is positive, else nothing. */
  function Emit(ps: seq<Position>, t: int, baseline: real, prevClose: map<string, real>, tally: Tally): (r: seq<Point>)
    ensures |r| == (if tally.hasData && tally.total > 0.0 then 1 else 0)
    ensures |r| == 1 ==> r[0].time == t && r[0].value == tally.total
  {
    if tally.hasData && tally.total > 0.0 then [MakePoint(ps, t, baseline, prevClose, tally.total, tally.last)] else []
  }

  /** Two tallies with the same value, data flag and movers contribute the
      same. */
  lemma EmitLocal(ps: seq<Position>, t: int, baseline: real, prevClose: map<string, real>, a: Tally, b: Tally)
    requires a.total == b.total && a.hasData == b.hasData
    requires ChangesOver(ps, a.last, prevClose) == ChangesOver(ps, b.last, prevClose)
    ensures Emit(ps, t, baseline, prevClose, a) == Emit(ps, t, baseline, prevClose, b)
  {
  }

  /** The prices a symbol is offered at time `t`: at the last point, the
      real-time price of a symbol that has bars today; otherwise its first
      bar at `t`. */
  function Fresh(s: string, t: int, isLast: bool, feed: map<string, seq<Sample>>, realtime: map<string, real>): Option<real> {
    if isLast && |SamplesOf(feed, s)| > 0 && s in realtime then Some(realtime[s])
    else FirstAt(SamplesOf(feed, s), t)
  }

  function FreshAt(ps: seq<Position>, t: int, isLast: bool, feed: map<string, seq<Sample>>,
                   realtime: map<string, real>): (m: map<string, real>)
    ensures m.Keys <= Syms(ps)
    ensures forall s :: s in Syms(ps) ==> Get(m, s) == Fresh(s, t, isLast, feed, realtime)
  {
    map s | s in Syms(ps) && Fresh(s, t, isLast, feed, realtime).Some? :: Fresh(s, t, isLast, feed, realtime).value
  }

  /** The time loop, from position `idx` of the sorted times on, with the
      carried prices `last`: times after `now` are skipped, and a point is
      emitted when some symbol has a price and the value is positive. */
  function Points(ps: seq<Position>, times: seq<int>, idx: nat, now: int, baseline: real,
                  prevClose: map<string, real>, feed: map<string, seq<Sample>>, realtime: map<string, real>,
                  last: map<string, real>): seq<Point>
    requires idx <= |times|
    decreases |times| - idx
  {
    if idx == |times| then []
    else if times[idx] > now then Points(ps, times, idx + 1, now, baseline, prevClose, feed, realtime, last)
    else
      var t := times[idx];
      var tally := TallyOver(ps, FreshAt(ps, t, IsLastPoint(times, idx, now), feed, realtime), Tally(0.0, false, last));
      var rest := Points(ps, times, idx + 1, now, baseline, prevClose, feed, realtime, tally.last);
      Emit(ps, t, baseline, prevClose, tally) + rest
  }

  /** `get_intraday_values`, with the clock reading `now` (minutes since
      midnight), the interval in minutes, and the price feeds as inputs. */
  function IntradayValues(l: Ledger, today: int, now: int, step: int, prevClose: map<string, real>,
                          feed: map<string, seq<Sample>>, realtime: map<string, real>): seq<Point>
    requires step >= 1
  {
    Curve(Positions(l, today), now, step, prevClose, feed, realtime)
  }

  /** The curve of the positions `ps`: nothing without positions or times;
      otherwise the time loop over the sorted times, starting from the
      previous closes. */
  function Curve(ps: seq<Position>, now: int, step: int, prevClose: map<string, real>,
                 feed: map<string, seq<Sample>>, realtime: map<string, real>): seq<Point>
    requires step >= 1
  {
    if |ps| == 0 then []
    else
      var baseline := ValueAt(ps, prevClose);
      var times := AllTimes(feed, baseline, now, step);
      if times == {} then []
      else Points(ps, SortedInts(times), 0, now, baseline, prevClose, feed, realtime, InitialLast(ps, prevClose))
  }

  // ---------------------------------------------------------------------------
  // The one-day reference

  /** A symbol's price at time `t` by definition: at the last point the
      real-time price (for a symbol with bars today), otherwise the latest
      bar at or before `t`, otherwise the previous close. */
  function PriceAt(s: string, t: int, isLast: bool, prevClose: map<string, real>, feed: map<string, seq<Sample>>,
                   realtime: map<string, real>): Option<real>
  {
    if isLast && |SamplesOf(feed, s)| > 0 && s in realtime then Some(realtime[s])
    else
      var v := LatestValue(FirstMatch(SamplesOf(feed, s)), t);
      if v.Some? then v else Get(prevClose, s)
  }

  function PricesAt(ps: seq<Position>, t: int, isLast: bool, prevClose: map<string, real>,
                    feed: map<string, seq<Sample>>, realtime: map<string, real>): (m: map<string, real>)
    ensures forall s :: Get(m, s) == if s in Syms(ps) then PriceAt(s, t, isLast, prevClose, feed, realtime) else None
  {
    map s | s in Syms(ps) && PriceAt(s, t, isLast, prevClose, feed, realtime).Some?
      :: PriceAt(s, t, isLast, prevClose, feed, realtime).value
  }

  /** The point by definition at `times[idx]`, if the positions priced by
      `PriceAt` have some price and a positive value there. */
  function ReferencePoint(ps: seq<Position>, times: seq<int>, idx: nat, now: int, baseline: real,
                          prevClose: map<string, real>, feed: map<string, seq<Sample>>,
                          realtime: map<string, real>): (r: seq<Point>)
    requires idx < |times|
    ensures |r| <= 1
  {
    var t := times[idx];
    var m := PricesAt(ps, t, IsLastPoint(times, idx, now), prevClose, feed, realtime);
    Emit(ps, t, baseline, prevClose, Tally(ValueAt(ps, m), HasPrice(ps, m), m))
  }

  /** The curve by definition: one point per time not after `now` at which
      the positions, priced by `PriceAt`, have some price and a positive
      value. */
  function ReferencePoints(ps: seq<Position>, times: seq<int>, idx: nat, now: int, baseline: real,
                           prevClose: map<string, real>, feed: map<string, seq<Sample>>,
                           realtime: map<string, real>): (r: seq<Point>)
    requires idx <= |times|
    ensures forall i :: 0 <= i < |r| ==> r[i].time <= now && r[i].value > 0.0
    decreases |times| - idx
  {
    if idx == |times| then []
    else
      var rest := ReferencePoints(ps, times, idx + 1, now, baseline, prevClose, feed, realtime);
      if times[idx] > now then rest
      else ReferencePoint(ps, times, idx, now, baseline, prevClose, feed, realtime) + rest
  }

  /** Every bar time is among the sorted times. */
  ghost predicate CoversSamples(times: seq<int>, feed: map<string, seq<Sample>>) {
    forall t :: t in SampleTimes(feed) ==> t in times
  }

  /** No bar of `s` lies strictly between two consecutive times. */
  lemma NoSampleBetween(times: seq<int>, feed: map<string, seq<Sample>>, s: string, idx: nat)
    requires StrictlyAscending(times) && CoversSamples(times, feed) && idx + 1 < |times|
    ensures forall k :: k in FirstMatch(SamplesOf(feed, s)) && times[idx] < k ==> times[idx + 1] - 1 < k
  {
    FirstMatchKeys(SamplesOf(feed, s));
    forall k | k in FirstMatch(SamplesOf(feed, s)) && times[idx] < k ensures times[idx + 1] - 1 < k {
      var i :| 0 <= i < |SamplesOf(feed, s)| && SamplesOf(feed, s)[i].time == k;
      assert k in SampleTimes(feed);
      var j :| 0 <= j < |times| && times[j] == k;
      assert idx < j;
      assert times[idx + 1] <= times[j];
    }
  }

  /** No bar of `s` lies before the first time. */
  lemma NoSampleBefore(times: seq<int>, feed: map<string, seq<Sample>>, s: string)
    requires StrictlyAscending(times) && CoversSamples(times, feed) && |times| > 0
    ensures LatestKey(FirstMatch(SamplesOf(feed, s)), times[0] - 1).None?
  {
    FirstMatchKeys(SamplesOf(feed, s));
    forall k | k in FirstMatch(SamplesOf(feed, s)) ensures k > times[0] - 1 {
      var i :| 0 <= i < |SamplesOf(feed, s)| && SamplesOf(feed, s)[i].time == k;
      assert k in SampleTimes(feed);
      var j :| 0 <= j < |times| && times[j] == k;
      assert times[0] <= times[j];
    }
  }

  /** The offered price, falling back on the price carried from just before
      `t`, is the price by definition. */
  lemma FreshOrCarried(s: string, t: int, isLast: bool, prevClose: map<string, real>,
                       feed: map<string, seq<Sample>>, realtime: map<string, real>)
    ensures (var f := Fresh(s, t, isLast, feed, realtime);
             if f.Some? then f else PriceAt(s, t - 1, false, prevClose, feed, realtime))
      == PriceAt(s, t, isLast, prevClose, feed, realtime)
  {
    var fm := FirstMatch(SamplesOf(feed, s));
    FirstAtIsFirstMatch(SamplesOf(feed, s), t);
    LatestKeyAt(fm, t);
  }

  /** The carried prices `last` are the prices by definition at `t`, for
      each position in turn. */
  ghost predicate Agrees(ps: seq<Position>, last: map<string, real>, t: int, isLast: bool, prevClose: map<string, real>,
                         feed: map<string, seq<Sample>>, realtime: map<string, real>)
    decreases |ps|
  {
    |ps| == 0
    || (Get(last, ps[0].symbol) == PriceAt(ps[0].symbol, t, isLast, prevClose, feed, realtime)
        && Agrees(ps[1..], last, t, isLast, prevClose, feed, realtime))
  }

  /** Agreement position by position is agreement on every symbol held. */
  lemma {:induction false} AgreesIsPointwise(ps: seq<Position>, last: map<string, real>, t: int, isLast: bool,
                                             prevClose: map<string, real>, feed: map<string, seq<Sample>>,
                                             realtime: map<string, real>)
    ensures Agrees(ps, last, t, isLast, prevClose, feed, realtime)
      <==> forall s :: s in Syms(ps) ==> Get(last, s) == PriceAt(s, t, isLast, prevClose, feed, realtime)
    decreases |ps|
  {
    if |ps| > 0 {
      SymsTail(ps);
      AgreesIsPointwise(ps[1..], last, t, isLast, prevClose, feed, realtime);
    }
  }

  /** Maps that agree on the positions' symbols give the same value, data
      flag and movers. */
  lemma {:induction false} ChangesOverLocal(ps: seq<Position>, a: map<string, real>, b: map<string, real>,
                                            prevClose: map<string, real>)
    requires forall s :: s in Syms(ps) ==> Get(a, s) == Get(b, s)
    ensures ChangesOver(ps, a, prevClose) == ChangesOver(ps, b, prevClose)
    decreases |ps|
  {
    if |ps| > 0 {
      var s := ps[0].symbol;
      assert s in Syms(ps);
      assert Get(a, s) == Get(b, s);
      if s in a {
        assert Get(b, s) == Some(a[s]);
      } else {
        assert Get(b, s) == None;
      }
      SymsTail(ps);
      ChangesOverLocal(ps[1..], a, b, prevClose);
      if s in a && s in prevClose && prevClose[s] > 0.0 {
        assert a[s] == b[s];
        assert ChangesOver(ps, a, prevClose)[0] == ChangesOver(ps, b, prevClose)[0];
      }
    }
  }

  /** One time point of the loop, from prices carried correctly from just
      before `t`, carries the prices by definition at `t` and computes their
      value, data flag and movers. */
  lemma StepIsReference(ps: seq<Position>, t: int, isLast: bool, prevClose: map<string, real>,
                        feed: map<string, seq<Sample>>, realtime: map<string, real>, last: map<string, real>)
      returns (r: Tally, m: map<string, real>)
    requires Agrees(ps, last, t - 1, false, prevClose, feed, realtime)
    ensures r == TallyOver(ps, FreshAt(ps, t, isLast, feed, realtime), Tally(0.0, false, last))
    ensures m == PricesAt(ps, t, isLast, prevClose, feed, realtime)
    ensures Agrees(ps, r.last, t, isLast, prevClose, feed, realtime)
    ensures r.total == ValueAt(ps, m) && r.hasData == HasPrice(ps, m)
    ensures ChangesOver(ps, r.last, prevClose) == ChangesOver(ps, m, prevClose)
  {
    var offered := FreshAt(ps, t, isLast, feed, realtime);
    r := TallyOver(ps, offered, Tally(0.0, false, last));
    m := PricesAt(ps, t, isLast, prevClose, feed, realtime);
    TallyOverRefreshes(ps, offered, Tally(0.0, false, last));
    AgreesIsPointwise(ps, last, t - 1, false, prevClose, feed, realtime);
    forall s | s in Syms(ps) ensures Get(r.last, s) == PriceAt(s, t, isLast, prevClose, feed, realtime) {
      FreshOrCarried(s, t, isLast, prevClose, feed, realtime);
    }
    AgreesIsPointwise(ps, r.last, t, isLast, prevClose, feed, realtime);
    ValueAtLocal(ps, r.last, m);
    ChangesOverLocal(ps, r.last, m, prevClose);
  }

  /** A symbol's price at a time that is not the last is its price just
      before the next time. */
  lemma CarryToNext(times: seq<int>, idx: nat, s: string, prevClose: map<string, real>,
                    feed: map<string, seq<Sample>>, realtime: map<string, real>)
    requires StrictlyAscending(times) && CoversSamples(times, feed) && idx + 1 < |times|
    ensures PriceAt(s, times[idx], false, prevClose, feed, realtime)
      == PriceAt(s, times[idx + 1] - 1, false, prevClose, feed, realtime)
  {
    NoSampleBetween(times, feed, s, idx);
    LatestKeyGap(FirstMatch(SamplesOf(feed, s)), times[idx], times[idx + 1] - 1);
  }

  /** One time point of the loop emits the point by definition. */
  lemma PointIsReference(ps: seq<Position>, times: seq<int>, idx: nat, now: int, baseline: real,
                         prevClose: map<string, real>, feed: map<string, seq<Sample>>, realtime: map<string, real>,
                         last: map<string, real>) returns (next: map<string, real>)
    requires idx < |times| && times[idx] <= now
    requires Agrees(ps, last, times[idx] - 1, false, prevClose, feed, realtime)
    ensures next == TallyOver(ps, FreshAt(ps, times[idx], IsLastPoint(times, idx, now), feed, realtime),
                              Tally(0.0, false, last)).last
    ensures Points(ps, times, idx, now, baseline, prevClose, feed, realtime, last)
      == ReferencePoint(ps, times, idx, now, baseline, prevClose, feed, realtime)
         + Points(ps, times, idx + 1, now, baseline, prevClose, feed, realtime, next)
  {
    var t := times[idx];
    var r, m := StepIsReference(ps, t, IsLastPoint(times, idx, now), prevClose, feed, realtime, last);
    next := r.last;
    EmitLocal(ps, t, baseline, prevClose, r, Tally(ValueAt(ps, m), HasPrice(ps, m), m));
  }

  /** The prices carried out of a time point that is not the last are the
      prices by definition just before the next time. */
  lemma CarryOut(ps: seq<Position>, times: seq<int>, idx: nat, now: int, prevClose: map<string, real>,
                 feed: map<string, seq<Sample>>, realtime: map<string, real>, last: map<string, real>,
                 next: map<string, real>)
    requires StrictlyAscending(times) && CoversSamples(times, feed) && idx + 1 < |times| && times[idx + 1] <= now
    requires Agrees(ps, last, times[idx] - 1, false, prevClose, feed, realtime)
    requires next == TallyOver(ps, FreshAt(ps, times[idx], IsLastPoint(times, idx, now), feed, realtime),
                               Tally(0.0, false, last)).last
    ensures Agrees(ps, next, times[idx + 1] - 1, false, prevClose, feed, realtime)
  {
    assert !IsLastPoint(times, idx, now);
    var r, _ := StepIsReference(ps, times[idx], false, prevClose, feed, realtime, last);
    AgreesIsPointwise(ps, next, times[idx], false, prevClose, feed, realtime);
    forall s | s in Syms(ps) ensures Get(next, s) == PriceAt(s, times[idx + 1] - 1, false, prevClose, feed, realtime) {
      CarryToNext(times, idx, s, prevClose, feed, realtime);
    }
    AgreesIsPointwise(ps, next, times[idx + 1] - 1, false, prevClose, feed, realtime);
  }

  /** One time point of the loop emits the point by definition and carries
      out prices that, unless the point was the last, are the prices by
      definition just before the next time. */
  lemma PointStep(ps: seq<Position>, times: seq<int>, idx: nat, now: int, baseline: real, prevClose: map<string, real>,
                  feed: map<string, seq<Sample>>, realtime: map<string, real>, last: map<string, real>)
      returns (next: map<string, real>)
    requires StrictlyAscending(times) && CoversSamples(times, feed) && idx < |times| && times[idx] <= now
    requires Agrees(ps, last, times[idx] - 1, false, prevClose, feed, realtime)
    ensures Points(ps, times, idx, now, baseline, prevClose, feed, realtime, last)
      == ReferencePoint(ps, times, idx, now, baseline, prevClose, feed, realtime)
         + Points(ps, times, idx + 1, now, baseline, prevClose, feed, realtime, next)
    ensures ReferencePoints(ps, times, idx, now, baseline, prevClose, feed, realtime)
      == ReferencePoint(ps, times, idx, now, baseline, prevClose, feed, realtime)
         + ReferencePoints(ps, times, idx + 1, now, baseline, prevClose, feed, realtime)
    ensures idx + 1 < |times| && times[idx + 1] <= now ==> Agrees(ps, next, times[idx + 1] - 1, false, prevClose, feed, realtime)
  {
    next := PointIsReference(ps, times, idx, now, baseline, prevClose, feed, realtime, last);
    if idx + 1 < |times| && times[idx + 1] <= now {
      CarryOut(ps, times, idx, now, prevClose, feed, realtime, last, next);
    }
  }

  /** A time after `now` contributes nothing, and neither does any later
      time. */
  lemma SkipStep(ps: seq<Position>, times: seq<int>, idx: nat, now: int, baseline: real, prevClose: map<string, real>,
                 feed: map<string, seq<Sample>>, realtime: map<string, real>, last: map<string, real>)
    requires StrictlyAscending(times) && idx < |times| && times[idx] > now
    ensures Points(ps, times, idx, now, baseline, prevClose, feed, realtime, last)
      == Points(ps, times, idx + 1, now, baseline, prevClose, feed, realtime, last)
    ensures ReferencePoints(ps, times, idx, now, baseline, prevClose, feed, realtime)
      == ReferencePoints(ps, times, idx + 1, now, baseline, prevClose, feed, realtime)
    ensures idx + 1 < |times| ==> times[idx + 1] > now
  {
    if idx + 1 < |times| {
      assert times[idx] < times[idx + 1];
    }
  }

  ghost predicate Matches(ps: seq<Position>, times: seq<int>, idx: nat, now: int, baseline: real,
                          prevClose: map<string, real>, feed: map<string, seq<Sample>>,
                          realtime: map<string, real>, last: map<string, real>)
    requires idx <= |times|
  {
    Points(ps, times, idx, now, baseline, prevClose, feed, realtime, last)
      == ReferencePoints(ps, times, idx, now, baseline, prevClose, feed, realtime)
  }

  /** The time loop computes the reference curve. */
  lemma {:induction false} PointsAreReference(ps: seq<Position>, times: seq<int>, idx: nat, now: int, baseline: real,
                                              prevClose: map<string, real>, feed: map<string, seq<Sample>>,
                                              realtime: map<string, real>, last: map<string, real>)
    requires StrictlyAscending(times) && CoversSamples(times, feed) && idx <= |times|
    requires idx < |times| && times[idx] <= now ==> Agrees(ps, last, times[idx] - 1, false, prevClose, feed, realtime)
    ensures Matches(ps, times, idx, now, baseline, prevClose, feed, realtime, last)
    decreases |times| - idx
  {
    if idx < |times| {
      if times[idx] > now {
        SkipStep(ps, times, idx, now, baseline, prevClose, feed, realtime, last);
        PointsAreReference(ps, times, idx + 1, now, baseline, prevClose, feed, realtime, last);
      } else {
        var next := PointStep(ps, times, idx, now, baseline, prevClose, feed, realtime, last);
        PointsAreReference(ps, times, idx + 1, now, baseline, prevClose, feed, realtime, next);
      }
    }
  }

  /** Before the first time no bar has arrived, so the previous closes the
      loop starts from are the prices by definition. */
  lemma InitialAgrees(ps: seq<Position>, times: seq<int>, prevClose: map<string, real>,
                      feed: map<string, seq<Sample>>, realtime: map<string, real>) returns (init: map<string, real>)
    requires StrictlyAscending(times) && CoversSamples(times, feed) && |times| > 0
    ensures init == InitialLast(ps, prevClose)
    ensures Agrees(ps, init, times[0] - 1, false, prevClose, feed, realtime)
  {
    init := InitialLast(ps, prevClose);
    forall s | s in Syms(ps) ensures Get(init, s) == PriceAt(s, times[0] - 1, false, prevClose, feed, realtime) {
      NoSampleBefore(times, feed, s);
    }
    AgreesIsPointwise(ps, init, times[0] - 1, false, prevClose, feed, realtime);
  }

  /** The one-day curve by definition: the reference points over every
      sorted time. */
  function ReferenceCurve(ps: seq<Position>, now: int, step: int, prevClose: map<string, real>,
                          feed: map<string, seq<Sample>>, realtime: map<string, real>): seq<Point>
    requires step >= 1
  {
    if |ps| == 0 then []
    else
      var baseline := ValueAt(ps, prevClose);
      ReferencePoints(ps, SortedInts(AllTimes(feed, baseline, now, step)), 0, now, baseline, prevClose, feed, realtime)
  }

  /** Over any strictly ascending times that include every bar, the loop
      started from the previous closes computes the reference points. */
  lemma TimesAreReference(ps: seq<Position>, times: seq<int>, now: int, baseline: real, prevClose: map<string, real>,
                          feed: map<string, seq<Sample>>, realtime: map<string, real>)
    requires StrictlyAscending(times) && CoversSamples(times, feed) && |times| > 0
    ensures Points(ps, times, 0, now, baseline, prevClose, feed, realtime, InitialLast(ps, prevClose))
      == ReferencePoints(ps, times, 0, now, baseline, prevClose, feed, realtime)
  {
    var init := InitialAgrees(ps, times, prevClose, feed, realtime);
    PointsAreReference(ps, times, 0, now, baseline, prevClose, feed, realtime, init);
  }

  /** The loop over times computes the reference curve. */
  lemma CurveIsReference(ps: seq<Position>, now: int, step: int, prevClose: map<string, real>,
                         feed: map<string, seq<Sample>>, realtime: map<string, real>)
    requires step >= 1
    ensures Curve(ps, now, step, prevClose, feed, realtime) == ReferenceCurve(ps, now, step, prevClose, feed, realtime)
  {
    if |ps| > 0 {
      var baseline := ValueAt(ps, prevClose);
      var all := AllTimes(feed, baseline, now, step);
      var times := SortedInts(all);
      if all != {} {
        assert CoversSamples(times, feed);
        TimesAreReference(ps, times, now, baseline, prevClose, feed, realtime);
      }
    }
  }

  /** `get_intraday_values` is the reference curve over the sorted times:
      each point's prices are the latest bar at or before its time, else the
      previous close, with real-time prices at the last point. */
  lemma IntradayIsReference(l: Ledger, today: int, now: int, step: int, prevClose: map<string, real>,
                            feed: map<string, seq<Sample>>, realtime: map<string, real>)
    requires step >= 1
    ensures IntradayValues(l, today, now, step, prevClose, feed, realtime)
      == ReferenceCurve(Positions(l, today), now, step, prevClose, feed, realtime)
  {
    CurveIsReference(Positions(l, today), now, step, prevClose, feed, realtime);
  }


  // ---------------------------------------------------------------------------
  // Multi-day curve

  /** One point of the multi-day curve. */
  datatype Stamp = Stamp(timestamp: int, value: real)

  /** The bars of `s` as a map from timestamp to the last price at it. */
  function LookupOf(feed: map<string, seq<Sample>>, s: string): map<int, real> {
    LastMatch(SamplesOf(feed, s))
  }

  function StampFresh(ps: seq<Position>, ts: int, feed: map<string, seq<Sample>>): (m: map<string, real>)
    ensures m.Keys <= Syms(ps)
    ensures forall s :: s in Syms(ps) ==> Get(m, s) == Get(LookupOf(feed, s), ts)
  {
    map s | s in Syms(ps) && ts in LookupOf(feed, s) :: LookupOf(feed, s)[ts]
  }

  /** The timestamp loop of `get_multiday_intraday_values`. */
  function Stamps(ps: seq<Position>, stamps: seq<int>, idx: nat, feed: map<string, seq<Sample>>,
                  last: map<string, real>): seq<Stamp>
    requires idx <= |stamps|
    decreases |stamps| - idx
  {
    if idx == |stamps| then []
    else
      var ts := stamps[idx];
      var tally := TallyOver(ps, StampFresh(ps, ts, feed), Tally(0.0, false, last));
      (if tally.hasData && tally.total > 0.0 then [Stamp(ts, tally.total)] else [])
      + Stamps(ps, stamps, idx + 1, feed, tally.last)
  }

  /** `get_multiday_intraday_values`, with the price feeds as inputs. */
  function MultidayValues(l: Ledger, today: int, prevClose: map<string, real>, feed: map<string, seq<Sample>>): seq<Stamp> {
    StampCurve(Positions(l, today), prevClose, feed)
  }

  /** The multi-day curve of the positions `ps`. */
  function StampCurve(ps: seq<Position>, prevClose: map<string, real>, feed: map<string, seq<Sample>>): seq<Stamp> {
    if |ps| == 0 then []
    else
      var stamps := SampleTimes(feed);
      if stamps == {} then []
      else Stamps(ps, SortedInts(stamps), 0, feed, InitialLast(ps, prevClose))
  }

  /** A symbol's price at `ts` by definition: its latest bar at or before
      `ts`, else its previous close. */
  function StampPrice(s: string, ts: int, prevClose: map<string, real>, feed: map<string, seq<Sample>>): Option<real> {
    var v := LatestValue(LookupOf(feed, s), ts);
    if v.Some? then v else Get(prevClose, s)
  }

  function StampPrices(ps: seq<Position>, ts: int, prevClose: map<string, real>, feed: map<string, seq<Sample>>): map<string, real> {
    map s | s in Syms(ps) && StampPrice(s, ts, prevClose, feed).Some? :: StampPrice(s, ts, prevClose, feed).value
  }

  /** Each position's symbol is priced by `StampPrice`, and nothing else is. */
  lemma StampPricesGet(ps: seq<Position>, ts: int, prevClose: map<string, real>, feed: map<string, seq<Sample>>, s: string)
    ensures Get(StampPrices(ps, ts, prevClose, feed), s) == if s in Syms(ps) then StampPrice(s, ts, prevClose, feed) else None
  {
  }

  /** The point by definition at `stamps[idx]`, if the positions priced by
      `StampPrice` have some price and a positive value there. */
  function ReferenceStamp(ps: seq<Position>, stamps: seq<int>, idx: nat, prevClose: map<string, real>,
                          feed: map<string, seq<Sample>>): (r: seq<Stamp>)
    requires idx < |stamps|
    ensures |r| <= 1
  {
    var m := StampPrices(ps, stamps[idx], prevClose, feed);
    if HasPrice(ps, m) && ValueAt(ps, m) > 0.0 then [Stamp(stamps[idx], ValueAt(ps, m))] else []
  }

  /** The multi-day curve by definition. */
  function ReferenceStamps(ps: seq<Position>, stamps: seq<int>, idx: nat, prevClose: map<string, real>,
                           feed: map<string, seq<Sample>>): (r: seq<Stamp>)
    requires idx <= |stamps|
    ensures forall i :: 0 <= i < |r| ==> r[i].value > 0.0
    decreases |stamps| - idx
  {
    if idx == |stamps| then []
    else
      ReferenceStamp(ps, stamps, idx, prevClose, feed) + ReferenceStamps(ps, stamps, idx + 1, prevClose, feed)
  }

  /** Every bar time of `s` is a stamp. */
  lemma LookupKeysAreStamps(stamps: seq<int>, feed: map<string, seq<Sample>>, s: string)
    requires CoversSamples(stamps, feed)
    ensures forall k :: k in LookupOf(feed, s) ==> k in stamps
  {
    LastMatchKeys(SamplesOf(feed, s));
    forall k | k in LookupOf(feed, s) ensures k in stamps {
      var i :| 0 <= i < |SamplesOf(feed, s)| && SamplesOf(feed, s)[i].time == k;
      assert k in SampleTimes(feed);
    }
  }

  /** No bar lies before the first stamp. */
  lemma NoBarBeforeFirstStamp(stamps: seq<int>, feed: map<string, seq<Sample>>, s: string)
    requires StrictlyAscending(stamps) && CoversSamples(stamps, feed) && |stamps| > 0
    ensures LatestKey(LookupOf(feed, s), stamps[0] - 1).None?
  {
    LookupKeysAreStamps(stamps, feed, s);
    forall k | k in LookupOf(feed, s) ensures k > stamps[0] - 1 {
      var j :| 0 <= j < |stamps| && stamps[j] == k;
      assert stamps[0] <= stamps[j];
    }
  }

  /** No bar lies strictly between two consecutive stamps. */
  lemma NoBarBetweenStamps(stamps: seq<int>, feed: map<string, seq<Sample>>, s: string, idx: nat)
    requires StrictlyAscending(stamps) && CoversSamples(stamps, feed) && idx + 1 < |stamps|
    ensures LatestKey(LookupOf(feed, s), stamps[idx + 1] - 1) == LatestKey(LookupOf(feed, s), stamps[idx])
  {
    var m := LookupOf(feed, s);
    LookupKeysAreStamps(stamps, feed, s);
    forall k | k in m && stamps[idx] < k ensures stamps[idx + 1] - 1 < k {
      var j :| 0 <= j < |stamps| && stamps[j] == k;
      assert idx < j;
      assert stamps[idx + 1] <= stamps[j];
    }
    LatestKeyGap(m, stamps[idx], stamps[idx + 1] - 1);
  }

  /** The carried prices `last` are the prices by definition at `ts`. */
  ghost predicate AgreesAtStamp(ps: seq<Position>, last: map<string, real>, ts: int, prevClose: map<string, real>,
                                feed: map<string, seq<Sample>>)
    decreases |ps|
  {
    |ps| == 0
    || (Get(last, ps[0].symbol) == StampPrice(ps[0].symbol, ts, prevClose, feed)
        && AgreesAtStamp(ps[1..], last, ts, prevClose, feed))
  }

  /** Agreement position by position is agreement on every symbol held. */
  lemma {:induction false} AgreesAtStampIsPointwise(ps: seq<Position>, last: map<string, real>, ts: int,
                                                    prevClose: map<string, real>, feed: map<string, seq<Sample>>)
    ensures AgreesAtStamp(ps, last, ts, prevClose, feed)
      <==> forall s :: s in Syms(ps) ==> Get(last, s) == StampPrice(s, ts, prevClose, feed)
    decreases |ps|
  {
    if |ps| > 0 {
      SymsTail(ps);
      AgreesAtStampIsPointwise(ps[1..], last, ts, prevClose, feed);
    }
  }


  /** One timestamp of the loop, from prices carried correctly from just
      before it, carries the prices by definition at it and computes their
      value and data flag. */
  lemma StampTally(ps: seq<Position>, ts: int, prevClose: map<string, real>, feed: map<string, seq<Sample>>,
                   last: map<string, real>) returns (r: Tally, m: map<string, real>)
    requires AgreesAtStamp(ps, last, ts - 1, prevClose, feed)
    ensures r == TallyOver(ps, StampFresh(ps, ts, feed), Tally(0.0, false, last))
    ensures m == StampPrices(ps, ts, prevClose, feed)
    ensures AgreesAtStamp(ps, r.last, ts, prevClose, feed)
    ensures r.total == ValueAt(ps, m) && r.hasData == HasPrice(ps, m)
  {
    var offered := StampFresh(ps, ts, feed);
    r := TallyOver(ps, offered, Tally(0.0, false, last));
    m := StampPrices(ps, ts, prevClose, feed);
    TallyOverRefreshes(ps, offered, Tally(0.0, false, last));
    AgreesAtStampIsPointwise(ps, last, ts - 1, prevClose, feed);
    forall s | s in Syms(ps) ensures Get(r.last, s) == StampPrice(s, ts, prevClose, feed) {
      LatestKeyAt(LookupOf(feed, s), ts);
    }
    forall s | s in Syms(ps) ensures Get(r.last, s) == Get(m, s) {
      StampPricesGet(ps, ts, prevClose, feed, s);
    }
    ValueAtLocal(ps, r.last, m);
    AgreesAtStampIsPointwise(ps, r.last, ts, prevClose, feed);
  }

  /** One timestamp of the loop emits the point by definition and carries
      out the prices by definition just before the next timestamp. */
  lemma StampStep(ps: seq<Position>, stamps: seq<int>, idx: nat, prevClose: map<string, real>,
                  feed: map<string, seq<Sample>>, last: map<string, real>) returns (next: map<string, real>)
    requires StrictlyAscending(stamps) && CoversSamples(stamps, feed) && idx < |stamps|
    requires AgreesAtStamp(ps, last, stamps[idx] - 1, prevClose, feed)
    ensures Stamps(ps, stamps, idx, feed, last)
      == ReferenceStamp(ps, stamps, idx, prevClose, feed) + Stamps(ps, stamps, idx + 1, feed, next)
    ensures ReferenceStamps(ps, stamps, idx, prevClose, feed)
      == ReferenceStamp(ps, stamps, idx, prevClose, feed) + ReferenceStamps(ps, stamps, idx + 1, prevClose, feed)
    ensures idx + 1 < |stamps| ==> AgreesAtStamp(ps, next, stamps[idx + 1] - 1, prevClose, feed)
  {
    var ts := stamps[idx];
    var r, _ := StampTally(ps, ts, prevClose, feed, last);
    next := r.last;
    if idx + 1 < |stamps| {
      AgreesAtStampIsPointwise(ps, next, ts, prevClose, feed);
      forall s | s in Syms(ps) ensures Get(next, s) == StampPrice(s, stamps[idx + 1] - 1, prevClose, feed) {
        NoBarBetweenStamps(stamps, feed, s, idx);
      }
      AgreesAtStampIsPointwise(ps, next, stamps[idx + 1] - 1, prevClose, feed);
    }
  }

  /** The timestamp loop computes the reference curve. */
  lemma {:induction false} StampsAreReference(ps: seq<Position>, stamps: seq<int>, idx: nat, prevClose: map<string, real>,
                                              feed: map<string, seq<Sample>>, last: map<string, real>)
    requires StrictlyAscending(stamps) && CoversSamples(stamps, feed) && idx <= |stamps|
    requires idx < |stamps| ==> AgreesAtStamp(ps, last, stamps[idx] - 1, prevClose, feed)
    ensures Stamps(ps, stamps, idx, feed, last) == ReferenceStamps(ps, stamps, idx, prevClose, feed)
    decreases |stamps| - idx
  {
    if idx < |stamps| {
      var next := StampStep(ps, stamps, idx, prevClose, feed, last);
      StampsAreReference(ps, stamps, idx + 1, prevClose, feed, next);
    }
  }

  /** Before the first timestamp no bar has arrived, so the previous closes
      the loop starts from are the prices by definition. */
  lemma InitialAgreesAtStamp(ps: seq<Position>, stamps: seq<int>, prevClose: map<string, real>,
                             feed: map<string, seq<Sample>>) returns (init: map<string, real>)
    requires StrictlyAscending(stamps) && CoversSamples(stamps, feed) && |stamps| > 0
    ensures init == InitialLast(ps, prevClose)
    ensures AgreesAtStamp(ps, init, stamps[0] - 1, prevClose, feed)
  {
    init := InitialLast(ps, prevClose);
    forall s | s in Syms(ps) ensures Get(init, s) == StampPrice(s, stamps[0] - 1, prevClose, feed) {
      NoBarBeforeFirstStamp(stamps, feed, s);
    }
    AgreesAtStampIsPointwise(ps, init, stamps[0] - 1, prevClose, feed);
  }

  /** The multi-day curve by definition: the reference points over every
      sorted bar time. */
  function ReferenceStampCurve(ps: seq<Position>, prevClose: map<string, real>,
                               feed: map<string, seq<Sample>>): seq<Stamp>
  {
    if |ps| == 0 then [] else ReferenceStamps(ps, SortedInts(SampleTimes(feed)), 0, prevClose, feed)
  }

  /** The loop over timestamps computes the reference curve. */
  lemma StampCurveIsReference(ps: seq<Position>, prevClose: map<string, real>, feed: map<string, seq<Sample>>)
    ensures StampCurve(ps, prevClose, feed) == ReferenceStampCurve(ps, prevClose, feed)
  {
    var all := SampleTimes(feed);
    var stamps := SortedInts(all);
    if |ps| > 0 && all != {} {
      assert CoversSamples(stamps, feed);
      var init := InitialAgreesAtStamp(ps, stamps, prevClose, feed);
      StampsAreReference(ps, stamps, 0, prevClose, feed, init);
    }
  }

  /** `get_multiday_intraday_values` is the reference curve over the sorted
      timestamps: each point prices every position at its latest bar at or
      before the timestamp, else at its previous close. */
  lemma MultidayIsReference(l: Ledger, today: int, prevClose: map<string, real>, feed: map<string, seq<Sample>>)
    ensures MultidayValues(l, today, prevClose, feed) == ReferenceStampCurve(Positions(l, today), prevClose, feed)
  {
    StampCurveIsReference(Positions(l, today), prevClose, feed);
  }

}
