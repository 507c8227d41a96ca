/** The scratch-portfolio replay that app/portfolio.py uses for its
    time series: transactions sorted by date are fed one at a time into a
    fresh ledger, catching up to each day (or month end) in turn. */
module Replay {
  import opened Common
  import opened Strings
  import opened Models
  import opened Ledger
  import Sorting

  /** `sorted(transactions, key=date)`: a stable sort by date. */
  function ByDate(txns: seq<Transaction>): (r: seq<Transaction>)
    ensures multiset(r) == multiset(txns)
    ensures forall i, j :: 0 <= i < j < |r| ==> r[i].date <= r[j].date
  {
    var r := Sorting.StableSortBy(txns, DateKey);
    assert forall i, j :: 0 <= i < j < |r| ==> DateKey(r[i]) <= DateKey(r[j]);
    r
  }

  lemma ByDateProcessable(txns: seq<Transaction>)
    requires AllProcessable(txns)
    ensures AllProcessable(ByDate(txns))
  {
    var r := ByDate(txns);
    forall i | 0 <= i < |r| ensures Processable(r[i]) {
      assert r[i] in multiset(txns);
      var j :| 0 <= j < |txns| && txns[j] == r[i];
    }
  }

  /** How many leading transactions are dated on or before `d`. */
  function CountThrough(sorted: seq<Transaction>, d: int): (n: nat)
    ensures n <= |sorted|
    ensures forall j :: 0 <= j < n ==> sorted[j].date <= d
    ensures n < |sorted| ==> sorted[n].date > d
    decreases |sorted|
  {
    if |sorted| > 0 && sorted[0].date <= d then 1 + CountThrough(sorted[1..], d) else 0
  }

  /** In date order, the leading run through `d` is exactly the set of
      transactions dated on or before `d`. */
  lemma CountThroughIsCutoff(sorted: seq<Transaction>, d: int, j: int)
    requires forall a, b :: 0 <= a < b < |sorted| ==> sorted[a].date <= sorted[b].date
    requires 0 <= j < |sorted|
    ensures j < CountThrough(sorted, d) <==> sorted[j].date <= d
  {
    var n := CountThrough(sorted, d);
    if n <= j && n < |sorted| {
      assert sorted[n].date <= sorted[j].date;
    }
  }

  /** A later day never has a shorter leading run. */
  lemma CountThroughMonotone(sorted: seq<Transaction>, d: int, e: int)
    requires d <= e
    ensures CountThrough(sorted, d) <= CountThrough(sorted, e)
  {
  }

  /** The inner `while` loop: process transactions from position `idx` while
      they are dated on or before `day`; returns the ledger and the next
      position. */
  function CatchUp(env: Env, l: Ledger, sorted: seq<Transaction>, idx: nat, day: int): (r: (Ledger, nat))
    requires AllProcessable(sorted) && idx <= |sorted|
    ensures idx <= r.1 <= |sorted|
    ensures r.1 < |sorted| ==> sorted[r.1].date > day
    decreases |sorted| - idx
  {
    if idx < |sorted| && sorted[idx].date <= day then
      CatchUp(env, Process(env, l, sorted[idx]), sorted, idx + 1, day)
    else (l, idx)
  }

  /** The ledger obtained by replaying the first `n` transactions into a
      fresh portfolio. */
  function ReplayPrefix(env: Env, sorted: seq<Transaction>, n: nat): Ledger
    requires AllProcessable(sorted) && n <= |sorted|
  {
    assert AllProcessable(sorted[..n]) by {
      forall i | 0 <= i < n ensures Processable(sorted[..n][i]) {
        assert sorted[..n][i] == sorted[i];
      }
    }
    ApplyAll(env, Empty, sorted[..n])
  }

  /** Catching up from a replayed prefix that ends inside the leading run
      through `day` lands exactly at the end of that run, with the ledger of
      a replay from scratch. */
  lemma {:induction false} CatchUpIsReplay(env: Env, sorted: seq<Transaction>, idx: nat, day: int)
    requires AllProcessable(sorted) && idx <= CountThrough(sorted, day)
    ensures CatchUp(env, ReplayPrefix(env, sorted, idx), sorted, idx, day)
      == (ReplayPrefix(env, sorted, CountThrough(sorted, day)), CountThrough(sorted, day))
    decreases |sorted| - idx
  {
    var n := CountThrough(sorted, day);
    if idx < n {
      var t := sorted[idx];
      assert sorted[..idx + 1] == sorted[..idx] + [t];
      assert AllProcessable(sorted[..idx]) by {
        forall i | 0 <= i < idx ensures Processable(sorted[..idx][i]) {
          assert sorted[..idx][i] == sorted[i];
        }
      }
      ApplyAllSnoc(env, Empty, sorted[..idx], t);
      assert ReplayPrefix(env, sorted, idx + 1) == Process(env, ReplayPrefix(env, sorted, idx), t);
      CatchUpIsReplay(env, sorted, idx + 1, day);
    }
  }

  /** Total cost basis over every symbol's lots, empty or not. */
  function LotCostOver(lots: map<string, seq<Lot>>, symbols: seq<string>): real
    decreases |symbols|
  {
    if |symbols| == 0 then 0.0
    else (if symbols[0] in lots then Cost(lots[symbols[0]]) else 0.0) + LotCostOver(lots, symbols[1..])
  }

  /** The sum of `lot.total_cost` over all lots of the ledger. */
  function TotalLotCost(l: Ledger): real {
    LotCostOver(l.lots, SortedStrings(l.lots.Keys))
  }
}
