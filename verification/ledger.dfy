/** The FIFO lot ledger of app/portfolio.py: the state a `Portfolio` keeps
    and how `_process_transaction` changes it for each of the eight actions,
    plus `add_transactions`, which replays a batch in date order. Split
    tables and today's date come in through an environment. */
module Ledger {
  import opened Common
  import opened Models
  import opened Splits
  import Sorting

  /** `LotInfo`: shares bought (or received) together. */
  datatype Lot = Lot(quantity: real, costPerShare: real, purchaseDate: int)

  function TotalCost(lot: Lot): real {
    lot.quantity * lot.costPerShare
  }

  /** One realized sale of a symbol. */
  datatype Sale = Sale(date: int, quantity: real, costBasis: real, proceeds: real)

  /** The portfolio's state. A symbol missing from a map has an empty list,
      as with the source's default dictionaries. */
  datatype Ledger = Ledger(
    lots: map<string, seq<Lot>>,          // oldest lot first
    dividends: map<string, seq<real>>,
    totalFees: real,
    transactions: seq<Transaction>,
    cash: map<int, real>,                 // date -> balance snapshot
    sales: map<string, seq<Sale>>)

  const Empty: Ledger := Ledger(map[], map[], 0.0, [], map[], map[])

  /** What the ledger consults besides its own state: the split table of
      each symbol (a missing symbol has no splits), today's date, and whether
      split adjustment is on. */
  datatype Env = Env(splits: map<string, seq<Split>>, today: int, adjustSplits: bool)

  function LotsOf(l: Ledger, symbol: string): seq<Lot> {
    if symbol in l.lots then l.lots[symbol] else []
  }

  function SalesOf(l: Ledger, symbol: string): seq<Sale> {
    if symbol in l.sales then l.sales[symbol] else []
  }

  function DividendsOf(l: Ledger, symbol: string): seq<real> {
    if symbol in l.dividends then l.dividends[symbol] else []
  }

  function SplitsOf(env: Env, symbol: string): seq<Split> {
    if symbol in env.splits then env.splits[symbol] else []
  }

  /** Total shares of a lot queue. */
  function Qty(lots: seq<Lot>): real {
    if |lots| == 0 then 0.0 else lots[0].quantity + Qty(lots[1..])
  }

  /** Total cost of a lot queue. */
  function Cost(lots: seq<Lot>): real {
    if |lots| == 0 then 0.0 else TotalCost(lots[0]) + Cost(lots[1..])
  }

  ghost predicate NonNegative(lots: seq<Lot>) {
    forall i :: 0 <= i < |lots| ==> lots[i].quantity >= 0.0
  }

  lemma {:induction false} QtyNonNegative(lots: seq<Lot>)
    requires NonNegative(lots)
    ensures Qty(lots) >= 0.0
    decreases |lots|
  {
    if |lots| > 0 {
      assert NonNegative(lots[1..]) by {
        forall i | 0 <= i < |lots| - 1 ensures lots[1..][i].quantity >= 0.0 {
          assert lots[1..][i] == lots[i + 1];
        }
      }
      QtyNonNegative(lots[1..]);
    }
  }

  lemma {:induction false} QtyAppend(a: seq<Lot>, b: seq<Lot>)
    ensures Qty(a + b) == Qty(a) + Qty(b)
    ensures Cost(a + b) == Cost(a) + Cost(b)
    decreases |a|
  {
    if |a| == 0 {
      assert a + b == b;
    } else {
      assert (a + b)[1..] == a[1..] + b;
      QtyAppend(a[1..], b);
    }
  }

  // ---------------------------------------------------------------------------
  // FIFO depletion (the loop shared by SELL, GAS and FIX)

  /** The queue left after a depletion, with the shares and cost taken out. */
  datatype Depletion = Depletion(lots: seq<Lot>, removed: real, removedCost: real)

  /** Takes up to `remaining` shares from the front of the queue: whole lots
      while they fit, then part of the next lot. */
  function Deplete(lots: seq<Lot>, remaining: real): (d: Depletion)
    // shares and cost are conserved
    ensures Qty(d.lots) + d.removed == Qty(lots)
    ensures Cost(d.lots) + d.removedCost == Cost(lots)
    ensures |d.lots| <= |lots|
    decreases |lots|
  {
    if remaining <= 0.0 || |lots| == 0 then Depletion(lots, 0.0, 0.0)
    else if lots[0].quantity <= remaining then
      var rest := Deplete(lots[1..], remaining - lots[0].quantity);
      Depletion(rest.lots, lots[0].quantity + rest.removed, TotalCost(lots[0]) + rest.removedCost)
    else
      var head := lots[0].(quantity := lots[0].quantity - remaining);
      var r := [head] + lots[1..];
      assert r[1..] == lots[1..];
      assert TotalCost(head) + remaining * lots[0].costPerShare == TotalCost(lots[0]);
      Depletion(r, remaining, remaining * lots[0].costPerShare)
  }

  function Min(a: real, b: real): real {
    if a <= b then a else b
  }

  function Max(a: real, b: real): real {
    if a >= b then a else b
  }

  /** With no negative lot, a depletion removes exactly the requested amount
      capped by what is held (nothing for a non-positive request), and leaves
      no negative lot. */
  lemma {:induction false} DepleteIsCapped(lots: seq<Lot>, remaining: real)
    requires NonNegative(lots)
    ensures Deplete(lots, remaining).removed == (if remaining <= 0.0 then 0.0 else Min(remaining, Qty(lots)))
    ensures NonNegative(Deplete(lots, remaining).lots)
    decreases |lots|
  {
    if remaining > 0.0 && |lots| > 0 {
      assert NonNegative(lots[1..]) by {
        forall i | 0 <= i < |lots| - 1 ensures lots[1..][i].quantity >= 0.0 {
          assert lots[1..][i] == lots[i + 1];
        }
      }
      QtyNonNegative(lots[1..]);
      if lots[0].quantity <= remaining {
        DepleteIsCapped(lots[1..], remaining - lots[0].quantity);
      } else {
        var head := lots[0].(quantity := lots[0].quantity - remaining);
        var r := [head] + lots[1..];
        forall i | 0 <= i < |r| ensures r[i].quantity >= 0.0 {
          if i > 0 { assert r[i] == lots[i]; }
        }
      }
    }
  }

  /** FIFO order: some prefix of the queue is consumed whole, the next lot
      at most loses shares (keeping its cost and date), and every later lot
      is untouched. */
  lemma {:induction false} DepleteIsFifo(lots: seq<Lot>, remaining: real)
    ensures var d := Deplete(lots, remaining);
      var k := |lots| - |d.lots|;
      && d.lots == (if |d.lots| == 0 then [] else [d.lots[0]] + lots[k + 1..])
      && (|d.lots| > 0 ==>
            d.lots[0].costPerShare == lots[k].costPerShare
            && d.lots[0].purchaseDate == lots[k].purchaseDate
            && d.lots[0].quantity <= lots[k].quantity)
      && d.removed == Qty(lots[..k]) + (if |d.lots| > 0 then lots[k].quantity - d.lots[0].quantity else 0.0)
    decreases |lots|
  {
    var d := Deplete(lots, remaining);
    var k := |lots| - |d.lots|;
    if remaining <= 0.0 || |lots| == 0 {
      assert k == 0 && lots[..0] == [];
      if |lots| > 0 {
        assert lots == [lots[0]] + lots[1..];
      }
    } else if lots[0].quantity <= remaining {
      DepleteIsFifo(lots[1..], remaining - lots[0].quantity);
      var rest := lots[1..];
      assert k == 1 + (|rest| - |d.lots|);
      assert lots[..k] == [lots[0]] + rest[..k - 1];
      QtyAppend([lots[0]], rest[..k - 1]);
      assert Qty([lots[0]]) == lots[0].quantity by {
        assert [lots[0]][1..] == [];
      }
      if |d.lots| > 0 {
        assert rest[k - 1 + 1..] == lots[k + 1..];
        assert rest[k - 1] == lots[k];
      }
    } else {
      assert k == 0 && lots[..0] == [];
    }
  }

  // ---------------------------------------------------------------------------
  // Processing one transaction

  predicate IsSplitAdjusted(a: ActionType) {
    a == Buy || a == Sell || a == Gift || a == Gas
  }

  /** The split factor `_process_transaction` applies: from the transaction
      date to today, and only for BUY, SELL, GIFT and GAS; every other action
      (FIX included) uses 1. */
  function Factor(env: Env, t: Transaction): real {
    if env.adjustSplits && IsSplitAdjusted(t.action)
    then AdjustmentFactor(SplitsOf(env, t.asset), t.date, env.today)
    else 1.0
  }

  /** A split-adjusted price: divided by the factor unless it is zero. */
  function AdjustedPrice(price: real, f: real): real {
    if f != 0.0 then price / f else price
  }

  /** The transaction's quantity scaled by the split factor. */
  function AdjustedQty(t: Transaction, f: real): real
    requires t.quantity.Some?
  {
    t.quantity.value * f
  }

  /** What a SELL is paid: the adjusted requested quantity times the
      adjusted price. */
  function Proceeds(t: Transaction, f: real): real
    requires t.quantity.Some? && t.avePrice.Some?
  {
    AdjustedQty(t, f) * AdjustedPrice(t.avePrice.value, f)
  }

  /** BUY: one new lot at the end of the symbol's queue. */
  function ApplyBuy(l: Ledger, t: Transaction, f: real): (r: Ledger)
    requires t.action == Buy && Processable(t)
    ensures LotsOf(r, t.asset) == LotsOf(l, t.asset) + [Lot(AdjustedQty(t, f), AdjustedPrice(t.avePrice.value, f), t.date)]
    ensures Qty(LotsOf(r, t.asset)) == Qty(LotsOf(l, t.asset)) + AdjustedQty(t, f)
    ensures forall s :: s != t.asset ==> LotsOf(r, s) == LotsOf(l, s)
    ensures r == l.(lots := r.lots)
  {
    var lot := Lot(AdjustedQty(t, f), AdjustedPrice(t.avePrice.value, f), t.date);
    QtyAppend(LotsOf(l, t.asset), [lot]);
    assert [lot][1..] == [];
    l.(lots := l.lots[t.asset := LotsOf(l, t.asset) + [lot]])
  }

  /** SELL: depletes `quantity × f` shares FIFO and records a sale when any
      share was taken. The sale's proceeds use the requested quantity, even
      when fewer shares were held. */
  function ApplySell(l: Ledger, t: Transaction, f: real): (r: Ledger)
    requires t.action == Sell && Processable(t)
    ensures var d := Deplete(LotsOf(l, t.asset), AdjustedQty(t, f));
      && LotsOf(r, t.asset) == d.lots
      && (d.removed > 0.0 ==>
            SalesOf(r, t.asset) == SalesOf(l, t.asset)
              + [Sale(t.date, d.removed, d.removedCost, Proceeds(t, f))])
      && (d.removed <= 0.0 ==> SalesOf(r, t.asset) == SalesOf(l, t.asset))
    ensures forall s :: s != t.asset ==> LotsOf(r, s) == LotsOf(l, s) && SalesOf(r, s) == SalesOf(l, s)
    ensures r == l.(lots := r.lots, sales := r.sales)
  {
    var qty := AdjustedQty(t, f);
    var proceeds := Proceeds(t, f);
    var d := Deplete(LotsOf(l, t.asset), qty);
    var l1 := l.(lots := l.lots[t.asset := d.lots]);
    if d.removed > 0.0 then
      l1.(sales := l.sales[t.asset := SalesOf(l, t.asset) + [Sale(t.date, d.removed, d.removedCost, proceeds)]])
    else l1
  }

  /** GIFT: one new zero-cost lot. */
  function ApplyGift(l: Ledger, t: Transaction, f: real): (r: Ledger)
    requires t.action == Gift && Processable(t)
    ensures LotsOf(r, t.asset) == LotsOf(l, t.asset) + [Lot(AdjustedQty(t, f), 0.0, t.date)]
    ensures Cost(LotsOf(r, t.asset)) == Cost(LotsOf(l, t.asset))
    ensures forall s :: s != t.asset ==> LotsOf(r, s) == LotsOf(l, s)
    ensures r == l.(lots := r.lots)
  {
    var lot := Lot(AdjustedQty(t, f), 0.0, t.date);
    QtyAppend(LotsOf(l, t.asset), [lot]);
    assert [lot][1..] == [];
    l.(lots := l.lots[t.asset := LotsOf(l, t.asset) + [lot]])
  }

  /** GAS: depletes `quantity × f` shares FIFO; no sale is recorded. */
  function ApplyGas(l: Ledger, t: Transaction, f: real): (r: Ledger)
    requires t.action == Gas && Processable(t)
    ensures LotsOf(r, t.asset) == Deplete(LotsOf(l, t.asset), AdjustedQty(t, f)).lots
    ensures forall s :: s != t.asset ==> LotsOf(r, s) == LotsOf(l, s)
    ensures r == l.(lots := r.lots)
  {
    l.(lots := l.lots[t.asset := Deplete(LotsOf(l, t.asset), AdjustedQty(t, f)).lots])
  }

  /** FIX: reconciles the symbol's holding to the given quantity, adding the
      shortfall as one zero-cost lot or depleting the surplus FIFO. */
  function ApplyFix(l: Ledger, t: Transaction, f: real): (r: Ledger)
    requires t.action == Fix && Processable(t)
    ensures var target := AdjustedQty(t, f);
      var current := Qty(LotsOf(l, t.asset));
      && (target > current ==>
            LotsOf(r, t.asset) == LotsOf(l, t.asset) + [Lot(target - current, 0.0, t.date)]
            && Qty(LotsOf(r, t.asset)) == target)
      && (target == current ==> LotsOf(r, t.asset) == LotsOf(l, t.asset))
      && (target < current ==> LotsOf(r, t.asset) == Deplete(LotsOf(l, t.asset), current - target).lots)
    ensures forall s :: s != t.asset ==> LotsOf(r, s) == LotsOf(l, s)
    ensures r == l.(lots := r.lots)
  {
    var target := AdjustedQty(t, f);
    var lots := LotsOf(l, t.asset);
    var current := Qty(lots);
    if target > current then
      var lot := Lot(target - current, 0.0, t.date);
      QtyAppend(lots, [lot]);
      assert [lot][1..] == [];
      l.(lots := l.lots[t.asset := lots + [lot]])
    else if target < current then
      l.(lots := l.lots[t.asset := Deplete(lots, current - target).lots])
    else
      l.(lots := l.lots[t.asset := lots])
  }

  /** `_process_transaction`. The transaction must carry the fields its
      action reads. */
  function Process(env: Env, l: Ledger, t: Transaction): (r: Ledger)
    requires Processable(t)
    ensures r.transactions == l.transactions
    ensures forall s :: s != t.asset ==>
      LotsOf(r, s) == LotsOf(l, s) && SalesOf(r, s) == SalesOf(l, s) && DividendsOf(r, s) == DividendsOf(l, s)
    // only DIV touches dividends, only FEE the fee total, only CASH the snapshots
    ensures t.action != Div ==> r.dividends == l.dividends
    ensures t.action == Div ==> DividendsOf(r, t.asset) == DividendsOf(l, t.asset) + [t.amount.value]
    ensures r.totalFees == l.totalFees + (if t.action == Fee then t.amount.value else 0.0)
    ensures t.action != Cash ==> r.cash == l.cash
    ensures t.action == Cash ==> r.cash == l.cash[t.date := t.amount.value]
    // only SELL records sales
    ensures t.action != Sell ==> r.sales == l.sales
  {
    var f := Factor(env, t);
    match t.action
    case Buy => ApplyBuy(l, t, f)
    case Sell => ApplySell(l, t, f)
    case Div => l.(dividends := l.dividends[t.asset := DividendsOf(l, t.asset) + [t.amount.value]])
    case Gift => ApplyGift(l, t, f)
    case Fee => l.(totalFees := l.totalFees + t.amount.value)
    case Gas => ApplyGas(l, t, f)
    case Cash => l.(cash := l.cash[t.date := t.amount.value])
    case Fix => ApplyFix(l, t, f)
  }

  /** FIX is never split-adjusted, so its quantity is the target as written:
      with no negative lot the symbol ends up holding exactly the target, or
      nothing for a negative target. */
  lemma FixReachesTarget(env: Env, l: Ledger, t: Transaction)
    requires t.action == Fix && Processable(t)
    requires NonNegative(LotsOf(l, t.asset))
    ensures Qty(LotsOf(Process(env, l, t), t.asset)) == Max(t.quantity.value, 0.0)
  {
    var lots := LotsOf(l, t.asset);
    var target := t.quantity.value;
    assert Factor(env, t) == 1.0;
    QtyNonNegative(lots);
    if target < Qty(lots) {
      DepleteIsCapped(lots, Qty(lots) - target);
    }
  }

  /** SELL takes `min(requested, held)` shares, records a sale exactly when
      that is positive, and the sale's cost basis is what left the queue. */
  lemma SellRemovesCapped(env: Env, l: Ledger, t: Transaction)
    requires t.action == Sell && Processable(t)
    requires NonNegative(LotsOf(l, t.asset))
    ensures var r := Process(env, l, t);
      var q := AdjustedQty(t, Factor(env, t));
      var taken := if q <= 0.0 then 0.0 else Min(q, Qty(LotsOf(l, t.asset)));
      && Qty(LotsOf(r, t.asset)) == Qty(LotsOf(l, t.asset)) - taken
      && NonNegative(LotsOf(r, t.asset))
      && (|SalesOf(r, t.asset)| == |SalesOf(l, t.asset)| + 1 <==> taken > 0.0)
      && (taken > 0.0 ==>
            var s := SalesOf(r, t.asset)[|SalesOf(l, t.asset)|];
            s.quantity == taken
            && s.costBasis == Cost(LotsOf(l, t.asset)) - Cost(LotsOf(r, t.asset)))
  {
    var f := Factor(env, t);
    var r := Process(env, l, t);
    assert r == ApplySell(l, t, f);
    DepleteIsCapped(LotsOf(l, t.asset), AdjustedQty(t, f));
  }

  /** GAS takes `min(requested, held)` shares and records nothing. */
  lemma GasRemovesCapped(env: Env, l: Ledger, t: Transaction)
    requires t.action == Gas && Processable(t)
    requires NonNegative(LotsOf(l, t.asset))
    ensures var r := Process(env, l, t);
      var q := AdjustedQty(t, Factor(env, t));
      && Qty(LotsOf(r, t.asset)) == Qty(LotsOf(l, t.asset)) - (if q <= 0.0 then 0.0 else Min(q, Qty(LotsOf(l, t.asset))))
      && NonNegative(LotsOf(r, t.asset))
      && SalesOf(r, t.asset) == SalesOf(l, t.asset)
  {
    var f := Factor(env, t);
    var r := Process(env, l, t);
    assert r == ApplyGas(l, t, f);
    DepleteIsCapped(LotsOf(l, t.asset), AdjustedQty(t, f));
  }

  // ---------------------------------------------------------------------------
  // Replay

  /** Every transaction of the batch carries the fields its action reads. */
  predicate AllProcessable(txns: seq<Transaction>) {
    forall i :: 0 <= i < |txns| ==> Processable(txns[i])
  }

  /** Processes transactions in the given order. */
  function ApplyAll(env: Env, l: Ledger, txns: seq<Transaction>): Ledger
    requires AllProcessable(txns)
    decreases |txns|
  {
    if |txns| == 0 then l else ApplyAll(env, Process(env, l, txns[0]), txns[1..])
  }

  lemma {:induction false} ApplyAllSnoc(env: Env, l: Ledger, txns: seq<Transaction>, t: Transaction)
    requires AllProcessable(txns) && Processable(t)
    ensures AllProcessable(txns + [t])
    ensures ApplyAll(env, l, txns + [t]) == Process(env, ApplyAll(env, l, txns), t)
    decreases |txns|
  {
    if |txns| == 0 {
      assert ([] + [t])[1..] == [];
    } else {
      assert (txns + [t])[1..] == txns[1..] + [t];
      ApplyAllSnoc(env, Process(env, l, txns[0]), txns[1..], t);
    }
  }

  function DateKey(t: Transaction): real {
    t.date as real
  }

  /** `add_transactions`: sorts the batch by date, keeping the input order of
      transactions on the same date, processes them in that order, and
      appends them to the transaction list. */
  function AddTransactions(env: Env, l: Ledger, txns: seq<Transaction>): (r: Ledger)
    requires AllProcessable(txns)
    ensures |r.transactions| == |l.transactions| + |txns|
    ensures r.transactions[..|l.transactions|] == l.transactions
    ensures multiset(r.transactions[|l.transactions|..]) == multiset(txns)
    ensures forall i, j :: |l.transactions| <= i < j < |r.transactions| ==>
      r.transactions[i].date <= r.transactions[j].date
    // lots, sales, cash, dividends and fees are those of processing the
    // appended batch in its stored order
    ensures AllProcessable(r.transactions[|l.transactions|..])
    ensures r == ApplyAll(env, l, r.transactions[|l.transactions|..]).(transactions := r.transactions)
  {
    var sorted := Sorting.StableSortBy(txns, DateKey);
    ProcessablePermutation(txns, sorted);
    assert forall i, j :: 0 <= i < j < |sorted| ==> DateKey(sorted[i]) <= DateKey(sorted[j]);
    AppendedBatch(l.transactions, sorted, txns);
    ApplyAllKeepsTransactions(env, l, sorted);
    assert (l.transactions + sorted)[|l.transactions|..] == sorted;
    ApplyAll(env, l, sorted).(transactions := l.transactions + sorted)
  }

  /** Reordering a batch keeps every transaction processable. */
  lemma ProcessablePermutation(txns: seq<Transaction>, sorted: seq<Transaction>)
    requires AllProcessable(txns) && multiset(sorted) == multiset(txns)
    ensures AllProcessable(sorted)
  {
    forall i | 0 <= i < |sorted| ensures Processable(sorted[i]) {
      assert sorted[i] in multiset(txns);
    }
  }

  /** Appending a date-ordered permutation of a batch to a list. */
  lemma AppendedBatch(prefix: seq<Transaction>, batch: seq<Transaction>, txns: seq<Transaction>)
    requires multiset(batch) == multiset(txns)
    requires forall i, j :: 0 <= i < j < |batch| ==> DateKey(batch[i]) <= DateKey(batch[j])
    ensures var r := prefix + batch;
      && |r| == |prefix| + |txns|
      && r[..|prefix|] == prefix
      && multiset(r[|prefix|..]) == multiset(txns)
      && forall i, j :: |prefix| <= i < j < |r| ==> r[i].date <= r[j].date
  {
    var r := prefix + batch;
    assert |batch| == |multiset(batch)| == |txns|;
    assert r[|prefix|..] == batch;
    forall i, j | |prefix| <= i < j < |r| ensures r[i].date <= r[j].date {
      assert r[i] == batch[i - |prefix|] && r[j] == batch[j - |prefix|];
      assert DateKey(batch[i - |prefix|]) <= DateKey(batch[j - |prefix|]);
    }
  }

  lemma {:induction false} ApplyAllKeepsTransactions(env: Env, l: Ledger, txns: seq<Transaction>)
    requires AllProcessable(txns)
    ensures ApplyAll(env, l, txns).transactions == l.transactions
    decreases |txns|
  {
    if |txns| > 0 {
      ApplyAllKeepsTransactions(env, Process(env, l, txns[0]), txns[1..]);
    }
  }

  /** Transactions dated the same day are processed in their input order. */
  lemma SameDayOrderKept(env: Env, l: Ledger, txns: seq<Transaction>, day: int)
    requires AllProcessable(txns)
    ensures var r := AddTransactions(env, l, txns);
      Sorting.WithKey(r.transactions[|l.transactions|..], DateKey, day as real)
        == Sorting.WithKey(txns, DateKey, day as real)
  {
    var sorted := Sorting.StableSortBy(txns, DateKey);
    Sorting.StableSortIsStable(txns, DateKey, day as real);
    assert (l.transactions + sorted)[|l.transactions|..] == sorted;
  }

  // ---------------------------------------------------------------------------
  // Invariant: no lot ever goes negative

  /** Every queue of the ledger is free of negative lots. */
  ghost predicate LotsNonNegative(l: Ledger) {
    forall s :: NonNegative(LotsOf(l, s))
  }

  /** Acquisitions never ask for negative shares and split ratios are
      positive. */
  ghost predicate SaneInput(env: Env, t: Transaction) {
    && (forall s :: s in env.splits ==>
          forall i :: 0 <= i < |env.splits[s]| ==> env.splits[s][i].ratio > 0.0)
    && ((t.action == Buy || t.action == Gift) ==> t.quantity.Some? && t.quantity.value >= 0.0)
  }

  lemma FactorIsPositive(env: Env, t: Transaction)
    requires SaneInput(env, t)
    ensures Factor(env, t) > 0.0
  {
    if env.adjustSplits && IsSplitAdjusted(t.action) {
      FactorPositive(SplitsOf(env, t.asset), t.date, env.today);
    }
  }

  /** Processing a sane transaction keeps every lot non-negative. */
  lemma ProcessKeepsLotsNonNegative(env: Env, l: Ledger, t: Transaction)
    requires Processable(t) && SaneInput(env, t) && LotsNonNegative(l)
    ensures LotsNonNegative(Process(env, l, t))
  {
    var r := Process(env, l, t);
    forall s ensures NonNegative(LotsOf(r, s)) {
      if s == t.asset {
        ProcessKeepsOwnLotsNonNegative(env, l, t);
      } else {
        assert LotsOf(r, s) == LotsOf(l, s);
      }
    }
  }

  lemma ProcessKeepsOwnLotsNonNegative(env: Env, l: Ledger, t: Transaction)
    requires Processable(t) && SaneInput(env, t) && NonNegative(LotsOf(l, t.asset))
    ensures NonNegative(LotsOf(Process(env, l, t), t.asset))
  {
    var lots := LotsOf(l, t.asset);
    FactorIsPositive(env, t);
    var f := Factor(env, t);
    var r := Process(env, l, t);
    match t.action
    case Buy =>
      assert r == ApplyBuy(l, t, f);
      AppendNonNegative(lots, Lot(AdjustedQty(t, f), AdjustedPrice(t.avePrice.value, f), t.date));
    case Gift =>
      assert r == ApplyGift(l, t, f);
      AppendNonNegative(lots, Lot(AdjustedQty(t, f), 0.0, t.date));
    case Sell =>
      assert r == ApplySell(l, t, f);
      DepleteIsCapped(lots, AdjustedQty(t, f));
    case Gas =>
      assert r == ApplyGas(l, t, f);
      DepleteIsCapped(lots, AdjustedQty(t, f));
    case Fix =>
      assert r == ApplyFix(l, t, f);
      FixKeepsLotsNonNegative(l, t, f);
    case Div =>
      assert LotsOf(r, t.asset) == lots;
    case Fee =>
      assert LotsOf(r, t.asset) == lots;
    case Cash =>
      assert LotsOf(r, t.asset) == lots;
  }

  lemma FixKeepsLotsNonNegative(l: Ledger, t: Transaction, f: real)
    requires t.action == Fix && Processable(t) && NonNegative(LotsOf(l, t.asset))
    ensures NonNegative(LotsOf(ApplyFix(l, t, f), t.asset))
  {
    var lots := LotsOf(l, t.asset);
    var current := Qty(lots);
    var target := AdjustedQty(t, f);
    if target > current {
      AppendNonNegative(lots, Lot(target - current, 0.0, t.date));
    } else if target < current {
      DepleteIsCapped(lots, current - target);
    }
  }

  lemma AppendNonNegative(lots: seq<Lot>, lot: Lot)
    requires NonNegative(lots) && lot.quantity >= 0.0
    ensures NonNegative(lots + [lot])
  {
  }

  /** A whole replay of sane transactions never produces a negative lot. */
  lemma {:induction false} ReplayKeepsLotsNonNegative(env: Env, l: Ledger, txns: seq<Transaction>)
    requires AllProcessable(txns) && LotsNonNegative(l)
    requires forall i :: 0 <= i < |txns| ==> SaneInput(env, txns[i])
    ensures LotsNonNegative(ApplyAll(env, l, txns))
    decreases |txns|
  {
    if |txns| > 0 {
      ProcessKeepsLotsNonNegative(env, l, txns[0]);
      ReplayKeepsLotsNonNegative(env, Process(env, l, txns[0]), txns[1..]);
    }
  }

  /** Total shares over a list of sales. */
  function SoldQty(sales: seq<Sale>): real {
    if |sales| == 0 then 0.0 else sales[0].quantity + SoldQty(sales[1..])
  }

  /** Total cost basis over a list of sales. */
  function SoldCost(sales: seq<Sale>): real {
    if |sales| == 0 then 0.0 else sales[0].costBasis + SoldCost(sales[1..])
  }

  lemma {:induction false} SoldAppend(a: seq<Sale>, s: Sale)
    ensures SoldQty(a + [s]) == SoldQty(a) + s.quantity
    ensures SoldCost(a + [s]) == SoldCost(a) + s.costBasis
    decreases |a|
  {
    if |a| == 0 {
      assert ([] + [s])[1..] == [];
    } else {
      assert (a + [s])[1..] == a[1..] + [s];
      SoldAppend(a[1..], s);
    }
  }

  /** Nothing is lost by a SELL: the shares and the cost that leave the
      queue are exactly those the new sale records. */
  lemma SellConservesSharesAndCost(env: Env, l: Ledger, t: Transaction)
    requires t.action == Sell && Processable(t)
    requires NonNegative(LotsOf(l, t.asset))
    ensures var r := Process(env, l, t);
      && Qty(LotsOf(r, t.asset)) + SoldQty(SalesOf(r, t.asset)) == Qty(LotsOf(l, t.asset)) + SoldQty(SalesOf(l, t.asset))
      && Cost(LotsOf(r, t.asset)) + SoldCost(SalesOf(r, t.asset)) == Cost(LotsOf(l, t.asset)) + SoldCost(SalesOf(l, t.asset))
  {
    var f := Factor(env, t);
    var q := AdjustedQty(t, f);
    var lots := LotsOf(l, t.asset);
    var d := Deplete(lots, q);
    var r := Process(env, l, t);
    assert r == ApplySell(l, t, f);
    assert LotsOf(r, t.asset) == d.lots;
    DepleteIsCapped(lots, q);
    QtyNonNegative(lots);
    if d.removed > 0.0 {
      var sale := Sale(t.date, d.removed, d.removedCost, Proceeds(t, f));
      assert SalesOf(r, t.asset) == SalesOf(l, t.asset) + [sale];
      SoldAppend(SalesOf(l, t.asset), sale);
    } else {
      assert SalesOf(r, t.asset) == SalesOf(l, t.asset);
      DepleteNothingCostsNothing(lots, q);
    }
  }

  /** With no negative lot, a depletion that removes no shares removes no
      cost either (it can only drop empty lots). */
  lemma {:induction false} DepleteNothingCostsNothing(lots: seq<Lot>, remaining: real)
    requires NonNegative(lots)
    requires Deplete(lots, remaining).removed == 0.0
    ensures Deplete(lots, remaining).removedCost == 0.0
    decreases |lots|
  {
    if remaining > 0.0 && |lots| > 0 {
      if lots[0].quantity <= remaining {
        assert NonNegative(lots[1..]) by {
          forall i | 0 <= i < |lots| - 1 ensures lots[1..][i].quantity >= 0.0 {
            assert lots[1..][i] == lots[i + 1];
          }
        }
        DepleteIsCapped(lots[1..], remaining - lots[0].quantity);
        QtyNonNegative(lots[1..]);
        DepleteNothingCostsNothing(lots[1..], remaining - lots[0].quantity);
      }
    }
  }
}
