/** Stock-split adjustment (app/split_service.py): the cumulative split
    factor between two dates and the quantity and price adjustments built on
    it. The split table of one symbol is given as the list of its
    `(date, ratio)` entries, in the order the table yields them. */
module Splits {

  /** One split: on `date` every share became `ratio` shares. */
  datatype Split = Split(date: int, ratio: real)

  /** A split counts toward the factor when it falls strictly after the
      transaction and no later than the target date. */
  predicate InWindow(s: Split, txDate: int, target: int) {
    txDate < s.date <= target
  }

  /** `get_adjustment_factor`: the product of the ratios of every split in
      the window `(txDate, target]`, taken in table order; 1 when the table
      is empty. */
  function AdjustmentFactor(splits: seq<Split>, txDate: int, target: int): real
    decreases |splits|
  {
    if |splits| == 0 then 1.0
    else
      var rest := AdjustmentFactor(splits[1..], txDate, target);
      if InWindow(splits[0], txDate, target) then splits[0].ratio * rest else rest
  }

  /** No split in the window means no adjustment. */
  lemma {:induction false} FactorWithoutSplitsInWindow(splits: seq<Split>, txDate: int, target: int)
    requires forall i :: 0 <= i < |splits| ==> !InWindow(splits[i], txDate, target)
    ensures AdjustmentFactor(splits, txDate, target) == 1.0
    decreases |splits|
  {
    if |splits| > 0 {
      assert !InWindow(splits[0], txDate, target);
      assert forall i :: 0 <= i < |splits| - 1 ==> splits[1..][i] == splits[i + 1];
      FactorWithoutSplitsInWindow(splits[1..], txDate, target);
    }
  }

  /** Splits with positive ratios give a positive factor. */
  lemma {:induction false} FactorPositive(splits: seq<Split>, txDate: int, target: int)
    requires forall i :: 0 <= i < |splits| ==> splits[i].ratio > 0.0
    ensures AdjustmentFactor(splits, txDate, target) > 0.0
    decreases |splits|
  {
    if |splits| > 0 {
      assert splits[0].ratio > 0.0;
      assert forall i :: 0 <= i < |splits| - 1 ==> splits[1..][i] == splits[i + 1];
      FactorPositive(splits[1..], txDate, target);
    }
  }

  /** A transaction dated on or after the target date is never adjusted. */
  lemma NoAdjustmentForward(splits: seq<Split>, txDate: int, target: int)
    requires txDate >= target
    ensures AdjustmentFactor(splits, txDate, target) == 1.0
  {
    FactorWithoutSplitsInWindow(splits, txDate, target);
  }

  /** A single split inside the window contributes exactly its ratio. */
  lemma SingleSplitFactor(s: Split, txDate: int, target: int)
    ensures AdjustmentFactor([s], txDate, target)
      == (if txDate < s.date <= target then s.ratio else 1.0)
  {
    assert [s][1..] == [];
  }

  /** Adjusting in two hops equals adjusting once: the windows `(a, b]` and
      `(b, c]` are disjoint and together make up `(a, c]`. */
  lemma {:induction false} FactorComposes(splits: seq<Split>, a: int, b: int, c: int)
    requires a <= b <= c
    ensures AdjustmentFactor(splits, a, c)
      == AdjustmentFactor(splits, a, b) * AdjustmentFactor(splits, b, c)
    decreases |splits|
  {
    if |splits| > 0 {
      FactorComposes(splits[1..], a, b, c);
      ComposeStep(splits, a, b, c);
    }
  }

  /** One induction step of `FactorComposes`: whichever window the first
      split falls in, its ratio joins the whole factor exactly when it joins
      one of the two hops. */
  lemma {:induction false} ComposeStep(splits: seq<Split>, a: int, b: int, c: int)
    requires a <= b <= c && |splits| > 0
    requires AdjustmentFactor(splits[1..], a, c)
      == AdjustmentFactor(splits[1..], a, b) * AdjustmentFactor(splits[1..], b, c)
    ensures AdjustmentFactor(splits, a, c)
      == AdjustmentFactor(splits, a, b) * AdjustmentFactor(splits, b, c)
  {
    if a < splits[0].date <= b {
      ComposeFirst(splits, a, b, c);
    } else if b < splits[0].date <= c {
      ComposeSecond(splits, a, b, c);
    } else {
      ComposeNeither(splits, a, b, c);
    }
  }

  /** A split outside the window leaves the factor of the rest. */
  lemma {:induction false} FactorSkips(splits: seq<Split>, t: int, u: int)
    requires |splits| > 0 && !InWindow(splits[0], t, u)
    ensures AdjustmentFactor(splits, t, u) == AdjustmentFactor(splits[1..], t, u)
  {
  }

  /** A split inside the window multiplies the factor of the rest. */
  lemma {:induction false} FactorTakes(splits: seq<Split>, t: int, u: int)
    requires |splits| > 0 && InWindow(splits[0], t, u)
    ensures AdjustmentFactor(splits, t, u) == splits[0].ratio * AdjustmentFactor(splits[1..], t, u)
  {
  }

  lemma {:induction false} ComposeFirst(splits: seq<Split>, a: int, b: int, c: int)
    requires a <= b <= c && |splits| > 0
    requires AdjustmentFactor(splits[1..], a, c)
      == AdjustmentFactor(splits[1..], a, b) * AdjustmentFactor(splits[1..], b, c)
    requires a < splits[0].date <= b
    ensures AdjustmentFactor(splits, a, c)
      == AdjustmentFactor(splits, a, b) * AdjustmentFactor(splits, b, c)
  {
  }

  lemma {:induction false} ComposeSecond(splits: seq<Split>, a: int, b: int, c: int)
    requires a <= b <= c && |splits| > 0
    requires AdjustmentFactor(splits[1..], a, c)
      == AdjustmentFactor(splits[1..], a, b) * AdjustmentFactor(splits[1..], b, c)
    requires b < splits[0].date <= c
    ensures AdjustmentFactor(splits, a, c)
      == AdjustmentFactor(splits, a, b) * AdjustmentFactor(splits, b, c)
  {
    FactorTakes(splits, a, c);
    FactorSkips(splits, a, b);
    FactorTakes(splits, b, c);
    RatioJoins(splits[0].ratio, AdjustmentFactor(splits[1..], b, c), AdjustmentFactor(splits[1..], a, b),
               AdjustmentFactor(splits[1..], a, c), AdjustmentFactor(splits, a, c),
               AdjustmentFactor(splits, b, c), AdjustmentFactor(splits, a, b));
  }

  lemma {:induction false} ComposeNeither(splits: seq<Split>, a: int, b: int, c: int)
    requires a <= b <= c && |splits| > 0
    requires AdjustmentFactor(splits[1..], a, c)
      == AdjustmentFactor(splits[1..], a, b) * AdjustmentFactor(splits[1..], b, c)
    requires !(a < splits[0].date <= c)
    ensures AdjustmentFactor(splits, a, c)
      == AdjustmentFactor(splits, a, b) * AdjustmentFactor(splits, b, c)
  {
    FactorSkips(splits, a, c);
    FactorSkips(splits, a, b);
    FactorSkips(splits, b, c);
  }

  /** The arithmetic of a ratio joining one hop: `r * (x * y)` is
      `(r * x) * y`, in either order of the hops. */
  lemma RatioJoins(r: real, x: real, y: real, z: real, whole: real, joined: real, other: real)
    requires z == x * y || z == y * x
    requires whole == r * z && joined == r * x && other == y
    ensures whole == joined * other && whole == other * joined
  {
  }

  lemma MulAssoc(p: real, q: real, r: real)
    ensures (p * q) * r == p * (q * r)
  {
  }

  /** `adjust_quantity`: the quantity multiplied by the factor. */
  function AdjustQuantity(splits: seq<Split>, quantity: real, txDate: int, target: int): real {
    quantity * AdjustmentFactor(splits, txDate, target)
  }

  /** `adjust_price`: the price divided by the factor, or unchanged when the
      factor is zero. */
  function AdjustPrice(splits: seq<Split>, price: real, txDate: int, target: int): (p: real)
    ensures AdjustmentFactor(splits, txDate, target) != 0.0 ==>
      p * AdjustmentFactor(splits, txDate, target) == price
    ensures AdjustmentFactor(splits, txDate, target) == 0.0 ==> p == price
  {
    var f := AdjustmentFactor(splits, txDate, target);
    if f == 0.0 then price else price / f
  }

  /** Adjustment preserves the value of a position: with a non-zero factor
      the adjusted quantity times the adjusted price is the original
      quantity times price. */
  lemma AdjustmentPreservesValue(splits: seq<Split>, quantity: real, price: real, txDate: int, target: int)
    requires AdjustmentFactor(splits, txDate, target) != 0.0
    ensures AdjustQuantity(splits, quantity, txDate, target) * AdjustPrice(splits, price, txDate, target)
      == quantity * price
  {
    var f := AdjustmentFactor(splits, txDate, target);
    var p := AdjustPrice(splits, price, txDate, target);
    assert p * f == price;
    assert (quantity * f) * p == quantity * (p * f);
  }

  /** Adjusting a quantity from `a` to `b` and then from `b` to `c` is the
      same as adjusting it from `a` to `c` directly. */
  lemma QuantityAdjustmentComposes(splits: seq<Split>, quantity: real, a: int, b: int, c: int)
    requires a <= b <= c
    ensures AdjustQuantity(splits, AdjustQuantity(splits, quantity, a, b), b, c)
      == AdjustQuantity(splits, quantity, a, c)
  {
    FactorComposes(splits, a, b, c);
    MulAssoc(quantity, AdjustmentFactor(splits, a, b), AdjustmentFactor(splits, b, c));
  }
}
