/** Shared vocabulary: optional values, sums of amounts, and ordered views of
    finite integer sets (dates, minutes, instants). */
module Common {

  /** An absent-or-present value; the model's stand-in for Python's `None`. */
  datatype Option<+T> = None | Some(value: T) {
    function GetOr(default: T): T {
      if Some? then value else default
    }
  }

  /** A value or the reason it could not be produced; the model's stand-in
      for a raised `ValueError`. */
  datatype Result<+T, +E> = Ok(value: T) | Err(error: E)

  /** `d.get(k)` on a dictionary. */
  function Get<K, V>(m: map<K, V>, k: K): Option<V> {
    if k in m then Some(m[k]) else None
  }

  /** Sum of a sequence of amounts, first element first. */
  function Sum(xs: seq<real>): real {
    if |xs| == 0 then 0.0 else xs[0] + Sum(xs[1..])
  }

  lemma {:induction false} SumAppend(a: seq<real>, b: seq<real>)
    ensures Sum(a + b) == Sum(a) + Sum(b)
  {
    if |a| == 0 {
      assert a + b == b;
    } else {
      assert (a + b)[1..] == a[1..] + b;
      SumAppend(a[1..], b);
    }
  }

  /** A non-empty set of integers has an element. */
  lemma IntSetHasElement(s: set<int>)
    requires s != {}
    ensures exists y :: y in s
  {
    if !(exists y :: y in s) { assert false; }
  }

  lemma {:induction false} MinIntExists(s: set<int>)
    requires s != {}
    ensures exists m :: m in s && forall x :: x in s ==> m <= x
  {
    IntSetHasElement(s);
    var y :| y in s;
    if s - {y} != {} {
      MinIntExists(s - {y});
      var m :| m in s - {y} && forall x :: x in s - {y} ==> m <= x;
      var w := if y < m then y else m;
      forall x | x in s ensures w <= x {
        if x != y { assert x in s - {y}; }
      }
    } else {
      forall x | x in s ensures x == y {
        assert x !in s - {y};
      }
    }
  }

  lemma {:induction false} MaxIntExists(s: set<int>)
    requires s != {}
    ensures exists m :: m in s && forall x :: x in s ==> x <= m
  {
    IntSetHasElement(s);
    var y :| y in s;
    if s - {y} != {} {
      MaxIntExists(s - {y});
      var m :| m in s - {y} && forall x :: x in s - {y} ==> x <= m;
      var w := if m < y then y else m;
      forall x | x in s ensures x <= w {
        if x != y { assert x in s - {y}; }
      }
    } else {
      forall x | x in s ensures x == y {
        assert x !in s - {y};
      }
    }
  }

  /** The least element of a non-empty finite set of integers. */
  function MinInt(s: set<int>): (m: int)
    requires s != {}
    ensures m in s && forall x :: x in s ==> m <= x
  {
    MinIntExists(s);
    var m :| m in s && forall x :: x in s ==> m <= x;
    m
  }

  /** The greatest element of a non-empty finite set of integers. */
  function MaxInt(s: set<int>): (m: int)
    requires s != {}
    ensures m in s && forall x :: x in s ==> x <= m
  {
    MaxIntExists(s);
    var m :| m in s && forall x :: x in s ==> x <= m;
    m
  }

  ghost predicate StrictlyAscending(r: seq<int>) {
    forall i, j :: 0 <= i < j < |r| ==> r[i] < r[j]
  }

  /** The elements of a finite integer set in ascending order, each once
      (Python's `sorted(set)`). */
  function SortedInts(s: set<int>): (r: seq<int>)
    ensures |r| == |s|
    ensures forall x :: x in s <==> x in r
    ensures StrictlyAscending(r)
    decreases |s|
  {
    if s == {} then []
    else
      var m := MinInt(s);
      var rest := SortedInts(s - {m});
      ConsSorted(s, m, rest);
      [m] + rest
  }

  /** Putting the least element in front of the ascending rest. */
  lemma ConsSorted(s: set<int>, m: int, rest: seq<int>)
    requires m in s && forall x :: x in s ==> m <= x
    requires |rest| == |s - {m}| && StrictlyAscending(rest)
    requires forall x :: x in s - {m} <==> x in rest
    ensures |[m] + rest| == |s| && StrictlyAscending([m] + rest)
    ensures forall x :: x in s <==> x in [m] + rest
  {
    assert |s - {m}| == |s| - 1;
    var r := [m] + rest;
    forall i, j | 0 <= i < j < |r| ensures r[i] < r[j] {
      assert r[j] == rest[j - 1];
      if i > 0 {
        assert r[i] == rest[i - 1];
      } else {
        assert rest[j - 1] in s - {m};
      }
    }
  }

  /** The greatest key of `m` that is at most `bound`, if there is one: what
      `bisect_right(sorted_keys, bound) - 1` selects. */
  function LatestKey<V>(m: map<int, V>, bound: int): (r: Option<int>)
    ensures r.None? <==> forall k :: k in m ==> k > bound
    ensures r.Some? ==> r.value in m && r.value <= bound
    ensures r.Some? ==> forall k :: k in m && k <= bound ==> k <= r.value
  {
    var ks := set k | k in m && k <= bound;
    if ks == {} then
      assert forall k :: k in m ==> k > bound by {
        forall k | k in m ensures k > bound {
          assert k !in ks;
        }
      }
      None
    else
      var k := MaxInt(ks);
      assert forall j :: j in m && j <= bound ==> j in ks;
      Some(k)
  }

  /** The value stored under the latest key at or before `bound`. */
  function LatestValue<V>(m: map<int, V>, bound: int): Option<V> {
    match LatestKey(m, bound)
    case None => None
    case Some(k) => Some(m[k])
  }

  /** The entries of `m` whose keys lie in `[lo, hi]`. */
  function Window<V>(m: map<int, V>, lo: int, hi: int): (r: map<int, V>)
    ensures forall k :: k in r <==> k in m && lo <= k <= hi
    ensures forall k :: k in r ==> r[k] == m[k]
  {
    map k | k in m && lo <= k <= hi :: m[k]
  }
}
