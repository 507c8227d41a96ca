/** Text helpers: Python's code-point ordering of `str`, sorted views of
    symbol sets, and suffix tests. */
module Strings {

  /** Python's `a < b` on `str`: lexicographic by code point, a proper prefix
      being smaller. */
  predicate LexLt(a: string, b: string)
    decreases |a|
  {
    if |a| == 0 then |b| > 0
    else if |b| == 0 then false
    else if a[0] != b[0] then a[0] < b[0]
    else LexLt(a[1..], b[1..])
  }

  /** Python's `a <= b` on `str`. */
  predicate LexLe(a: string, b: string) {
    a == b || LexLt(a, b)
  }

  lemma {:induction false} LexLtIrreflexive(a: string)
    ensures !LexLt(a, a)
    decreases |a|
  {
    if |a| > 0 {
      LexLtIrreflexive(a[1..]);
    }
  }

  lemma {:induction false} LexLtTransitive(a: string, b: string, c: string)
    requires LexLt(a, b) && LexLt(b, c)
    ensures LexLt(a, c)
    decreases |a|
  {
    if |a| > 0 && a[0] == b[0] && b[0] == c[0] {
      LexLtTransitive(a[1..], b[1..], c[1..]);
    }
  }

  lemma {:induction false} LexLtTrichotomy(a: string, b: string)
    ensures a == b || LexLt(a, b) || LexLt(b, a)
    decreases |a|
  {
    if |a| > 0 && |b| > 0 && a[0] == b[0] {
      LexLtTrichotomy(a[1..], b[1..]);
      if a[1..] == b[1..] {
        assert a == [a[0]] + a[1..] && b == [b[0]] + b[1..];
      }
    }
  }

  lemma LexLtAsymmetric(a: string, b: string)
    ensures !(LexLt(a, b) && LexLt(b, a))
  {
    if LexLt(a, b) && LexLt(b, a) {
      LexLtTransitive(a, b, a);
      LexLtIrreflexive(a);
    }
  }

  lemma LexLtAsymmetricAll()
    ensures forall a, b :: LexLt(a, b) ==> !LexLt(b, a)
  {
    forall a, b ensures LexLt(a, b) ==> !LexLt(b, a) {
      LexLtAsymmetric(a, b);
    }
  }

  lemma LexLeTotal(a: string, b: string)
    ensures LexLe(a, b) || LexLe(b, a)
  {
    LexLtTrichotomy(a, b);
  }

  lemma LexLeTransitive(a: string, b: string, c: string)
    requires LexLe(a, b) && LexLe(b, c)
    ensures LexLe(a, c)
  {
    if a != b && b != c {
      LexLtTransitive(a, b, c);
    }
  }

  /** A non-empty set of strings has an element. */
  lemma StringSetHasElement(s: set<string>)
    requires s != {}
    ensures exists y :: y in s
  {
    if !(exists y :: y in s) { assert false; }
  }

  predicate IsMinString(m: string, s: set<string>) {
    m in s && forall x :: x in s ==> LexLe(m, x)
  }

  lemma MinStringStep(y: string, m: string, s: set<string>)
    requires y in s && IsMinString(m, s - {y})
    ensures IsMinString(if LexLe(y, m) then y else m, s)
  {
    LexLeTotal(y, m);
    var w := if LexLe(y, m) then y else m;
    forall x | x in s ensures LexLe(w, x) {
      if x != y {
        assert x in s - {y};
        if w == y { LexLeTransitive(y, m, x); }
      }
    }
  }

  lemma {:induction false} MinStringExists(s: set<string>)
    requires s != {}
    ensures exists m :: IsMinString(m, s)
    decreases |s|
  {
    StringSetHasElement(s);
    var y :| y in s;
    if s - {y} != {} {
      MinStringExists(s - {y});
      var m :| IsMinString(m, s - {y});
      MinStringStep(y, m, s);
    } else {
      forall x | x in s ensures LexLe(y, x) {
        assert x !in s - {y};
      }
      assert IsMinString(y, s);
    }
  }

  /** The least symbol of a non-empty set. */
  function MinString(s: set<string>): (m: string)
    requires s != {}
    ensures m in s && forall x :: x in s ==> LexLe(m, x)
  {
    MinStringExists(s);
    LexLtAsymmetricAll();
    var m :| IsMinString(m, s);
    m
  }

  /** Strictly ascending in code-point order (so also free of duplicates). */
  ghost predicate StrictlySorted(r: seq<string>) {
    forall i, j :: 0 <= i < j < |r| ==> LexLt(r[i], r[j])
  }

  /** In an ascending list the first element lies below every later one. */
  lemma HeadBelowRest(r: seq<string>)
    requires StrictlySorted(r) && |r| > 0
    ensures forall t :: t in r[1..] ==> LexLt(r[0], t)
  {
    forall t | t in r[1..] ensures LexLt(r[0], t) {
      var k :| 0 <= k < |r[1..]| && r[1..][k] == t;
      assert r[k + 1] == t;
    }
  }

  /** The symbols of a finite set in ascending order, each once: the order in
      which `sorted(...)` by symbol lists one entry per symbol. */
  function SortedStrings(s: set<string>): (r: seq<string>)
    ensures |r| == |s|
    ensures forall x :: x in s <==> x in r
    ensures StrictlySorted(r)
    decreases |s|
  {
    if s == {} then []
    else
      var m := MinString(s);
      var rest := SortedStrings(s - {m});
      assert forall x :: x in rest ==> LexLt(m, x);
      [m] + rest
  }

  /** Python's `s.endswith(suffix)`. */
  predicate EndsWith(s: string, suffix: string) {
    |suffix| <= |s| && s[|s| - |suffix|..] == suffix
  }
}
