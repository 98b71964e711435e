/**
 * Keyed series: ordered tables of (key, value) entries, the shape every
 * intermediate table of the flow estimator takes (the survey totals per
 * region pair, the production and consumption totals per product and
 * region, the final flow table). Values are exact rationals.
 */
module Series {

  datatype Option<T> = None | Some(value: T)

  datatype Entry<K> = Entry(key: K, value: real)

  /** Sum of every value of the series. */
  function Total<K>(s: seq<Entry<K>>): real
  {
    if s == [] then 0.0 else Total(s[..|s| - 1]) + s[|s| - 1].value
  }

  /** Sum of the values filed under key k: the reference meaning of a group-by sum. */
  function KeySum<K(==)>(s: seq<Entry<K>>, k: K): real
  {
    if s == [] then 0.0
    else KeySum(s[..|s| - 1], k) + (if s[|s| - 1].key == k then s[|s| - 1].value else 0.0)
  }

  /** The index labels of a series. */
  function KeysOf<K>(s: seq<Entry<K>>): set<K>
  {
    set i | 0 <= i < |s| :: s[i].key
  }

  /** A series whose index has no repeated label. */
  predicate DistinctKeys<K(==)>(s: seq<Entry<K>>)
  {
    forall i, j :: 0 <= i < j < |s| ==> s[i].key != s[j].key
  }

  /** Every value is strictly positive. */
  predicate AllPositive<K>(s: seq<Entry<K>>)
  {
    forall i :: 0 <= i < |s| ==> s[i].value > 0.0
  }

  lemma KeysOfSnoc<K>(s: seq<Entry<K>>)
    requires s != []
    ensures KeysOf(s) == KeysOf(s[..|s| - 1]) + {s[|s| - 1].key}
  {
    var p := s[..|s| - 1];
    forall k | k in KeysOf(s) ensures k in KeysOf(p) + {s[|s| - 1].key} {
      var i :| 0 <= i < |s| && s[i].key == k;
      if i < |s| - 1 { assert p[i] == s[i]; }
    }
    forall k | k in KeysOf(p) ensures k in KeysOf(s) {
      var i :| 0 <= i < |p| && p[i].key == k;
      assert s[i] == p[i];
    }
  }

  /** Dropping the last entry keeps the labels distinct, and the last label is not among the others. */
  lemma DistinctKeysInit<K>(s: seq<Entry<K>>)
    requires s != [] && DistinctKeys(s)
    ensures DistinctKeys(s[..|s| - 1])
    ensures s[|s| - 1].key !in KeysOf(s[..|s| - 1])
  {
    var p := s[..|s| - 1];
    forall i, j | 0 <= i < j < |p| ensures p[i].key != p[j].key {
      assert p[i] == s[i] && p[j] == s[j];
    }
    forall i | 0 <= i < |p| ensures p[i].key != s[|s| - 1].key {
      assert p[i] == s[i];
    }
  }

  /** Two series with distinct labels and no label in common concatenate to one with distinct labels. */
  lemma DistinctAppend<K>(a: seq<Entry<K>>, b: seq<Entry<K>>)
    requires DistinctKeys(a) && DistinctKeys(b)
    requires forall i, j :: 0 <= i < |a| && 0 <= j < |b| ==> a[i].key != b[j].key
    ensures DistinctKeys(a + b)
    ensures forall i :: 0 <= i < |a| ==> (a + b)[i] == a[i]
    ensures forall j :: 0 <= j < |b| ==> (a + b)[|a| + j] == b[j]
  {
  }

  /** The labels of a concatenation are the labels of its parts. */
  lemma KeysOfAppend<K>(a: seq<Entry<K>>, b: seq<Entry<K>>)
    ensures KeysOf(a + b) == KeysOf(a) + KeysOf(b)
  {
    var ab := a + b;
    forall k | k in KeysOf(a) ensures k in KeysOf(ab) {
      var i :| 0 <= i < |a| && a[i].key == k;
      assert ab[i] == a[i];
    }
    forall k | k in KeysOf(b) ensures k in KeysOf(ab) {
      var i :| 0 <= i < |b| && b[i].key == k;
      assert ab[|a| + i] == b[i];
    }
  }

  /** Position of the entry labelled k, or -1 when the label is absent. */
  function IndexOf<K(==)>(s: seq<Entry<K>>, k: K): (i: int)
    ensures -1 <= i < |s|
    ensures i == -1 <==> k !in KeysOf(s)
    ensures 0 <= i ==> s[i].key == k
  {
    if s == [] then -1
    else
      KeysOfSnoc(s);
      if s[|s| - 1].key == k then |s| - 1 else IndexOf(s[..|s| - 1], k)
  }

  /** Label-based access (pandas `.loc`); a missing label is `None`, not an error. */
  function Lookup<K(==)>(s: seq<Entry<K>>, k: K): (r: Option<real>)
    ensures r.None? <==> k !in KeysOf(s)
  {
    var i := IndexOf(s, k);
    if i < 0 then None else Some(s[i].value)
  }

  lemma {:induction false} LookupDistinct<K>(s: seq<Entry<K>>, i: nat)
    requires DistinctKeys(s) && i < |s|
    ensures Lookup(s, s[i].key) == Some(s[i].value)
  {
    var j := IndexOf(s, s[i].key);
    assert s[j].key == s[i].key;
  }

  /** Adds one entry to a group-by accumulator. */
  function Accumulate<K(==)>(g: seq<Entry<K>>, e: Entry<K>): seq<Entry<K>>
  {
    var i := IndexOf(g, e.key);
    if i < 0 then g + [e] else g[i := Entry(e.key, g[i].value + e.value)]
  }

  /**
   * Group-by sum: one entry per distinct label, holding the sum of every
   * value filed under that label (labels in order of first appearance).
   */
  function GroupSum<K(==)>(s: seq<Entry<K>>): (r: seq<Entry<K>>)
    ensures DistinctKeys(r)
    ensures KeysOf(r) == KeysOf(s)
    ensures forall i :: 0 <= i < |r| ==> r[i].value == KeySum(s, r[i].key)
  {
    if s == [] then []
    else
      var p := s[..|s| - 1];
      var g := GroupSum(p);
      var e := s[|s| - 1];
      var r := Accumulate(g, e);
      KeysOfSnoc(s);
      var i := IndexOf(g, e.key);
      assert forall j :: 0 <= j < |g| && g[j].key != e.key ==> KeySum(s, g[j].key) == KeySum(p, g[j].key);
      if i < 0 then
        KeysOfSnoc(r);
        assert r[..|r| - 1] == g;
        KeySumAbsent(p, e.key);
        r
      else
        assert KeysOf(r) == KeysOf(g) by {
          forall k | k in KeysOf(g) ensures k in KeysOf(r) {
            var j :| 0 <= j < |g| && g[j].key == k;
            assert r[j].key == k;
          }
        }
        r
  }

  lemma {:induction false} LookupGroupSum<K>(s: seq<Entry<K>>, k: K)
    ensures Lookup(GroupSum(s), k) == if k in KeysOf(s) then Some(KeySum(s, k)) else None
  {
    var g := GroupSum(s);
    if k in KeysOf(s) {
      var i := IndexOf(g, k);
      assert g[i].value == KeySum(s, k);
    }
  }

  /** Group sums of positive values are positive. */
  lemma {:induction false} GroupSumPositive<K>(s: seq<Entry<K>>)
    requires AllPositive(s)
    ensures AllPositive(GroupSum(s))
  {
    var g := GroupSum(s);
    forall i | 0 <= i < |g| ensures g[i].value > 0.0 {
      assert g[i].key in KeysOf(g);
      KeySumPositive(s, g[i].key);
    }
  }

  lemma LookupPositive<K>(s: seq<Entry<K>>, k: K)
    requires AllPositive(s) && Lookup(s, k).Some?
    ensures Lookup(s, k).value > 0.0
  {
  }

  /** Keeps the entries whose value is strictly positive, in order. */
  function KeepPositive<K>(s: seq<Entry<K>>): (r: seq<Entry<K>>)
    ensures AllPositive(r)
    ensures forall i :: 0 <= i < |r| ==> r[i] in s
  {
    if s == [] then []
    else
      var p := KeepPositive(s[..|s| - 1]);
      var e := s[|s| - 1];
      assert forall i :: 0 <= i < |s| - 1 ==> s[..|s| - 1][i] == s[i];
      if e.value > 0.0 then p + [e] else p
  }

  /** Nothing positive is filtered out. */
  lemma {:induction false} KeepPositiveComplete<K>(s: seq<Entry<K>>, i: nat)
    requires i < |s| && s[i].value > 0.0
    ensures s[i] in KeepPositive(s)
  {
    if i < |s| - 1 {
      assert s[..|s| - 1][i] == s[i];
      KeepPositiveComplete(s[..|s| - 1], i);
    }
  }

  lemma {:induction false} KeepPositiveKeys<K>(s: seq<Entry<K>>)
    ensures KeysOf(KeepPositive(s)) <= KeysOf(s)
    ensures DistinctKeys(s) ==> DistinctKeys(KeepPositive(s))
  {
    var r := KeepPositive(s);
    forall k | k in KeysOf(r) ensures k in KeysOf(s) {
      var i :| 0 <= i < |r| && r[i].key == k;
      var j :| 0 <= j < |s| && s[j] == r[i];
    }
    if s != [] && DistinctKeys(s) {
      var p := s[..|s| - 1];
      assert DistinctKeys(p);
      KeepPositiveKeys(p);
      var e := s[|s| - 1];
      if e.value > 0.0 {
        var q := KeepPositive(p);
        assert r == q + [e];
        forall i | 0 <= i < |q| ensures q[i].key != e.key {
          assert q[i].key in KeysOf(q);
          var j :| 0 <= j < |p| && p[j].key == q[i].key;
          assert s[j] == p[j];
        }
      }
    }
  }

  /** The labels whose group sum is positive are exactly those that survive the positive filter. */
  lemma {:induction false} PositiveGroups<K>(s: seq<Entry<K>>, k: K)
    ensures k in KeysOf(KeepPositive(GroupSum(s))) <==> k in KeysOf(s) && KeySum(s, k) > 0.0
  {
    var g := GroupSum(s);
    var r := KeepPositive(g);
    if k in KeysOf(r) {
      var i :| 0 <= i < |r| && r[i].key == k;
      var j :| 0 <= j < |g| && g[j] == r[i];
      assert k in KeysOf(g);
    }
    if k in KeysOf(s) && KeySum(s, k) > 0.0 {
      assert k in KeysOf(g);
      var j :| 0 <= j < |g| && g[j].key == k;
      KeepPositiveComplete(g, j);
      var i :| 0 <= i < |r| && r[i] == g[j];
      assert r[i].key == k;
    }
  }

  /** Divides every value by t. */
  function DivideBy<K>(s: seq<Entry<K>>, t: real): seq<Entry<K>>
    requires t != 0.0
  {
    seq(|s|, i requires 0 <= i < |s| => Entry(s[i].key, s[i].value / t))
  }

  lemma DivideByKeeps<K>(s: seq<Entry<K>>, t: real)
    requires t > 0.0
    ensures KeysOf(DivideBy(s, t)) == KeysOf(s)
    ensures DistinctKeys(s) ==> DistinctKeys(DivideBy(s, t))
    ensures AllPositive(s) ==> AllPositive(DivideBy(s, t))
  {
    var r := DivideBy(s, t);
    assert forall i :: 0 <= i < |s| ==> r[i].key == s[i].key;
    forall k | k in KeysOf(s) ensures k in KeysOf(r) {
      var i :| 0 <= i < |s| && s[i].key == k;
      assert r[i].key == k;
    }
  }

  /** Dividing a series by its own (non-zero) total leaves values that sum to 1. */
  lemma {:induction false} TotalNormalised<K>(s: seq<Entry<K>>)
    requires Total(s) != 0.0
    ensures Total(DivideBy(s, Total(s))) == 1.0
  {
    var t := Total(s);
    TotalDivideBy(s, t);
    DivSelf(t);
  }

  lemma DivSelf(t: real)
    requires t != 0.0
    ensures t / t == 1.0
  {
  }

  lemma {:induction false} LookupDivideBy<K>(s: seq<Entry<K>>, t: real, k: K)
    requires t > 0.0 && DistinctKeys(s) && k in KeysOf(s)
    ensures Lookup(DivideBy(s, t), k) == Some(Lookup(s, k).value / t)
  {
    var r := DivideBy(s, t);
    DivideByKeeps(s, t);
    var i :| 0 <= i < |s| && s[i].key == k;
    LookupDistinct(s, i);
    assert r[i].key == k;
    LookupDistinct(r, i);
  }

  /** Looking a label up after the positive filter gives its group sum. */
  lemma {:induction false} LookupPositiveGroups<K>(s: seq<Entry<K>>, k: K)
    requires k in KeysOf(KeepPositive(GroupSum(s)))
    ensures Lookup(KeepPositive(GroupSum(s)), k) == Some(KeySum(s, k))
  {
    var g := GroupSum(s);
    var r := KeepPositive(g);
    KeepPositiveKeys(g);
    var i :| 0 <= i < |r| && r[i].key == k;
    var j :| 0 <= j < |g| && g[j] == r[i];
    LookupDistinct(r, i);
  }

  lemma {:induction false} TotalDivideBy<K>(s: seq<Entry<K>>, t: real)
    requires t != 0.0
    ensures Total(DivideBy(s, t)) == Total(s) / t
  {
    if s != [] {
      var p := s[..|s| - 1];
      assert DivideBy(s, t)[..|s| - 1] == DivideBy(p, t);
      TotalDivideBy(p, t);
    }
  }

  lemma {:induction false} TotalPositive<K>(s: seq<Entry<K>>)
    requires AllPositive(s) && s != []
    ensures Total(s) > 0.0
  {
    if |s| > 1 {
      TotalPositive(s[..|s| - 1]);
    }
  }

  lemma {:induction false} KeySumPositive<K>(s: seq<Entry<K>>, k: K)
    requires AllPositive(s) && k in KeysOf(s)
    ensures KeySum(s, k) > 0.0
  {
    var p := s[..|s| - 1];
    KeysOfSnoc(s);
    if k in KeysOf(p) {
      KeySumPositive(p, k);
    } else {
      KeySumNonNegative(p, k);
    }
  }

  lemma {:induction false} KeySumNonNegative<K>(s: seq<Entry<K>>, k: K)
    requires AllPositive(s)
    ensures KeySum(s, k) >= 0.0
  {
    if s != [] {
      KeySumNonNegative(s[..|s| - 1], k);
    }
  }

  /** The label-wise sum of a series whose labels are distinct is the series itself. */
  lemma {:induction false} KeySumDistinct<K>(s: seq<Entry<K>>, i: nat)
    requires DistinctKeys(s) && i < |s|
    ensures KeySum(s, s[i].key) == s[i].value
  {
    var p := s[..|s| - 1];
    if i < |s| - 1 {
      assert p[i] == s[i];
      KeySumDistinct(p, i);
    } else {
      KeySumAbsent(p, s[i].key);
    }
  }

  lemma {:induction false} KeySumAbsent<K>(s: seq<Entry<K>>, k: K)
    requires k !in KeysOf(s)
    ensures KeySum(s, k) == 0.0
  {
    if s != [] {
      KeysOfSnoc(s);
      KeySumAbsent(s[..|s| - 1], k);
    }
  }

  lemma {:induction false} KeySumAppend<K>(a: seq<Entry<K>>, b: seq<Entry<K>>, k: K)
    ensures KeySum(a + b, k) == KeySum(a, k) + KeySum(b, k)
  {
    if b != [] {
      assert (a + b)[..|a + b| - 1] == a + b[..|b| - 1];
      KeySumAppend(a, b[..|b| - 1], k);
    } else {
      assert a + b == a;
    }
  }
}
