/**
 * Threshold calibration by order statistic: `np.sort` of the training joint
 * densities, the rank `int(N * contamination)`, and Python's indexing of the
 * sorted array with that rank.
 */
module OrderStatistics {
  import opened Tables

  ghost predicate SortedAscending(s: seq<real>) {
    forall i, j :: 0 <= i <= j < |s| ==> s[i] <= s[j]
  }

  /** Number of elements strictly below `t`. */
  function CountBelow(s: seq<real>, t: real): (n: nat)
    ensures n <= |s|
  {
    if s == [] then 0 else (if s[0] < t then 1 else 0) + CountBelow(s[1..], t)
  }

  /** Number of elements at or below `t`. */
  function CountAtMost(s: seq<real>, t: real): (n: nat)
    ensures n <= |s|
  {
    if s == [] then 0 else (if s[0] <= t then 1 else 0) + CountAtMost(s[1..], t)
  }

  /** Inserts `x` into an ascending sequence. */
  function Insert(x: real, s: seq<real>): (r: seq<real>)
    requires SortedAscending(s)
    ensures SortedAscending(r)
    ensures |r| == |s| + 1 && multiset(r) == multiset(s) + multiset{x}
  {
    if s == [] || x <= s[0] then
      [x] + s
    else
      var rest := Insert(x, s[1..]);
      PrependSorted(s, x, rest);
      [s[0]] + rest
  }

  /** Putting back the head of `s` in front of the insertion into its tail keeps the order. */
  lemma PrependSorted(s: seq<real>, x: real, rest: seq<real>)
    requires SortedAscending(s) && s != [] && s[0] < x
    requires SortedAscending(rest) && multiset(rest) == multiset(s[1..]) + multiset{x}
    ensures SortedAscending([s[0]] + rest)
    ensures multiset([s[0]] + rest) == multiset(s) + multiset{x}
  {
    assert s == [s[0]] + s[1..];
    forall k | 0 <= k < |rest|
      ensures s[0] <= rest[k]
    {
      assert rest[k] in multiset(rest);
      if rest[k] != x {
        assert rest[k] in s[1..];
      }
    }
  }

  /** `np.sort`: the ascending rearrangement of `s`. */
  function Sort(s: seq<real>): (r: seq<real>)
    ensures SortedAscending(r)
    ensures |r| == |s| && multiset(r) == multiset(s)
  {
    if s == [] then []
    else
      assert s == [s[0]] + s[1..];
      Insert(s[0], Sort(s[1..]))
  }

  /** Python's `int(x)` on a float: truncation toward zero. */
  function Trunc(x: real): (n: int)
    ensures x >= 0.0 ==> 0 <= n && n as real <= x < n as real + 1.0
    ensures x < 0.0 ==> n <= 0 && n as real - 1.0 < x <= n as real
  {
    if x >= 0.0 then x.Floor else -((-x).Floor)
  }

  /**
   * `int(len(X) * contamination)`, the zero-based rank of the threshold. For
   * a non-negative contamination it is the whole part of `N * contamination`,
   * and it indexes inside `N` rows when `N >= 1` and `contamination < 1`.
   */
  function CutoffIndex(n: nat, contamination: real): (k: int)
    ensures 0.0 <= contamination ==>
              0 <= k && k as real <= n as real * contamination < k as real + 1.0
    ensures n >= 1 && 0.0 <= contamination < 1.0 ==> k < n
  {
    var x := n as real * contamination;
    RankBelowCount(n, contamination, x);
    Trunc(x)
  }

  lemma RankBelowCount(n: nat, contamination: real, x: real)
    requires x == n as real * contamination
    ensures 0.0 <= contamination ==> 0.0 <= x
    ensures n >= 1 && 0.0 <= contamination < 1.0 ==> x < n as real
  {
    if 0.0 <= contamination {
      ScaleNonNegative(n, contamination);
    }
    if n >= 1 && 0.0 <= contamination < 1.0 {
      ScalePositive(n, 1.0 - contamination);
      assert n as real - x == n as real * (1.0 - contamination);
    }
  }

  /** `n` copies of a non-negative real add up to a non-negative real. */
  lemma {:induction false} ScaleNonNegative(n: nat, c: real)
    requires 0.0 <= c
    ensures 0.0 <= n as real * c
  {
    if n > 0 {
      ScaleNonNegative(n - 1, c);
      assert n as real * c == (n - 1) as real * c + c;
    }
  }

  /** At least one copy of a positive real adds up to a positive real. */
  lemma {:induction false} ScalePositive(n: nat, d: real)
    requires n >= 1 && 0.0 < d
    ensures 0.0 < n as real * d
  {
    if n > 1 {
      ScalePositive(n - 1, d);
      assert n as real * d == (n - 1) as real * d + d;
    }
  }

  /**
   * Python's `a[i]` on a sequence: a negative index counts from the end,
   * and an index outside `-|a| .. |a|-1` raises `IndexError` (`None` here).
   */
  function PyIndex(a: seq<real>, i: int): (r: Option<real>)
    ensures r.Some? <==> -|a| <= i < |a|
    ensures 0 <= i < |a| ==> r == Some(a[i])
    ensures -|a| <= i < 0 ==> r == Some(a[|a| + i])
  {
    if 0 <= i < |a| then Some(a[i])
    else if -|a| <= i < 0 then Some(a[|a| + i])
    else None
  }

  /**
   * The threshold `np.sort(products)[int(len(products) * contamination)]`:
   * there is one exactly when the rank is a valid Python index of the
   * densities, and it is then one of them.
   */
  function SelectThreshold(products: seq<real>, contamination: real): (r: Option<real>)
    ensures r.Some? <==> -|products| <= CutoffIndex(|products|, contamination) < |products|
    ensures r.Some? ==> r.value in products
  {
    var sorted := Sort(products);
    var r := PyIndex(sorted, CutoffIndex(|products|, contamination));
    assert r.Some? ==> r.value in multiset(sorted);
    r
  }

  // ---------------------------------------------------------------------
  // Counting lemmas

  lemma {:induction false} CountBelowInsert(x: real, s: seq<real>, t: real)
    requires SortedAscending(s)
    ensures CountBelow(Insert(x, s), t) == (if x < t then 1 else 0) + CountBelow(s, t)
    ensures CountAtMost(Insert(x, s), t) == (if x <= t then 1 else 0) + CountAtMost(s, t)
  {
    if s == [] || x <= s[0] {
      assert ([x] + s)[1..] == s;
    } else {
      var rest := Insert(x, s[1..]);
      CountBelowInsert(x, s[1..], t);
      assert ([s[0]] + rest)[1..] == rest;
    }
  }

  /** Sorting does not change how many elements lie below a value. */
  lemma {:induction false} CountSort(s: seq<real>, t: real)
    ensures CountBelow(Sort(s), t) == CountBelow(s, t)
    ensures CountAtMost(Sort(s), t) == CountAtMost(s, t)
  {
    if s != [] {
      CountSort(s[1..], t);
      CountBelowInsert(s[0], Sort(s[1..]), t);
    }
  }

  lemma {:induction false} CountBelowNone(s: seq<real>, t: real)
    requires forall i :: 0 <= i < |s| ==> t <= s[i]
    ensures CountBelow(s, t) == 0
  {
    if s != [] {
      CountBelowNone(s[1..], t);
    }
  }

  /** In an ascending sequence at most `k` elements lie strictly below `s[k]`. */
  lemma {:induction false} SortedCountBelow(s: seq<real>, k: nat)
    requires SortedAscending(s) && k < |s|
    ensures CountBelow(s, s[k]) <= k
  {
    if k == 0 {
      CountBelowNone(s, s[0]);
    } else {
      SortedCountBelow(s[1..], k - 1);
    }
  }

  /** In an ascending sequence at least `k + 1` elements lie at or below `s[k]`. */
  lemma {:induction false} SortedCountAtMost(s: seq<real>, k: nat)
    requires SortedAscending(s) && k < |s|
    ensures CountAtMost(s, s[k]) >= k + 1
  {
    if k > 0 {
      SortedCountAtMost(s[1..], k - 1);
    }
  }

  /** Counting below a larger bound never counts fewer elements. */
  lemma {:induction false} CountBelowMonotone(s: seq<real>, t1: real, t2: real)
    requires t1 <= t2
    ensures CountBelow(s, t1) <= CountBelow(s, t2)
  {
    if s != [] {
      CountBelowMonotone(s[1..], t1, t2);
    }
  }

  // ---------------------------------------------------------------------
  // Threshold calibration

  /**
   * Whenever a threshold is selected with a non-negative contamination it
   * is the element at rank `int(N * contamination)`, inside the sequence.
   */
  lemma SelectedRank(products: seq<real>, contamination: real)
    requires 0.0 <= contamination && SelectThreshold(products, contamination).Some?
    ensures 0 <= CutoffIndex(|products|, contamination) < |products|
    ensures SelectThreshold(products, contamination).value == Sort(products)[CutoffIndex(|products|, contamination)]
  {
  }

  lemma CutoffIndexMonotone(n: nat, c1: real, c2: real)
    requires 0.0 <= c1 <= c2
    ensures CutoffIndex(n, c1) <= CutoffIndex(n, c2)
  {
    var x1, x2 := n as real * c1, n as real * c2;
    ScaleNonNegative(n, c1);
    ScaleNonNegative(n, c2 - c1);
    assert x2 - x1 == n as real * (c2 - c1);
    assert 0.0 <= x1 <= x2;
  }

  /** With no training rows there is no threshold to select, whatever the contamination. */
  lemma EmptyTrainingSetHasNoThreshold(contamination: real)
    ensures SelectThreshold([], contamination) == None
  {
  }

  /**
   * The element at rank `k` of the sorted sequence is one of the inputs,
   * at most `k` inputs are strictly below it and at least `k + 1` are at or
   * below it.
   */
  lemma OrderStatistic(s: seq<real>, k: nat)
    requires k < |s|
    ensures Sort(s)[k] in s
    ensures CountBelow(s, Sort(s)[k]) <= k
    ensures CountAtMost(s, Sort(s)[k]) >= k + 1
  {
    var r := Sort(s);
    assert r[k] in multiset(r);
    SortedCountBelow(r, k);
    SortedCountAtMost(r, k);
    CountSort(s, r[k]);
  }

  /**
   * Calibration: for a non-empty training set and `0 <= contamination < 1`
   * a threshold is selected; it is one of the training densities, and with
   * `k = int(N * contamination)` at most `k` densities are strictly below it
   * and at least `k + 1` are at or below it.
   */
  lemma ThresholdCalibration(products: seq<real>, contamination: real)
    requires |products| >= 1 && 0.0 <= contamination < 1.0
    ensures SelectThreshold(products, contamination).Some?
    ensures var t := SelectThreshold(products, contamination).value;
            var k := CutoffIndex(|products|, contamination);
            t in products && CountBelow(products, t) <= k && CountAtMost(products, t) >= k + 1
  {
    var k := CutoffIndex(|products|, contamination);
    OrderStatistic(products, k);
  }

  /**
   * Five training records, four equally likely and one less likely, with
   * contamination 0.2: the rank is 1, the threshold is the common density
   * of the four, and exactly the odd record lies strictly below it.
   */
  lemma SingleOutlierThreshold(a: real, b: real)
    requires b < a
    ensures SelectThreshold([a, a, a, a, b], 0.2) == Some(a)
    ensures CountBelow([a, a, a, a, b], a) == 1
  {
    var s := [a, a, a, a, b];
    ThresholdCalibration(s, 0.2);
    var t := SelectThreshold(s, 0.2).value;
    assert CutoffIndex(5, 0.2) == 1;
    CountOutlier(a, b);
    if t == b {
      assert false;
    }
  }

  /** In `[a, a, a, a, b]` with `b < a`, one value is below `a` and one is at or below `b`. */
  lemma CountOutlier(a: real, b: real)
    requires b < a
    ensures CountBelow([a, a, a, a, b], a) == 1
    ensures CountAtMost([a, a, a, a, b], b) == 1
  {
    var s := [a, a, a, a, b];
    assert s[1..] == [a, a, a, b];
    assert s[1..][1..] == [a, a, b];
    assert s[1..][1..][1..] == [a, b];
    assert s[1..][1..][1..][1..] == [b];
    assert [b][1..] == [];
    assert CountBelow([b], a) == 1 && CountAtMost([b], b) == 1;
    assert CountBelow([a, b], a) == 1 && CountAtMost([a, b], b) == 1;
    assert CountBelow([a, a, b], a) == 1 && CountAtMost([a, a, b], b) == 1;
    assert CountBelow([a, a, a, b], a) == 1 && CountAtMost([a, a, a, b], b) == 1;
  }

  /**
   * Raising the contamination (for the same training densities) never lowers
   * the threshold, so it never lowers the number of densities strictly below it.
   */
  lemma ThresholdMonotone(products: seq<real>, c1: real, c2: real)
    requires |products| >= 1 && 0.0 <= c1 <= c2 < 1.0
    ensures SelectThreshold(products, c1).Some? && SelectThreshold(products, c2).Some?
    ensures SelectThreshold(products, c1).value <= SelectThreshold(products, c2).value
    ensures CountBelow(products, SelectThreshold(products, c1).value)
         <= CountBelow(products, SelectThreshold(products, c2).value)
  {
    var n := |products|;
    CutoffIndexMonotone(n, c1, c2);
    var r := Sort(products);
    var t1 := r[CutoffIndex(n, c1)];
    var t2 := r[CutoffIndex(n, c2)];
    CountBelowMonotone(products, t1, t2);
  }
}
