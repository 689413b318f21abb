/** Building blocks shared by the parking-sensor beep-level drafts
    (teste.py, qcsfr4.py, teste2majorityvoting.py, teste3.py): sensor
    readings, the minimum of a list, the level lookups, and the mean and
    median the drafts take from Python's `statistics` module.

    Distances and levels are integers; a mean or a median is an exact real.
 */
module BeepCommon {

  /** A list entry as the drafts receive it: a number, or anything else
      (a string such as "a"), which the `isinstance` checks reject. */
  datatype Reading = Num(value: int) | NonNumeric

  datatype Option<T> = None | Some(value: T)

  /** Accepted by the drafts' validation: numeric and not negative. */
  predicate IsValid(r: Reading)
  {
    r.Num? && r.value >= 0
  }

  predicate AllValid(s: seq<Reading>)
  {
    forall i :: 0 <= i < |s| ==> IsValid(s[i])
  }

  /** The numbers of a list that holds only numbers. */
  function Values(s: seq<Reading>): (r: seq<int>)
    requires forall i :: 0 <= i < |s| ==> s[i].Num?
    ensures |r| == |s| && forall i :: 0 <= i < |s| ==> r[i] == s[i].value
  {
    seq(|s|, i requires 0 <= i < |s| => s[i].value)
  }

  lemma ValidValues(s: seq<Reading>)
    requires AllValid(s)
    ensures forall x :: x in Values(s) ==> x >= 0
  {
    forall x | x in Values(s)
      ensures x >= 0
    {
      var i :| 0 <= i < |Values(s)| && Values(s)[i] == x;
      assert IsValid(s[i]);
    }
  }

  // ---------------------------------------------------------------------------
  // Minimum

  /** Python's `min` on a non-empty list. */
  function Min(s: seq<int>): (m: int)
    requires |s| > 0
    ensures m in s && forall x :: x in s ==> m <= x
  {
    if |s| == 1 then s[0]
    else
      var rest := Min(s[1..]);
      assert forall x :: x in s ==> x == s[0] || x in s[1..];
      if s[0] <= rest then s[0] else rest
  }

  /** Python's `max` on a non-empty list. */
  function Max(s: seq<int>): (m: int)
    requires |s| > 0
    ensures m in s && forall x :: x in s ==> x <= m
  {
    if |s| == 1 then s[0]
    else
      var rest := Max(s[1..]);
      assert forall x :: x in s ==> x == s[0] || x in s[1..];
      if s[0] >= rest then s[0] else rest
  }

  // ---------------------------------------------------------------------------
  // Level lookups

  /** `next((i for i, level in enumerate(levels) if d <= level), len(levels))`:
      the first level that reaches `d`, or one past the last level. */
  function FirstAtLeast(d: real, levels: seq<int>): (r: nat)
    ensures r <= |levels|
    ensures r < |levels| ==> d <= levels[r] as real
    ensures forall i :: 0 <= i < r ==> levels[i] as real < d
  {
    if |levels| == 0 then 0
    else if d <= levels[0] as real then 0
    else 1 + FirstAtLeast(d, levels[1..])
  }

  /** A farther object never gets an earlier (more intense) level. */
  lemma FirstAtLeastMonotone(d: real, e: real, levels: seq<int>)
    requires d <= e
    ensures FirstAtLeast(d, levels) <= FirstAtLeast(e, levels)
  {
    var r := FirstAtLeast(e, levels);
    if r < |levels| {
      assert d <= levels[r] as real;
    }
  }

  /** The result of the search is the only index with its two properties. */
  lemma FirstAtLeastUnique(d: real, levels: seq<int>, r: nat)
    requires r <= |levels|
    requires r < |levels| ==> d <= levels[r] as real
    requires forall i :: 0 <= i < r ==> levels[i] as real < d
    ensures r == FirstAtLeast(d, levels)
  {
    var f := FirstAtLeast(d, levels);
    if r < |levels| {
      assert d <= levels[r] as real;
    }
    if f < |levels| {
      assert d <= levels[f] as real;
    }
  }

  // ---------------------------------------------------------------------------
  // Most common value

  /** How often `x` occurs in `s`. */
  function Count(s: seq<int>, x: int): nat
  {
    multiset(s)[x]
  }

  /** The position, among the first `k`, of the first value whose count is
      the largest. */
  function FirstMostCommon(g: seq<int>, k: nat): (b: nat)
    requires 0 < k <= |g|
    ensures b < k
    ensures forall i :: 0 <= i < k ==> Count(g, g[i]) <= Count(g, g[b])
    ensures forall i :: 0 <= i < b ==> Count(g, g[i]) < Count(g, g[b])
  {
    if k == 1 then 0
    else
      var b := FirstMostCommon(g, k - 1);
      if Count(g, g[k - 1]) > Count(g, g[b]) then k - 1 else b
  }

  /** `Counter(g).most_common(1)`: a value of largest count and, among
      those, the one met first. */
  function MostCommon(g: seq<int>): (r: int)
    requires |g| > 0
    ensures r in g
    ensures forall x :: x in g ==> Count(g, x) <= Count(g, r)
    ensures exists j :: 0 <= j < |g| && g[j] == r && forall i :: 0 <= i < j ==> Count(g, g[i]) < Count(g, r)
  {
    var b := FirstMostCommon(g, |g|);
    assert forall x :: x in g ==> exists i :: 0 <= i < |g| && g[i] == x;
    g[b]
  }

  /** Two sensors of three that agree outvote the third; with all three
      different, the first sensor wins. */
  lemma VoteOfThree(a: int, b: int, c: int)
    ensures a == b || a == c ==> MostCommon([a, b, c]) == a
    ensures b == c ==> MostCommon([a, b, c]) == b
    ensures a != b && a != c && b != c ==> MostCommon([a, b, c]) == a
  {
    var g := [a, b, c];
    var r := MostCommon(g);
    var j :| 0 <= j < |g| && g[j] == r && forall i :: 0 <= i < j ==> Count(g, g[i]) < Count(g, r);
    assert Count(g, a) == multiset{a, b, c}[a];
  }

  // ---------------------------------------------------------------------------
  // Mean

  function Sum(s: seq<int>): int
  {
    if |s| == 0 then 0 else s[0] + Sum(s[1..])
  }

  /** `statistics.mean` on a non-empty list of integers, exactly. */
  function Mean(s: seq<int>): real
    requires |s| > 0
  {
    Sum(s) as real / |s| as real
  }

  lemma {:induction false} SumAtLeast(s: seq<int>, m: int)
    requires forall x :: x in s ==> m <= x
    ensures Sum(s) >= |s| * m
  {
    if |s| > 0 {
      assert forall x :: x in s[1..] ==> x in s;
      assert s[0] in s;
      SumAtLeast(s[1..], m);
      assert |s| * m == m + (|s| - 1) * m;
    }
  }

  lemma {:induction false} SumAtMost(s: seq<int>, m: int)
    requires forall x :: x in s ==> x <= m
    ensures Sum(s) <= |s| * m
  {
    if |s| > 0 {
      assert forall x :: x in s[1..] ==> x in s;
      assert s[0] in s;
      SumAtMost(s[1..], m);
      assert |s| * m == m + (|s| - 1) * m;
    }
  }

  /** A mean lies between any lower and any upper bound of the list. */
  lemma MeanBetween(s: seq<int>, lo: int, hi: int)
    requires |s| > 0
    requires forall x :: x in s ==> lo <= x <= hi
    ensures lo as real <= Mean(s) <= hi as real
  {
    SumAtLeast(s, lo);
    SumAtMost(s, hi);
    CastProduct(|s|, lo);
    CastProduct(|s|, hi);
    DivideBounds(Sum(s) as real, |s| as real, lo as real, hi as real);
  }

  lemma CastProduct(a: int, b: int)
    ensures (a * b) as real == a as real * b as real
  {
  }

  lemma DivideBounds(t: real, n: real, lo: real, hi: real)
    requires n > 0.0 && n * lo <= t <= n * hi
    ensures lo <= t / n <= hi
  {
    assert t / n - lo == (t - n * lo) / n;
    assert hi - t / n == (n * hi - t) / n;
  }

  // ---------------------------------------------------------------------------
  // Median

  predicate Sorted(s: seq<int>)
  {
    forall i, j :: 0 <= i < j < |s| ==> s[i] <= s[j]
  }

  function Insert(x: int, s: seq<int>): (r: seq<int>)
    requires Sorted(s)
    ensures Sorted(r) && multiset(r) == multiset(s) + multiset{x}
  {
    if |s| == 0 then [x]
    else if x <= s[0] then [x] + s
    else
      var t := Insert(x, s[1..]);
      assert s == [s[0]] + s[1..];
      assert t[0] in multiset(s[1..]) + multiset{x};
      SortedCons(s[0], t);
      [s[0]] + t
  }

  lemma SortedCons(h: int, t: seq<int>)
    requires Sorted(t) && (|t| > 0 ==> h <= t[0])
    ensures Sorted([h] + t)
  {
  }

  /** `sorted(s)`, as `statistics.median` does before it picks the middle. */
  function Sort(s: seq<int>): (r: seq<int>)
    ensures Sorted(r) && multiset(r) == multiset(s)
  {
    if |s| == 0 then []
    else
      assert s == [s[0]] + s[1..];
      Insert(s[0], Sort(s[1..]))
  }

  /** `statistics.median`: the middle of the sorted list, or the mean of the
      two middle values when the length is even. */
  function Median(s: seq<int>): real
    requires |s| > 0
  {
    var t := Sort(s);
    assert |t| == |multiset(t)| == |multiset(s)| == |s|;
    if |t| % 2 == 1 then t[|t| / 2] as real
    else (t[|t| / 2 - 1] + t[|t| / 2]) as real / 2.0
  }

  lemma SortedBounds(s: seq<int>)
    ensures |Sort(s)| == |s|
    ensures forall i :: 0 <= i < |s| ==> Sort(s)[i] in s
  {
    var t := Sort(s);
    assert |t| == |multiset(t)| == |multiset(s)| == |s|;
    forall i | 0 <= i < |s|
      ensures t[i] in s
    {
      assert t[i] in multiset(t);
    }
  }

  /** The median lies between the smallest and the largest value. */
  lemma MedianBetween(s: seq<int>, lo: int, hi: int)
    requires |s| > 0
    requires forall x :: x in s ==> lo <= x <= hi
    ensures lo as real <= Median(s) <= hi as real
  {
    SortedBounds(s);
  }

  /** The median of an odd-length list is one of its values. */
  lemma MedianOfOdd(s: seq<int>)
    requires |s| % 2 == 1
    ensures Median(s) == Sort(s)[|s| / 2] as real && Sort(s)[|s| / 2] in s
  {
    SortedBounds(s);
  }
}
