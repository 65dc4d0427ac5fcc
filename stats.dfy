/**
 * pandas' median over a column of whole day counts: missing values are
 * skipped, the middle element of the sorted values is taken, and an even
 * count averages the two middle ones. An empty column has no median (NaN).
 */
module Stats {
  import opened Wrappers

  predicate Sorted(s: seq<int>) {
    forall i, j :: 0 <= i < j < |s| ==> s[i] <= s[j]
  }

  /** Inserts x into a sorted sequence. */
  function InsertSorted(x: int, s: seq<int>): (r: seq<int>)
    requires Sorted(s)
    ensures Sorted(r)
    ensures multiset(r) == multiset(s) + multiset{x}
  {
    if |s| == 0 || x <= s[0] then
      ConsSorted(x, s);
      [x] + s
    else
      var rest := InsertSorted(x, s[1..]);
      HeadBelowInsert(x, s, rest);
      ConsSorted(s[0], rest);
      assert s == [s[0]] + s[1..];
      [s[0]] + rest
  }

  /** A value at most the head of a sorted sequence can be put in front of it. */
  lemma ConsSorted(x: int, s: seq<int>)
    requires Sorted(s) && (|s| == 0 || x <= s[0])
    ensures Sorted([x] + s)
  {
    forall i, j | 0 <= i < j < |s| + 1 ensures ([x] + s)[i] <= ([x] + s)[j] {
      assert ([x] + s)[j] == s[j - 1];
      if i > 0 { assert ([x] + s)[i] == s[i - 1]; }
    }
  }

  /** The head of s is below every value of s[1..] with x > s[0] inserted. */
  lemma HeadBelowInsert(x: int, s: seq<int>, rest: seq<int>)
    requires Sorted(s) && |s| > 0 && s[0] < x
    requires multiset(rest) == multiset(s[1..]) + multiset{x}
    ensures forall k :: 0 <= k < |rest| ==> s[0] <= rest[k]
  {
    forall k | 0 <= k < |rest| ensures s[0] <= rest[k] {
      var y := rest[k];
      assert y in multiset(rest);
      if y != x {
        assert y in multiset(s[1..]);
        var m :| 0 <= m < |s[1..]| && s[1..][m] == y;
        assert s[m + 1] == y;
      }
    }
  }

  /** The values in ascending order. */
  function Sort(s: seq<int>): (r: seq<int>)
    ensures Sorted(r)
    ensures multiset(r) == multiset(s)
  {
    if |s| == 0 then []
    else
      assert s == [s[0]] + s[1..];
      InsertSorted(s[0], Sort(s[1..]))
  }

  /** The present values of a column that may hold NaN. */
  function Present(s: seq<Option<int>>): (r: seq<int>)
    ensures forall x :: x in r <==> Some(x) in s
  {
    if |s| == 0 then []
    else
      assert s == [s[0]] + s[1..];
      (if s[0].Some? then [s[0].value] else []) + Present(s[1..])
  }

  /** The middle value of sorted values, the mean of the two middle ones for an even count. */
  function Middle(t: seq<int>): (m: Option<real>)
    ensures m.None? <==> |t| == 0
    ensures m.Some? ==> exists i :: 0 <= i < |t| && t[i] as real <= m.value
    ensures m.Some? ==> exists j :: 0 <= j < |t| && m.value <= t[j] as real
  {
    var n := |t|;
    if n == 0 then None
    else if n % 2 == 1 then Some(t[n / 2] as real)
    else
      var lo := if t[n / 2 - 1] <= t[n / 2] then n / 2 - 1 else n / 2;
      var hi := if t[n / 2 - 1] <= t[n / 2] then n / 2 else n / 2 - 1;
      assert t[lo] as real <= (t[n / 2 - 1] + t[n / 2]) as real / 2.0 <= t[hi] as real;
      Some((t[n / 2 - 1] + t[n / 2]) as real / 2.0)
  }

  /** The median of the values, or None (NaN) for no values. */
  function MedianOf(s: seq<int>): (m: Option<real>)
    ensures m.None? <==> |s| == 0
    ensures m.Some? ==> exists x :: x in s && x as real <= m.value
    ensures m.Some? ==> exists y :: y in s && m.value <= y as real
  {
    var t := Sort(s);
    assert |t| == |multiset(t)| == |multiset(s)| == |s|;
    var m := Middle(t);
    if m.Some? then
      var i :| 0 <= i < |t| && t[i] as real <= m.value;
      var j :| 0 <= j < |t| && m.value <= t[j] as real;
      assert t[i] in multiset(s) && t[j] in multiset(s);
      assert t[i] in s && t[j] in s;
      m
    else m
  }

  /** Series.median(): NaN values are skipped. */
  function Median(s: seq<Option<int>>): Option<real> {
    MedianOf(Present(s))
  }

  /** The first element of a sorted sequence is its least value. */
  lemma SortedHeadLeast(a: seq<int>, x: int)
    requires Sorted(a) && x in multiset(a)
    ensures a[0] <= x
  {
    var k :| 0 <= k < |a| && a[k] == x;
  }

  /** A sorted sequence is determined by its multiset of values. */
  lemma {:induction false} SortedEqual(a: seq<int>, b: seq<int>)
    requires Sorted(a) && Sorted(b) && multiset(a) == multiset(b)
    ensures a == b
    decreases |a|
  {
    if |a| == 0 || |b| == 0 {
      assert |a| == |multiset(a)| == |multiset(b)| == |b|;
    } else {
      HeadsEqual(a, b);
      SortedEqual(a[1..], b[1..]);
      assert a == [a[0]] + a[1..] && b == [b[0]] + b[1..];
    }
  }

  /** Two sorted sequences with the same values start with the same value and continue with the same values. */
  lemma HeadsEqual(a: seq<int>, b: seq<int>)
    requires Sorted(a) && Sorted(b) && multiset(a) == multiset(b) && |a| > 0 && |b| > 0
    ensures a[0] == b[0] && Sorted(a[1..]) && Sorted(b[1..]) && multiset(a[1..]) == multiset(b[1..])
  {
    assert a[0] in multiset(b) && b[0] in multiset(a);
    SortedHeadLeast(a, b[0]);
    SortedHeadLeast(b, a[0]);
    TailMultiset(a);
    TailMultiset(b);
  }

  lemma TailMultiset(a: seq<int>)
    requires |a| > 0
    ensures multiset(a[1..]) == multiset(a) - multiset{a[0]}
  {
    assert a == [a[0]] + a[1..];
  }

  /** The median does not depend on the order of the records. */
  lemma MedianOrderIndependent(s: seq<int>, t: seq<int>)
    requires multiset(s) == multiset(t)
    ensures MedianOf(s) == MedianOf(t)
  {
    SortedEqual(Sort(s), Sort(t));
  }

  /** The number of values on one side of m: strictly below it, or strictly above it. */
  function CountSide(s: seq<int>, m: real, below: bool): (n: nat)
    ensures n <= |s|
  {
    if |s| == 0 then 0
    else (if (below && (s[0] as real) < m) || (!below && (s[0] as real) > m) then 1 else 0) + CountSide(s[1..], m, below)
  }

  function CountBelow(s: seq<int>, m: real): nat {
    CountSide(s, m, true)
  }

  function CountAbove(s: seq<int>, m: real): nat {
    CountSide(s, m, false)
  }

  /** Inserting into sorted values counts like putting the value in front. */
  lemma {:induction false} CountInsert(x: int, s: seq<int>, m: real, below: bool)
    requires Sorted(s)
    ensures CountSide(InsertSorted(x, s), m, below) == CountSide([x] + s, m, below)
  {
    if |s| == 0 || x <= s[0] {
    } else {
      CountInsert(x, s[1..], m, below);
      var rest := InsertSorted(x, s[1..]);
      assert InsertSorted(x, s) == [s[0]] + rest;
      assert ([s[0]] + rest)[1..] == rest;
      assert ([x] + s[1..])[1..] == s[1..];
      assert ([x] + s)[1..] == s;
    }
  }

  /** Sorting does not change how many values lie on either side of m. */
  lemma {:induction false} CountSort(s: seq<int>, m: real, below: bool)
    ensures CountSide(Sort(s), m, below) == CountSide(s, m, below)
  {
    if |s| > 0 {
      CountSort(s[1..], m, below);
      CountInsert(s[0], Sort(s[1..]), m, below);
      assert ([s[0]] + Sort(s[1..]))[1..] == Sort(s[1..]);
    }
  }

  /** When no value from index k on is below m, at most k values are. */
  lemma {:induction false} CountBelowPrefix(t: seq<int>, m: real, k: int)
    requires 0 <= k <= |t|
    requires forall i :: k <= i < |t| ==> m <= t[i] as real
    ensures CountSide(t, m, true) <= k
  {
    if |t| > 0 {
      CountBelowPrefix(t[1..], m, if k == 0 then 0 else k - 1);
    }
  }

  /** When no value before index k is above m, at most |t| - k values are. */
  lemma {:induction false} CountAboveSuffix(t: seq<int>, m: real, k: int)
    requires 0 <= k <= |t|
    requires forall i :: 0 <= i < k ==> t[i] as real <= m
    ensures CountSide(t, m, false) <= |t| - k
  {
    if |t| > 0 && k > 0 {
      CountAboveSuffix(t[1..], m, k - 1);
    }
  }

  /** The middle of sorted values has at most half of them on each side. */
  lemma MiddleRank(t: seq<int>)
    requires Sorted(t) && |t| > 0
    ensures 2 * CountBelow(t, Middle(t).value) <= |t|
    ensures 2 * CountAbove(t, Middle(t).value) <= |t|
    ensures |t| % 2 == 1 ==> Middle(t).value == t[|t| / 2] as real
  {
    var n := |t|;
    var m := Middle(t).value;
    if n % 2 == 1 {
      CountBelowPrefix(t, m, n / 2);
      CountAboveSuffix(t, m, n / 2 + 1);
    } else {
      assert t[n / 2 - 1] as real <= m <= t[n / 2] as real;
      CountBelowPrefix(t, m, n / 2);
      CountAboveSuffix(t, m, n / 2);
    }
  }

  /**
   * The median is a middle value: at most half of the values lie strictly
   * below it and at most half strictly above it, and for an odd count it is
   * one of the values.
   */
  lemma MedianRank(s: seq<int>)
    requires |s| > 0
    ensures MedianOf(s).Some?
    ensures 2 * CountBelow(s, MedianOf(s).value) <= |s|
    ensures 2 * CountAbove(s, MedianOf(s).value) <= |s|
    ensures |s| % 2 == 1 ==> exists x :: x in s && x as real == MedianOf(s).value
  {
    var t := Sort(s);
    assert |t| == |multiset(t)| == |multiset(s)| == |s|;
    assert MedianOf(s) == Middle(t);
    var m := Middle(t).value;
    MiddleRank(t);
    CountSort(s, m, true);
    CountSort(s, m, false);
    if |s| % 2 == 1 {
      var x := t[|t| / 2];
      assert x in multiset(t);
      assert x in s && x as real == m;
    }
  }

  /** Median of a single value is that value. */
  lemma MedianSingleton(x: int)
    ensures MedianOf([x]) == Some(x as real)
  {
  }
}
