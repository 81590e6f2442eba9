/** Order statistics of a group of rents, as pandas' `min`, `median` and
    `max` aggregations compute them over the non-missing values
    (data_processing.py:17-20). Rents are whole numbers; the median of an
    even-sized group is the mean of the two middle values, so it is real. */
module Stats {

  predicate Sorted(s: seq<int>) {
    forall i, j :: 0 <= i < j < |s| ==> s[i] <= s[j]
  }

  /** `x` placed before the first value not below it. */
  function Insert(x: int, s: seq<int>): (r: seq<int>)
    ensures |r| == |s| + 1
  {
    if |s| == 0 || x <= s[0] then [x] + s
    else [s[0]] + Insert(x, s[1..])
  }

  lemma {:induction false} InsertMultiset(x: int, s: seq<int>)
    ensures multiset(Insert(x, s)) == multiset(s) + multiset{x}
  {
    if |s| > 0 && x > s[0] {
      InsertMultiset(x, s[1..]);
      assert s == [s[0]] + s[1..];
    }
  }

  /** Every value of `Insert(x, s)` is `x` or a value of `s`. */
  lemma InsertMembers(x: int, s: seq<int>)
    ensures forall k :: 0 <= k < |Insert(x, s)| ==> Insert(x, s)[k] == x || Insert(x, s)[k] in s
  {
    InsertMultiset(x, s);
    forall k | 0 <= k < |Insert(x, s)| ensures Insert(x, s)[k] == x || Insert(x, s)[k] in s {
      assert Insert(x, s)[k] in multiset(Insert(x, s));
    }
  }

  lemma {:induction false} InsertSorted(x: int, s: seq<int>)
    requires Sorted(s)
    ensures Sorted(Insert(x, s))
  {
    if |s| > 0 && x > s[0] {
      var rest := Insert(x, s[1..]);
      InsertSorted(x, s[1..]);
      InsertMembers(x, s[1..]);
      var r := [s[0]] + rest;
      forall i, j | 0 <= i < j < |r| ensures r[i] <= r[j] {
        if i > 0 {
          assert r[i] == rest[i - 1] && r[j] == rest[j - 1];
        } else {
          assert r[j] == rest[j - 1];
          assert rest[j - 1] == x || rest[j - 1] in s[1..];
        }
      }
    }
  }

  /** The values in ascending order. */
  function Sort(s: seq<int>): (r: seq<int>)
    ensures |r| == |s|
    ensures Sorted(r)
    ensures multiset(r) == multiset(s)
  {
    if |s| == 0 then []
    else
      var rest := Sort(s[1..]);
      InsertSorted(s[0], rest);
      InsertHead(s, rest);
      Insert(s[0], rest)
  }

  /** Inserting the head into an arrangement of the tail arranges the whole. */
  lemma InsertHead(s: seq<int>, rest: seq<int>)
    requires |s| > 0 && multiset(rest) == multiset(s[1..])
    ensures multiset(Insert(s[0], rest)) == multiset(s)
  {
    InsertMultiset(s[0], rest);
    assert s == [s[0]] + s[1..];
  }

  /** The first value of a sorted sequence is its least. */
  lemma SortedHead(a: seq<int>, x: int)
    requires Sorted(a) && |a| > 0 && x in a
    ensures a[0] <= x
  {
    var i :| 0 <= i < |a| && a[i] == x;
    if i > 0 {
      assert a[0] <= a[i];
    }
  }

  lemma SortedTail(a: seq<int>)
    requires Sorted(a) && |a| > 0
    ensures Sorted(a[1..])
  {
    forall i, j | 0 <= i < j < |a[1..]| ensures a[1..][i] <= a[1..][j] {
      assert a[1..][i] == a[i + 1] && a[1..][j] == a[j + 1];
    }
  }

  /** Two sorted arrangements of the same values are the same sequence. */
  lemma {:induction false} SortedUnique(a: seq<int>, b: seq<int>)
    requires Sorted(a) && Sorted(b) && multiset(a) == multiset(b)
    ensures a == b
    decreases |a|
  {
    assert |b| == |multiset(b)| == |multiset(a)| == |a|;
    if |a| > 0 {
      assert a[0] in multiset(b) && b[0] in multiset(a);
      SortedHead(b, a[0]);
      SortedHead(a, b[0]);
      assert a[0] == b[0];
      assert a == [a[0]] + a[1..];
      assert b == [b[0]] + b[1..];
      assert multiset(a[1..]) == multiset(a) - multiset{a[0]};
      assert multiset(b[1..]) == multiset(b) - multiset{b[0]};
      assert multiset(a[1..]) == multiset(b[1..]);
      SortedTail(a);
      SortedTail(b);
      SortedUnique(a[1..], b[1..]);
    }
  }

  /** Sorting a sorted sequence changes nothing. */
  lemma SortSorted(s: seq<int>)
    requires Sorted(s)
    ensures Sort(s) == s
  {
    SortedUnique(Sort(s), s);
  }

  /** The smallest value. */
  function Min(s: seq<int>): (m: int)
    requires |s| > 0
    ensures m in s
    ensures forall k :: 0 <= k < |s| ==> m <= s[k]
  {
    if |s| == 1 then s[0]
    else
      var m := Min(s[1..]);
      assert forall k :: 1 <= k < |s| ==> s[k] == s[1..][k - 1];
      if s[0] <= m then s[0] else m
  }

  /** The largest value. */
  function Max(s: seq<int>): (m: int)
    requires |s| > 0
    ensures m in s
    ensures forall k :: 0 <= k < |s| ==> s[k] <= m
  {
    if |s| == 1 then s[0]
    else
      var m := Max(s[1..]);
      assert forall k :: 1 <= k < |s| ==> s[k] == s[1..][k - 1];
      if s[0] >= m then s[0] else m
  }

  /** The minimum depends only on the values, not on their order. */
  lemma MinPermutation(a: seq<int>, b: seq<int>)
    requires |a| > 0 && multiset(a) == multiset(b)
    ensures |b| > 0 && Min(a) == Min(b)
  {
    assert |b| == |multiset(b)| == |a|;
    assert Min(a) in multiset(b) && Min(b) in multiset(a);
    MinMaxBound(a, Min(b));
    MinMaxBound(b, Min(a));
  }

  /** The maximum depends only on the values, not on their order. */
  lemma MaxPermutation(a: seq<int>, b: seq<int>)
    requires |a| > 0 && multiset(a) == multiset(b)
    ensures |b| > 0 && Max(a) == Max(b)
  {
    assert |b| == |multiset(b)| == |a|;
    assert Max(a) in multiset(b) && Max(b) in multiset(a);
    MinMaxBound(a, Max(b));
    MinMaxBound(b, Max(a));
  }

  /** The middle of a sorted sequence: its middle value when the length is
      odd, the mean of the two middle values when it is even. */
  function Middle(t: seq<int>): real
    requires |t| > 0
  {
    var n := |t|;
    if n % 2 == 1 then t[n / 2] as real
    else (t[n / 2 - 1] + t[n / 2]) as real / 2.0
  }

  /** pandas' median: the middle of the sorted values. It lies between the
      minimum and the maximum. */
  function Median(s: seq<int>): (r: real)
    requires |s| > 0
    ensures Min(s) as real <= r <= Max(s) as real
  {
    MiddleOfSortBounds(s);
    Middle(Sort(s))
  }

  /** The median of an odd number of values is one of the values. */
  lemma MedianOddIsValue(s: seq<int>)
    requires |s| > 0 && |s| % 2 == 1
    ensures exists k :: 0 <= k < |s| && Median(s) == s[k] as real
  {
    SortedValueIn(s, |s| / 2);
    var k :| 0 <= k < |s| && s[k] == Sort(s)[|s| / 2];
  }

  /** The odd/even rule, stated on input that is already sorted. */
  lemma MedianOfSorted(s: seq<int>)
    requires |s| > 0 && Sorted(s)
    ensures |s| % 2 == 1 ==> Median(s) == s[|s| / 2] as real
    ensures |s| % 2 == 0 ==> Median(s) == (s[|s| / 2 - 1] + s[|s| / 2]) as real / 2.0
  {
    SortSorted(s);
  }

  /** The median depends only on the values, not on their order. */
  lemma MedianPermutation(a: seq<int>, b: seq<int>)
    requires |a| > 0 && multiset(a) == multiset(b)
    ensures |b| > 0
    ensures Median(a) == Median(b)
  {
    assert |b| == |multiset(b)| == |a|;
    SortedUnique(Sort(a), Sort(b));
  }

  lemma MinMaxBound(s: seq<int>, x: int)
    requires x in s
    ensures Min(s) <= x <= Max(s)
  {
    var i :| 0 <= i < |s| && s[i] == x;
  }

  /** Every value of the sorted sequence is a value of the input. */
  lemma SortedValueIn(s: seq<int>, k: int)
    requires 0 <= k < |s|
    ensures Sort(s)[k] in s
  {
    var t := Sort(s);
    assert t[k] in multiset(t);
  }

  /** The middle of values within [lo, hi] is within [lo, hi]. */
  lemma MiddleBounds(t: seq<int>, lo: int, hi: int)
    requires |t| > 0
    requires forall k :: 0 <= k < |t| ==> lo <= t[k] <= hi
    ensures lo as real <= Middle(t) <= hi as real
  {
    var n := |t|;
    assert lo <= t[n / 2] <= hi;
    if n % 2 == 0 {
      assert lo <= t[n / 2 - 1] <= hi;
    }
  }

  /** The middle of the sorted values lies between the minimum and the
      maximum. */
  lemma MiddleOfSortBounds(s: seq<int>)
    requires |s| > 0
    ensures Min(s) as real <= Middle(Sort(s)) <= Max(s) as real
  {
    var t := Sort(s);
    forall k | 0 <= k < |t| ensures Min(s) <= t[k] <= Max(s) {
      SortedValueIn(s, k);
      MinMaxBound(s, t[k]);
    }
    MiddleBounds(t, Min(s), Max(s));
  }

  /** The median of any arrangement is the middle of the sorted one. */
  lemma MedianOfArrangement(s: seq<int>, t: seq<int>)
    requires |t| > 0 && Sorted(t) && multiset(s) == multiset(t)
    ensures |s| == |t|
    ensures Median(s) == Middle(t)
  {
    assert |s| == |multiset(s)| == |t|;
    MedianPermutation(s, t);
    SortSorted(t);
  }
}
