/** The statistics `grade_exam` computes once every line is scored, and the
    two rankings of questions it reports. */
module Aggregator {
  import opened Sorting

  /** `max(scores)`. */
  function Max(s: seq<int>): (r: int)
    requires |s| > 0
    ensures r in s
    ensures forall x :: x in s ==> x <= r
  {
    if |s| == 1 then s[0]
    else
      var m := Max(s[1..]);
      assert s == [s[0]] + s[1..];
      if s[0] >= m then s[0] else m
  }

  /** `min(scores)`. */
  function Min(s: seq<int>): (r: int)
    requires |s| > 0
    ensures r in s
    ensures forall x :: x in s ==> r <= x
  {
    if |s| == 1 then s[0]
    else
      var m := Min(s[1..]);
      assert s == [s[0]] + s[1..];
      if s[0] <= m then s[0] else m
  }

  function Sum(s: seq<int>): int {
    if s == [] then 0 else s[0] + Sum(s[1..])
  }

  /** `sum(score > 80 for score in scores)`. */
  function HighScores(s: seq<int>): (r: nat)
    ensures r <= |s|
  {
    if s == [] then 0 else (if s[0] > 80 then 1 else 0) + HighScores(s[1..])
  }

  /** No score above 80 gives a count of 0, and every score above 80 a count
      of all scores. */
  lemma {:induction false} HighScoresExtremes(s: seq<int>)
    ensures HighScores(s) == 0 <==> forall i :: 0 <= i < |s| ==> s[i] <= 80
    ensures HighScores(s) == |s| <==> forall i :: 0 <= i < |s| ==> s[i] > 80
  {
    if s != [] {
      HighScoresExtremes(s[1..]);
      assert forall i :: 1 <= i < |s| ==> s[i] == s[1..][i - 1];
    }
  }

  /** The mean without rounding. */
  function Mean(s: seq<int>): (r: real)
    requires |s| > 0
    ensures r * |s| as real == Sum(s) as real
  {
    Sum(s) as real / |s| as real
  }

  /** The middle element of a sorted list, or the mean of the two middle
      elements when their number is even (true division, as in Python 3). */
  function Middle(sorted: seq<int>): real
    requires |sorted| > 0
  {
    var mid := |sorted| / 2;
    if |sorted| % 2 == 1 then sorted[mid] as real
    else (sorted[mid - 1] + sorted[mid]) as real / 2.0
  }

  /** The median of the scores: the middle of `sorted(scores)`. */
  function Median(s: seq<int>): real
    requires |s| > 0
  {
    Middle(SortInts(s))
  }

  /** Every element of a list lies between its minimum and maximum, and so do
      its sorted elements. */
  lemma SortedWithinBounds(s: seq<int>)
    requires |s| > 0
    ensures forall i :: 0 <= i < |s| ==> Min(s) <= SortInts(s)[i] <= Max(s)
  {
    var t := SortInts(s);
    forall i | 0 <= i < |t|
      ensures Min(s) <= t[i] <= Max(s)
    {
      assert t[i] in multiset(t);
      assert t[i] in s;
    }
  }

  lemma MiddleBounds(sorted: seq<int>, lo: int, hi: int)
    requires |sorted| > 0
    requires forall i :: 0 <= i < |sorted| ==> lo <= sorted[i] <= hi
    ensures lo as real <= Middle(sorted) <= hi as real
  {
    var mid := |sorted| / 2;
    if |sorted| % 2 == 0 {
      var a, b := sorted[mid - 1], sorted[mid];
      assert lo <= a <= hi && lo <= b <= hi;
      assert (2 * lo) as real <= (a + b) as real <= (2 * hi) as real;
    } else {
      assert lo <= sorted[mid] <= hi;
    }
  }

  /** lowest <= median <= highest. */
  lemma MedianBounds(s: seq<int>)
    requires |s| > 0
    ensures Min(s) as real <= Median(s) <= Max(s) as real
  {
    SortedWithinBounds(s);
    MiddleBounds(SortInts(s), Min(s), Max(s));
  }

  /** The median does not depend on the order of the scores. */
  lemma MedianPermutation(a: seq<int>, b: seq<int>)
    requires |a| > 0 && multiset(a) == multiset(b)
    ensures |b| > 0 && Median(a) == Median(b)
  {
    assert |b| == |multiset(b)| == |multiset(a)| == |a|;
    SortIntsPermutation(a, b);
  }

  lemma {:induction false} SumBounds(s: seq<int>, lo: int, hi: int)
    requires forall x :: x in s ==> lo <= x <= hi
    ensures lo * |s| <= Sum(s) <= hi * |s|
  {
    if s != [] {
      assert s[0] in s && forall x :: x in s[1..] ==> x in s;
      SumBounds(s[1..], lo, hi);
      assert lo * |s| == lo + lo * (|s| - 1);
      assert hi * |s| == hi + hi * (|s| - 1);
    }
  }

  /** lowest <= mean <= highest. */
  lemma MeanBounds(s: seq<int>)
    requires |s| > 0
    ensures Min(s) as real <= Mean(s) <= Max(s) as real
  {
    SumBounds(s, Min(s), Max(s));
    QuotientBounds(Sum(s), |s|, Min(s), Max(s));
  }

  lemma QuotientBounds(total: int, n: int, lo: int, hi: int)
    requires n > 0 && lo * n <= total <= hi * n
    ensures lo as real <= total as real / n as real <= hi as real
  {
    var q := total as real / n as real;
    assert q * n as real == total as real;
    assert (lo * n) as real == lo as real * n as real;
    assert (hi * n) as real == hi as real * n as real;
  }

  /** The summary `grade_exam` reports. */
  datatype Statistics = Statistics(
    highScores: nat,
    mean: real,
    highest: int,
    lowest: int,
    range: int,
    median: real)

  /** The statistics of a non-empty list of scores (`max` raises on an
      empty one). */
  function Summarize(scores: seq<int>): (st: Statistics)
    requires |scores| > 0
    ensures st.highScores <= |scores|
    ensures st.highest in scores && st.lowest in scores
    ensures forall x :: x in scores ==> st.lowest <= x <= st.highest
    ensures st.highScores == HighScores(scores)
    ensures st.range == st.highest - st.lowest && st.range >= 0
    ensures st.lowest as real <= st.median <= st.highest as real
    ensures st.lowest as real <= st.mean <= st.highest as real
  {
    MedianBounds(scores);
    MeanBounds(scores);
    Statistics(
      HighScores(scores),
      Mean(scores),
      Max(scores),
      Min(scores),
      Max(scores) - Min(scores),
      Median(scores))
  }

  /** One entry of a question table: the question number and its count. */
  datatype Row = Row(question: int, count: nat)

  /** The entries of `table` for questions 1..n, in question order. */
  function Items(table: map<int, nat>, n: nat): (r: seq<Row>)
    ensures forall row :: row in r <==> 1 <= row.question <= n && row.question in table && row.count == table[row.question]
    ensures forall i, j :: 0 <= i < j < |r| ==> r[i].question < r[j].question
    ensures forall i :: 0 <= i < |r| ==> 1 <= r[i].question <= n
  {
    if n == 0 then []
    else Items(table, n - 1) + (if n in table then [Row(n, table[n])] else [])
  }

  lemma SameElements<T>(a: seq<T>, b: seq<T>)
    requires multiset(a) == multiset(b)
    ensures forall x :: x in a <==> x in b
  {
    forall x
      ensures x in a <==> x in b
    {
      assert x in a <==> x in multiset(a);
      assert x in b <==> x in multiset(b);
    }
  }

  /** `sorted(table.items(), key=lambda x: x[1], reverse=True)` over a table
      of questions 1..25. */
  function Rank(table: map<int, nat>): (r: seq<Row>)
    requires forall q :: q in table ==> 1 <= q <= 25
    ensures multiset(r) == multiset(Items(table, 25))
    ensures forall row :: row in r <==> row.question in table && row.count == table[row.question]
    ensures forall i, j :: 0 <= i < j < |r| ==> r[i].count >= r[j].count
  {
    var items := Items(table, 25);
    var r := SortBy(items, (row: Row) => -(row.count as int));
    SameElements(r, items);
    r
  }
}
