/**
 * `avg_page_len` and `estimate_page_length` of filterpagenumbers.py, with
 * `statistics.median` of Python's standard library.
 */
module Estimation {
  import opened Candidates

  // ---------------------------------------------------------------------------
  // statistics.median

  predicate Sorted(s: seq<real>)
  {
    forall i, j :: 0 <= i < j < |s| ==> s[i] <= s[j]
  }

  function Insert(x: real, s: seq<real>): (r: seq<real>)
    requires Sorted(s)
    ensures Sorted(r) && multiset(r) == multiset(s) + multiset{x}
    ensures |r| == |s| + 1 && r[0] == if s == [] || x <= s[0] then x else s[0]
  {
    if s == [] then [x]
    else if x <= s[0] then [x] + s
    else
      var t := Insert(x, s[1..]);
      SortedCons(s, x, t);
      [s[0]] + t
  }

  /** Putting the smallest element of `s` back in front of a sorted insertion
      into the rest of `s` gives a sorted insertion into `s`. */
  lemma SortedCons(s: seq<real>, x: real, t: seq<real>)
    requires Sorted(s) && |s| > 0 && s[0] < x
    requires Sorted(t) && multiset(t) == multiset(s[1..]) + multiset{x}
    requires |t| == |s| && t[0] == if |s| == 1 || x <= s[1] then x else s[1]
    ensures Sorted([s[0]] + t) && multiset([s[0]] + t) == multiset(s) + multiset{x}
  {
    assert s == [s[0]] + s[1..];
    var r := [s[0]] + t;
    forall i, j | 0 <= i < j < |r|
      ensures r[i] <= r[j]
    {
      if i == 0 {
        assert t[0] <= t[j - 1];
      }
    }
  }

  /** The sorted order `median` works on. */
  function Sort(s: seq<real>): (r: seq<real>)
    ensures Sorted(r) && multiset(r) == multiset(s)
  {
    if s == [] then [] else
      assert s == [s[0]] + s[1..];
      Insert(s[0], Sort(s[1..]))
  }

  /** `statistics.median`: the middle value of the sorted data, or the mean of
      the two middle values when there is an even number of them. The data must
      not be empty (Python raises `StatisticsError`). The result lies between two
      values of the data. */
  function Median(s: seq<real>): (m: real)
    requires |s| > 0
    ensures exists i, j :: 0 <= i < |s| && 0 <= j < |s| && s[i] <= m <= s[j]
  {
    var t := Sort(s);
    var n := |t|;
    assert |t| == |multiset(t)| == |multiset(s)| == |s|;
    var lo, hi := if n % 2 == 1 then n / 2 else n / 2 - 1, n / 2;
    assert t[lo] in multiset(s) && t[hi] in multiset(s);
    if n % 2 == 1 then t[n / 2] else (t[lo] + t[hi]) / 2.0
  }

  /** The median is bounded by every bound of the data. */
  lemma MedianBounds(s: seq<real>, lo: real, hi: real)
    requires |s| > 0
    requires forall k :: 0 <= k < |s| ==> lo <= s[k] <= hi
    ensures lo <= Median(s) <= hi
  {
  }

  /** The median of data that all equal `v` is `v`. */
  lemma MedianOfConstant(s: seq<real>, v: real)
    requires |s| > 0
    requires forall k :: 0 <= k < |s| ==> s[k] == v
    ensures Median(s) == v
  {
    MedianBounds(s, v, v);
  }

  // ---------------------------------------------------------------------------
  // avg_page_len and estimate_page_length

  /** `avg_page_len(prev, curr)`: lines per page between two candidates, the line
      distance spread evenly over the page distance. */
  function AvgPageLen(prev: Candidate, curr: Candidate): (r: real)
    requires prev.number < curr.number
    ensures prev.lineIndex < curr.lineIndex ==> r > 0.0
    ensures prev.lineIndex == curr.lineIndex ==> r == 0.0
    ensures prev.lineIndex > curr.lineIndex ==> r < 0.0
  {
    (curr.lineIndex - prev.lineIndex) as real / (curr.number - prev.number) as real
  }

  /** The `lengths` of one sequence: the page length between each adjacent pair. */
  function PageLengths(s: seq<Candidate>): (r: seq<real>)
    requires NumbersIncrease(s)
    ensures |r| == if |s| == 0 then 0 else |s| - 1
  {
    seq(if |s| == 0 then 0 else |s| - 1, k requires 0 <= k < |s| - 1 => AvgPageLen(s[k], s[k + 1]))
  }

  /** What `estimate_page_length` accepts: every sequence has an adjacent pair (the
      median of no lengths raises `StatisticsError`), and there is a sequence. */
  predicate Estimable(sequences: seq<seq<Candidate>>)
  {
    |sequences| > 0 && forall j :: 0 <= j < |sequences| ==> |sequences[j]| >= 2 && NumbersIncrease(sequences[j])
  }

  /** The estimate for one sequence: the median of its page lengths. */
  function SequenceEstimate(s: seq<Candidate>): real
    requires |s| >= 2 && NumbersIncrease(s)
  {
    Median(PageLengths(s))
  }

  /** The `estimates`: the median page length of each sequence. */
  function SequenceEstimates(sequences: seq<seq<Candidate>>): (r: seq<real>)
    requires Estimable(sequences)
    ensures |r| == |sequences|
  {
    seq(|sequences|, j requires 0 <= j < |sequences| => SequenceEstimate(sequences[j]))
  }

  /** The page length `estimate_page_length` settles on: the median of the
      per-sequence medians. */
  function PageLengthEstimate(sequences: seq<seq<Candidate>>): real
    requires Estimable(sequences)
  {
    Median(SequenceEstimates(sequences))
  }

  /** Every pair of every sequence is exactly `v` lines per page. */
  ghost predicate Uniform(sequences: seq<seq<Candidate>>, v: real)
    requires Estimable(sequences)
  {
    forall j, k :: 0 <= j < |sequences| && 0 < k < |sequences[j]| ==> AvgPageLen(sequences[j][k - 1], sequences[j][k]) == v
  }

  /** Sequences that run forward through the text give a positive page length. */
  lemma EstimatePositive(sequences: seq<seq<Candidate>>)
    requires Estimable(sequences)
    requires forall j :: 0 <= j < |sequences| ==> LinesIncrease(sequences[j])
    ensures PageLengthEstimate(sequences) > 0.0
  {
    var est := SequenceEstimates(sequences);
    forall j | 0 <= j < |sequences|
      ensures est[j] > 0.0
    {
      var s := sequences[j];
      var lengths := PageLengths(s);
      forall k | 0 <= k < |lengths|
        ensures lengths[k] > 0.0
      {
        assert s[k].lineIndex < s[k + 1].lineIndex;
      }
    }
  }

  /** When every pair agrees on `v` lines per page, the estimate is `v`. */
  lemma EstimateOfUniform(sequences: seq<seq<Candidate>>, v: real)
    requires Estimable(sequences) && Uniform(sequences, v)
    ensures PageLengthEstimate(sequences) == v
  {
    var est := SequenceEstimates(sequences);
    forall j | 0 <= j < |sequences|
      ensures est[j] == v
    {
      var s := sequences[j];
      var lengths := PageLengths(s);
      forall k | 0 <= k < |lengths|
        ensures lengths[k] == v
      {
        assert lengths[k] == AvgPageLen(s[k + 1 - 1], s[k + 1]);
      }
      MedianOfConstant(lengths, v);
    }
    MedianOfConstant(est, v);
  }

  /** The inner loop of `estimate_page_length`: the page length of each adjacent
      pair of one sequence. */
  method PairPageLengths(s: seq<Candidate>) returns (lengths: seq<real>)
    requires NumbersIncrease(s)
    ensures lengths == PageLengths(s)
  {
    lengths := [];
    if |s| == 0 {
      return;
    }
    for k := 1 to |s|
      invariant |lengths| == k - 1
      invariant forall t {:trigger lengths[t]} :: 0 <= t < k - 1 ==> lengths[t] == AvgPageLen(s[t], s[t + 1])
    {
      lengths := lengths + [AvgPageLen(s[k - 1], s[k])];
    }
  }

  /** `estimate_page_length(sequences)`. */
  method EstimatePageLength(sequences: seq<seq<Candidate>>) returns (pageLength: real)
    requires Estimable(sequences)
    ensures pageLength == PageLengthEstimate(sequences)
  {
    var estimates: seq<real> := [];
    for j := 0 to |sequences|
      invariant |estimates| == j
      invariant forall t {:trigger estimates[t]} :: 0 <= t < j ==> estimates[t] == SequenceEstimate(sequences[t])
    {
      var lengths := PairPageLengths(sequences[j]);
      ghost var before := estimates;
      estimates := estimates + [Median(lengths)];
      forall t | 0 <= t < j + 1
        ensures estimates[t] == SequenceEstimate(sequences[t])
      {
        if t < j {
          assert estimates[t] == before[t];
        }
      }
    }
    assert estimates == SequenceEstimates(sequences) by {
      var est := SequenceEstimates(sequences);
      assert forall t :: 0 <= t < |est| ==> estimates[t] == est[t];
    }
    pageLength := Median(estimates);
  }
}
