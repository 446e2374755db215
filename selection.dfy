/**
 * `plausible_page_number_pair`, `trim_sequence` and `select_best_sequence` of
 * filterpagenumbers.py: cutting a candidate sequence at implausible steps and
 * scoring what is left by how evenly its pages are spaced.
 */
module Selection {
  import opened Wrappers
  import opened Candidates
  import opened Estimation

  /** `plausible_page_number_pair`: the page numbers do not jump by more than
      `maxGap`, and the page between them is not much too short (under a twentieth
      of the estimated page length). */
  predicate PlausiblePair(prev: Candidate, curr: Candidate, pageLength: real, maxGap: int)
    requires prev.number < curr.number
  {
    if curr.number > prev.number + maxGap then false
    else if 20.0 * AvgPageLen(prev, curr) < pageLength then false
    else true
  }

  /** Every adjacent pair of `s` is plausible. */
  predicate AllPlausible(s: seq<Candidate>, pageLength: real, maxGap: int)
    requires NumbersIncrease(s)
  {
    forall k :: 0 < k < |s| ==> PlausiblePair(s[k - 1], s[k], pageLength, maxGap)
  }

  /** The first `i >= from` whose pair `(s[i-1], s[i])` is implausible, as the
      `enumerate(pairwise(sequence), start=1)` loop of `trim_sequence` finds it. */
  function FirstImplausible(s: seq<Candidate>, pageLength: real, maxGap: int, from: nat): (r: Option<nat>)
    requires 1 <= from <= |s| && NumbersIncrease(s)
    ensures r.Some? ==> from <= r.value < |s| && !PlausiblePair(s[r.value - 1], s[r.value], pageLength, maxGap)
    ensures r.Some? ==> forall k :: from <= k < r.value ==> PlausiblePair(s[k - 1], s[k], pageLength, maxGap)
    ensures r.None? <==> forall k :: from <= k < |s| ==> PlausiblePair(s[k - 1], s[k], pageLength, maxGap)
    decreases |s| - from
  {
    if from == |s| then None
    else if !PlausiblePair(s[from - 1], s[from], pageLength, maxGap) then Some(from)
    else FirstImplausible(s, pageLength, maxGap, from + 1)
  }

  /** Slices of an increasing sequence increase. */
  lemma SliceIncreases(s: seq<Candidate>, a: nat, b: nat)
    requires a <= b <= |s|
    ensures NumbersIncrease(s) ==> NumbersIncrease(s[a..b])
    ensures LinesIncrease(s) ==> LinesIncrease(s[a..b])
  {
    if NumbersIncrease(s) {
      forall k | 0 < k < b - a
        ensures s[a..b][k - 1].number < s[a..b][k].number
      {
        assert s[a..b][k - 1] == s[a + k - 1] && s[a..b][k] == s[a + k];
      }
    }
    if LinesIncrease(s) {
      forall k | 0 < k < b - a
        ensures s[a..b][k - 1].lineIndex < s[a..b][k].lineIndex
      {
        assert s[a..b][k - 1] == s[a + k - 1] && s[a..b][k] == s[a + k];
      }
    }
  }

  lemma SliceOfSlice(s: seq<Candidate>, i: nat, a: nat, b: nat)
    requires i <= |s| && a <= b <= |s| - i
    ensures s[i..][a..b] == s[i + a..i + b]
  {
    assert |s[i..][a..b]| == |s[i + a..i + b]|;
    forall k | 0 <= k < b - a
      ensures s[i..][a..b][k] == s[i + a..i + b][k]
    {
    }
  }

  /** `r` is a stretch of `s` with every pair plausible, non-empty when `s` is
      and increasing in lines when `s` is. */
  ghost predicate TrimmedFrom(s: seq<Candidate>, r: seq<Candidate>, pageLength: real, maxGap: int)
  {
    && (exists a, b :: 0 <= a <= b <= |s| && r == s[a..b])
    && (forall c :: c in r ==> c in s)
    && NumbersIncrease(r) && AllPlausible(r, pageLength, maxGap)
    && (LinesIncrease(s) ==> LinesIncrease(r))
    && (|s| > 0 ==> |r| > 0)
  }

  /** `trim_sequence`: cut the sequence at its first implausible pair and keep the
      longer of the part before the cut and the trimmed rest (the rest on a tie).
      The result is a stretch of the input with every pair plausible, and the
      input itself when nothing was implausible. */
  function TrimSequence(s: seq<Candidate>, pageLength: real, maxGap: int): (r: seq<Candidate>)
    requires NumbersIncrease(s)
    ensures TrimmedFrom(s, r, pageLength, maxGap)
    ensures |s| < 2 || AllPlausible(s, pageLength, maxGap) ==> r == s
    decreases |s|
  {
    if |s| < 2 || FirstImplausible(s, pageLength, maxGap, 1).None? then
      WholeIsTrimmed(s, pageLength, maxGap);
      s
    else
      var i := FirstImplausible(s, pageLength, maxGap, 1).value;
      SliceIncreases(s, i, |s|);
      var end := TrimSequence(s[i..], pageLength, maxGap);
      TrimCut(s, i, end, pageLength, maxGap);
      if i > |end| then s[..i] else end
  }

  lemma WholeIsTrimmed(s: seq<Candidate>, pageLength: real, maxGap: int)
    requires NumbersIncrease(s) && (|s| < 2 || AllPlausible(s, pageLength, maxGap))
    ensures TrimmedFrom(s, s, pageLength, maxGap)
  {
    assert s == s[0..|s|];
  }

  /** Cutting at the first implausible pair `i` keeps the trimming properties,
      whichever part is the longer. */
  lemma TrimCut(s: seq<Candidate>, i: nat, end: seq<Candidate>, pageLength: real, maxGap: int)
    requires NumbersIncrease(s) && 1 <= i < |s|
    requires forall k :: 1 <= k < i ==> PlausiblePair(s[k - 1], s[k], pageLength, maxGap)
    requires TrimmedFrom(s[i..], end, pageLength, maxGap)
    ensures TrimmedFrom(s, if i > |end| then s[..i] else end, pageLength, maxGap)
  {
    var start := s[..i];
    SliceIncreases(s, 0, i);
    SliceIncreases(s, i, |s|);
    assert forall k :: 0 <= k < |start| ==> start[k] == s[k];
    assert start == s[0..i];
    var a, b :| 0 <= a <= b <= |s[i..]| && end == s[i..][a..b];
    SliceOfSlice(s, i, a, b);
  }

  // ---------------------------------------------------------------------------
  // select_best_sequence

  /** How close one pair's page length is to the estimate: the ratio when it is
      below one, its reciprocal otherwise; one exactly when they agree. */
  function Closeness(ratio: real): (r: real)
    ensures r <= 1.0
    ensures ratio > 0.0 ==> r > 0.0
    ensures r == 1.0 <==> ratio == 1.0
  {
    if ratio < 1.0 then ratio else 1.0 / ratio
  }

  /** The `score` of one sequence: the closeness of every pair's page length to
      `pageLength`, added up over the pairs. */
  function Score(s: seq<Candidate>, pageLength: real): (r: real)
    requires NumbersIncrease(s) && pageLength != 0.0
    ensures r <= (if |s| == 0 then 0 else |s| - 1) as real
    ensures pageLength > 0.0 && LinesIncrease(s) ==> r >= 0.0
  {
    if |s| < 2 then 0.0
    else
      var init := s[..|s| - 1];
      SliceIncreases(s, 0, |s| - 1);
      Score(init, pageLength) + Closeness(AvgPageLen(s[|s| - 2], s[|s| - 1]) / pageLength)
  }

  /** Each pair of `s` is exactly `pageLength` lines per page. */
  ghost predicate EvenlySpaced(s: seq<Candidate>, pageLength: real)
    requires NumbersIncrease(s)
  {
    forall k :: 0 < k < |s| ==> AvgPageLen(s[k - 1], s[k]) == pageLength
  }

  /** A sequence gets the full score of one per pair exactly when every one of its
      pages is as long as the estimate. */
  lemma {:induction false} FullScoreIffEven(s: seq<Candidate>, pageLength: real)
    requires NumbersIncrease(s) && pageLength != 0.0 && |s| > 0
    ensures Score(s, pageLength) == (|s| - 1) as real <==> EvenlySpaced(s, pageLength)
    decreases |s|
  {
    if |s| >= 2 {
      var init := s[..|s| - 1];
      SliceIncreases(s, 0, |s| - 1);
      FullScoreIffEven(init, pageLength);
      var last := AvgPageLen(s[|s| - 2], s[|s| - 1]);
      assert Score(s, pageLength) == Score(init, pageLength) + Closeness(last / pageLength);
      RatioIsOne(last, pageLength);
      EvenlySpacedSplit(s, pageLength);
    }
  }

  lemma RatioIsOne(x: real, y: real)
    requires y != 0.0
    ensures x / y == 1.0 <==> x == y
  {
    if x / y == 1.0 {
      assert x == (x / y) * y;
    }
  }

  /** Evenly spaced means the sequence without its last element is, and so is
      the last pair. */
  lemma EvenlySpacedSplit(s: seq<Candidate>, pageLength: real)
    requires NumbersIncrease(s) && |s| >= 2 && NumbersIncrease(s[..|s| - 1])
    ensures EvenlySpaced(s, pageLength) <==>
      EvenlySpaced(s[..|s| - 1], pageLength) && AvgPageLen(s[|s| - 2], s[|s| - 1]) == pageLength
  {
    var init := s[..|s| - 1];
    assert forall k :: 0 <= k < |init| ==> init[k] == s[k];
  }

  /** The inner loop of `select_best_sequence`: the score of one sequence. */
  method ScoreSequence(s: seq<Candidate>, pageLength: real) returns (score: real)
    requires NumbersIncrease(s) && pageLength != 0.0
    ensures score == Score(s, pageLength)
  {
    score := 0.0;
    if |s| == 0 {
      return;
    }
    for k := 1 to |s|
      invariant NumbersIncrease(s[..k])
      invariant score == Score(s[..k], pageLength)
    {
      var length := AvgPageLen(s[k - 1], s[k]);
      var ratio := length / pageLength;
      score := score + Closeness(ratio);
      assert s[..k + 1][..k] == s[..k];
      SliceIncreases(s, 0, k + 1);
    }
    assert s[..|s|] == s;
  }

  /** No sequence before `j` scores more than `bound`. */
  ghost predicate ScoresAtMost(sequences: seq<seq<Candidate>>, j: nat, pageLength: real, bound: real)
    requires j <= |sequences| && pageLength != 0.0
    requires forall t :: 0 <= t < |sequences| ==> NumbersIncrease(sequences[t])
  {
    forall t :: 0 <= t < j ==> Score(sequences[t], pageLength) <= bound
  }

  /** Raising the bound to cover the score of sequence `j` extends the claim to `j + 1`. */
  lemma ScoresAtMostStep(sequences: seq<seq<Candidate>>, j: nat, pageLength: real, bound: real, newBound: real)
    requires j < |sequences| && pageLength != 0.0
    requires forall t :: 0 <= t < |sequences| ==> NumbersIncrease(sequences[t])
    requires ScoresAtMost(sequences, j, pageLength, bound)
    requires bound <= newBound && Score(sequences[j], pageLength) <= newBound
    ensures ScoresAtMost(sequences, j + 1, pageLength, newBound)
  {
  }

  /** `select_best_sequence`: a sequence of the highest score. */
  method SelectBestSequence(sequences: seq<seq<Candidate>>, pageLength: real) returns (best: seq<Candidate>)
    requires |sequences| > 0 && pageLength != 0.0
    requires forall j :: 0 <= j < |sequences| ==> NumbersIncrease(sequences[j])
    ensures best in sequences
    ensures forall j :: 0 <= j < |sequences| ==> Score(sequences[j], pageLength) <= Score(best, pageLength)
  {
    var bi := 0;
    var bestScore := ScoreSequence(sequences[0], pageLength);
    for j := 1 to |sequences|
      invariant bi < j && bestScore == Score(sequences[bi], pageLength)
      invariant ScoresAtMost(sequences, j, pageLength, bestScore)
    {
      var score := ScoreSequence(sequences[j], pageLength);
      if score > bestScore {
        ScoresAtMostStep(sequences, j, pageLength, bestScore, score);
        bi, bestScore := j, score;
      } else {
        ScoresAtMostStep(sequences, j, pageLength, bestScore, bestScore);
      }
    }
    best := sequences[bi];
  }
}
