/**
 * `candidate_sequences` and `_subsequences` of filterpagenumbers.py: every way
 * to pick, for each number of the longest increasing subsequence in turn, one
 * candidate carrying that number, each on a later line than the one before.
 */
module Enumeration {
  import opened Wrappers
  import opened Candidates

  /** `candidates_by_number[n]` of the `defaultdict(list)`: empty for a missing key. */
  function Bucket(byNumber: map<int, seq<Candidate>>, n: int): seq<Candidate>
  {
    if n in byNumber then byNumber[n] else []
  }

  /** The candidates of `candidates` that carry number `n`, in their order. */
  function WithNumber(candidates: seq<Candidate>, n: int): (r: seq<Candidate>)
    ensures forall c :: c in r <==> c in candidates && c.number == n
  {
    if candidates == [] then []
    else
      var last := candidates[|candidates| - 1];
      WithNumber(candidates[..|candidates| - 1], n) + (if last.number == n then [last] else [])
  }

  /** The grouping loop of `candidate_sequences`. */
  method GroupByNumber(candidates: seq<Candidate>) returns (byNumber: map<int, seq<Candidate>>)
    ensures forall n :: Bucket(byNumber, n) == WithNumber(candidates, n)
  {
    byNumber := map[];
    for i := 0 to |candidates|
      invariant forall n :: Bucket(byNumber, n) == WithNumber(candidates[..i], n)
    {
      var c := candidates[i];
      ghost var before := byNumber;
      byNumber := byNumber[c.number := Bucket(byNumber, c.number) + [c]];
      forall n
        ensures Bucket(byNumber, n) == WithNumber(candidates[..i + 1], n)
      {
        WithNumberStep(candidates, i, n);
        assert Bucket(byNumber, n) == Bucket(before, n) + (if c.number == n then [c] else []);
      }
    }
    assert candidates[..|candidates|] == candidates;
  }

  lemma WithNumberStep(candidates: seq<Candidate>, i: nat, n: int)
    requires i < |candidates|
    ensures WithNumber(candidates[..i + 1], n)
      == WithNumber(candidates[..i], n) + (if candidates[i].number == n then [candidates[i]] else [])
  {
    assert candidates[..i + 1][..i] == candidates[..i];
  }

  /** `[c] + s` for every `s` of `tails`. */
  function PrependAll(c: Candidate, tails: seq<seq<Candidate>>): (r: seq<seq<Candidate>>)
    ensures |r| == |tails|
    ensures forall k :: 0 <= k < |r| ==> r[k] == [c] + tails[k]
  {
    seq(|tails|, k requires 0 <= k < |tails| => [c] + tails[k])
  }

  /** `_subsequences(prev, numbers, candidate_map)`, as the list it generates. */
  function Subsequences(prev: Option<Candidate>, numbers: seq<int>, byNumber: map<int, seq<Candidate>>): seq<seq<Candidate>>
    decreases |numbers|, 1, 0
  {
    if numbers == [] then [[]] else Extend(prev, Bucket(byNumber, numbers[0]), numbers[1..], byNumber)
  }

  /** The `for c in candidate_map[first]` loop of `_subsequences`, over what is
      left of the bucket. */
  function Extend(prev: Option<Candidate>, bucket: seq<Candidate>, rest: seq<int>, byNumber: map<int, seq<Candidate>>): seq<seq<Candidate>>
    decreases |rest| + 1, 0, |bucket|
  {
    if bucket == [] then []
    else
      var c := bucket[0];
      (if prev.None? || c.lineIndex > prev.value.lineIndex then PrependAll(c, Subsequences(Some(c), rest, byNumber)) else [])
      + Extend(prev, bucket[1..], rest, byNumber)
  }

  /** `s` picks, for each number of `numbers` in turn, a candidate from that
      number's bucket, each on a later line than the one before it and than `prev`. */
  ghost predicate Choice(prev: Option<Candidate>, numbers: seq<int>, byNumber: map<int, seq<Candidate>>, s: seq<Candidate>)
  {
    && |s| == |numbers|
    && (forall k :: 0 <= k < |s| ==> s[k] in Bucket(byNumber, numbers[k]))
    && LinesIncrease(s)
    && (prev.Some? && |s| > 0 ==> prev.value.lineIndex < s[0].lineIndex)
  }

  /** A choice is its first pick followed by a choice for the remaining numbers. */
  lemma ChoiceUnfolds(prev: Option<Candidate>, numbers: seq<int>, byNumber: map<int, seq<Candidate>>, s: seq<Candidate>)
    requires |numbers| > 0
    ensures Choice(prev, numbers, byNumber, s) <==>
      |s| > 0 && s[0] in Bucket(byNumber, numbers[0]) && (prev.None? || prev.value.lineIndex < s[0].lineIndex)
      && Choice(Some(s[0]), numbers[1..], byNumber, s[1..])
  {
    if |s| > 0 && s[0] in Bucket(byNumber, numbers[0]) && (prev.None? || prev.value.lineIndex < s[0].lineIndex)
       && Choice(Some(s[0]), numbers[1..], byNumber, s[1..]) {
      forall k | 0 <= k < |s|
        ensures s[k] in Bucket(byNumber, numbers[k])
      {
        if k > 0 { assert s[1..][k - 1] == s[k]; }
      }
      forall k | 0 < k < |s|
        ensures s[k - 1].lineIndex < s[k].lineIndex
      {
        if k > 1 { assert s[1..][k - 2] == s[k - 1]; }
      }
    }
    if Choice(prev, numbers, byNumber, s) {
      assert |s| > 0;
      var t := s[1..];
      forall k | 0 <= k < |t|
        ensures t[k] in Bucket(byNumber, numbers[1..][k])
      {
        assert t[k] == s[k + 1];
      }
      forall k | 0 < k < |t|
        ensures t[k - 1].lineIndex < t[k].lineIndex
      {
        assert t[k - 1] == s[k] && t[k] == s[k + 1];
      }
    }
  }

  /** The bucket loop yields exactly the sequences that start with an acceptable
      candidate of the bucket and go on with a choice for the rest. */
  lemma {:induction false} ExtendExactly(prev: Option<Candidate>, bucket: seq<Candidate>, rest: seq<int>,
                                         byNumber: map<int, seq<Candidate>>, s: seq<Candidate>)
    ensures s in Extend(prev, bucket, rest, byNumber) <==>
      |s| > 0 && s[0] in bucket && (prev.None? || prev.value.lineIndex < s[0].lineIndex)
      && Choice(Some(s[0]), rest, byNumber, s[1..])
    decreases |rest| + 1, 0, |bucket|
  {
    if bucket != [] {
      var c := bucket[0];
      var here := if prev.None? || c.lineIndex > prev.value.lineIndex then PrependAll(c, Subsequences(Some(c), rest, byNumber)) else [];
      assert Extend(prev, bucket, rest, byNumber) == here + Extend(prev, bucket[1..], rest, byNumber);
      ExtendExactly(prev, bucket[1..], rest, byNumber, s);
      if |s| > 0 {
        SubsequencesExactly(Some(c), rest, byNumber, s[1..]);
        if s in here {
          var k :| 0 <= k < |here| && here[k] == s;
          assert s[1..] == Subsequences(Some(c), rest, byNumber)[k];
        }
        if s[0] == c && (prev.None? || prev.value.lineIndex < c.lineIndex) && Choice(Some(c), rest, byNumber, s[1..]) {
          var tails := Subsequences(Some(c), rest, byNumber);
          var k :| 0 <= k < |tails| && tails[k] == s[1..];
          assert here[k] == s;
        }
        assert s[0] in bucket <==> s[0] == c || s[0] in bucket[1..];
      } else {
        assert forall k :: 0 <= k < |here| ==> |here[k]| > 0;
      }
    }
  }

  /** `_subsequences` generates exactly the choices. */
  lemma {:induction false} SubsequencesExactly(prev: Option<Candidate>, numbers: seq<int>,
                                               byNumber: map<int, seq<Candidate>>, s: seq<Candidate>)
    ensures s in Subsequences(prev, numbers, byNumber) <==> Choice(prev, numbers, byNumber, s)
    decreases |numbers|, 1, 0
  {
    if numbers != [] {
      ExtendExactly(prev, Bucket(byNumber, numbers[0]), numbers[1..], byNumber, s);
      ChoiceUnfolds(prev, numbers, byNumber, s);
    }
  }

  /** `sequences` holds exactly the line-ordered ways to pick one candidate of
      `candidates` per number of `numbers`, element k carrying number
      `numbers[k]`. */
  ghost predicate Enumerates(sequences: seq<seq<Candidate>>, numbers: seq<int>, candidates: seq<Candidate>)
  {
    forall s: seq<Candidate> :: s in sequences <==>
      |s| == |numbers| && LinesIncrease(s)
      && forall k :: 0 <= k < |s| ==> s[k] in candidates && s[k].number == numbers[k]
  }

  /** `candidate_sequences(sequence, candidates)`. */
  method CandidateSequences(numbers: seq<int>, candidates: seq<Candidate>) returns (sequences: seq<seq<Candidate>>)
    ensures Enumerates(sequences, numbers, candidates)
  {
    var byNumber := GroupByNumber(candidates);
    sequences := Subsequences(None, numbers, byNumber);
    forall s: seq<Candidate>
      ensures s in sequences <==>
        |s| == |numbers| && LinesIncrease(s)
        && forall k :: 0 <= k < |s| ==> s[k] in candidates && s[k].number == numbers[k]
    {
      SubsequencesExactly(None, numbers, byNumber, s);
    }
  }
}
