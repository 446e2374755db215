/**
 * `longest_increasing_subsequence` of filterpagenumbers.py: the O(n log n)
 * algorithm that keeps, for every length, the position of the smallest last
 * element of a strictly increasing subsequence of that length, finds where each
 * new element goes by binary search, and rebuilds the answer by following
 * predecessor links backwards.
 */
module Lis {

  predicate StrictlyIncreasing(r: seq<int>)
  {
    forall t :: 0 < t < |r| ==> r[t - 1] < r[t]
  }

  /** `idx` lists positions below `n` in increasing order. */
  ghost predicate IncreasingIndices(idx: seq<int>, n: int)
  {
    (forall t :: 0 <= t < |idx| ==> 0 <= idx[t] < n)
    && (forall t :: 0 < t < |idx| ==> idx[t - 1] < idx[t])
  }

  /** `idx` picks a strictly increasing subsequence of `s`. */
  ghost predicate IncreasingRun(s: seq<int>, idx: seq<int>)
  {
    IncreasingIndices(idx, |s|) && forall t :: 0 < t < |idx| ==> s[idx[t - 1]] < s[idx[t]]
  }

  /** `r` is what `s` holds at the positions `idx`. */
  ghost predicate Picks(s: seq<int>, idx: seq<int>, r: seq<int>)
  {
    IncreasingIndices(idx, |s|) && |idx| == |r| && forall t :: 0 <= t < |r| ==> r[t] == s[idx[t]]
  }

  ghost predicate IsSubsequence(r: seq<int>, s: seq<int>)
  {
    exists idx :: Picks(s, idx, r)
  }

  /** If every step up in value is a step up in `lens`, an increasing run of
      length m ends at a position whose `lens` is at least m. */
  lemma {:induction false} RunEndsHigh(s: seq<int>, lens: seq<int>, idx: seq<int>)
    requires |lens| == |s|
    requires forall p :: 0 <= p < |s| ==> 1 <= lens[p]
    requires forall p, e :: 0 <= p < e < |s| && s[p] < s[e] ==> lens[p] < lens[e]
    requires IncreasingRun(s, idx) && |idx| > 0
    ensures lens[idx[|idx| - 1]] >= |idx|
  {
    if |idx| > 1 {
      var shorter := idx[..|idx| - 1];
      assert IncreasingRun(s, shorter);
      RunEndsHigh(s, lens, shorter);
      assert shorter[|shorter| - 1] == idx[|idx| - 2];
    }
  }

  /** `tails[k]`, for every length k up to maxLen, is a position before i whose
      subsequence has length k. */
  ghost predicate TailsHaveLength(tails: seq<nat>, lens: seq<int>, maxLen: nat, i: nat)
    requires |tails| > maxLen && |lens| == i
  {
    forall k :: 1 <= k <= maxLen ==> tails[k] < i && lens[tails[k]] == k
  }

  /** The values at the tails strictly increase with the length. */
  ghost predicate TailsIncrease(s: seq<int>, tails: seq<nat>, maxLen: nat)
    requires |tails| > maxLen && forall k :: 1 <= k <= maxLen ==> tails[k] < |s|
  {
    forall j, k :: 1 <= j < k <= maxLen ==> s[tails[j]] < s[tails[k]]
  }

  /** No subsequence built so far ends lower than the tail for its length. */
  ghost predicate TailsAreLowest(s: seq<int>, tails: seq<nat>, lens: seq<int>, maxLen: nat)
    requires |lens| <= |s| && |tails| > maxLen && forall k :: 1 <= k <= maxLen ==> tails[k] < |s|
  {
    && (forall p :: 0 <= p < |lens| ==> 1 <= lens[p] <= maxLen)
    && (forall p, k {:trigger lens[p], tails[k]} :: 0 <= p < |lens| && 1 <= k <= maxLen && lens[p] == k ==>
          s[tails[k]] <= s[p])
  }

  /** Following `pred` from p steps to an earlier, smaller element one shorter. */
  ghost predicate PredecessorLinks(s: seq<int>, pred: seq<nat>, lens: seq<int>)
    requires |lens| <= |pred| <= |s|
  {
    forall p {:trigger pred[p]} :: 0 <= p < |lens| && lens[p] > 1 ==>
      pred[p] < p && s[pred[p]] < s[p] && lens[pred[p]] == lens[p] - 1
  }

  /** A later, larger element has a longer subsequence. */
  ghost predicate LensRise(s: seq<int>, lens: seq<int>)
    requires |lens| <= |s|
  {
    forall p, e :: 0 <= p < e < |lens| && s[p] < s[e] ==> lens[p] < lens[e]
  }

  /** What the main loop keeps after handling `s[..i]`: `tails[k]` (1 <= k <= maxLen)
      is the position of the lowest last element of a strictly increasing
      subsequence of length k found so far, and `lens[p]` is the length of the
      subsequence that the `pred` links build backwards from position p. */
  ghost predicate TailsInv(s: seq<int>, tails: seq<nat>, pred: seq<nat>, lens: seq<int>, maxLen: nat, i: nat)
  {
    && |tails| == |s| + 1 && |pred| == |s| && i <= |s| && maxLen <= i && |lens| == i
    && TailsHaveLength(tails, lens, maxLen, i)
    && TailsIncrease(s, tails, maxLen)
    && TailsAreLowest(s, tails, lens, maxLen)
    && PredecessorLinks(s, pred, lens)
    && LensRise(s, lens)
  }

  /** Placing `s[i]` at length `lo`, where the binary search stopped, keeps the invariant. */
  lemma StepKeepsTails(s: seq<int>, tails: seq<nat>, pred: seq<nat>, lens: seq<int>, maxLen: nat, i: nat, lo: nat)
    requires TailsInv(s, tails, pred, lens, maxLen, i) && i < |s|
    requires 1 <= lo <= maxLen + 1
    requires forall j :: 1 <= j < lo ==> s[tails[j]] < s[i]
    requires forall j :: lo <= j <= maxLen ==> s[i] <= s[tails[j]]
    ensures TailsInv(s, tails[lo := i], pred[i := tails[lo - 1]], lens + [lo], if lo > maxLen then lo else maxLen, i + 1)
  {
    var tails', pred', lens' := tails[lo := i], pred[i := tails[lo - 1]], lens + [lo];
    var maxLen' := if lo > maxLen then lo else maxLen;
    StepLengths(tails, lens, maxLen, i, lo);
    StepIncrease(s, tails, maxLen, i, lo);
    StepLowest(s, tails, lens, maxLen, i, lo);
    StepLinks(s, tails, pred, lens, maxLen, i, lo);
    StepRise(s, tails, lens, maxLen, i, lo);
  }

  lemma StepLengths(tails: seq<nat>, lens: seq<int>, maxLen: nat, i: nat, lo: nat)
    requires |tails| > maxLen + 1 && |lens| == i && 1 <= lo <= maxLen + 1
    requires TailsHaveLength(tails, lens, maxLen, i)
    ensures TailsHaveLength(tails[lo := i], lens + [lo], if lo > maxLen then lo else maxLen, i + 1)
  {
    var tails', lens' := tails[lo := i], lens + [lo];
    forall k | 1 <= k <= (if lo > maxLen then lo else maxLen)
      ensures tails'[k] < i + 1 && lens'[tails'[k]] == k
    {
      if k != lo {
        assert tails'[k] == tails[k];
        assert lens'[tails[k]] == lens[tails[k]];
      }
    }
  }

  lemma StepIncrease(s: seq<int>, tails: seq<nat>, maxLen: nat, i: nat, lo: nat)
    requires |tails| > maxLen + 1 && i < |s| && 1 <= lo <= maxLen + 1
    requires forall k :: 1 <= k <= maxLen ==> tails[k] < |s|
    requires TailsIncrease(s, tails, maxLen)
    requires forall j :: 1 <= j < lo ==> s[tails[j]] < s[i]
    requires forall j :: lo <= j <= maxLen ==> s[i] <= s[tails[j]]
    ensures TailsIncrease(s, tails[lo := i], if lo > maxLen then lo else maxLen)
  {
    var tails' := tails[lo := i];
    forall j, k | 1 <= j < k <= (if lo > maxLen then lo else maxLen)
      ensures s[tails'[j]] < s[tails'[k]]
    {
      if k == lo {
      } else if j == lo {
        assert s[i] <= s[tails[lo]];
      }
    }
  }

  lemma StepLowest(s: seq<int>, tails: seq<nat>, lens: seq<int>, maxLen: nat, i: nat, lo: nat)
    requires |tails| > maxLen + 1 && |lens| == i < |s| && 1 <= lo <= maxLen + 1
    requires forall k :: 1 <= k <= maxLen ==> tails[k] < |s|
    requires TailsAreLowest(s, tails, lens, maxLen)
    requires forall j :: lo <= j <= maxLen ==> s[i] <= s[tails[j]]
    ensures TailsAreLowest(s, tails[lo := i], lens + [lo], if lo > maxLen then lo else maxLen)
  {
    var tails', lens' := tails[lo := i], lens + [lo];
    var maxLen' := if lo > maxLen then lo else maxLen;
    forall p, k | 0 <= p < i + 1 && 1 <= k <= maxLen' && lens'[p] == k
      ensures s[tails'[k]] <= s[p]
    {
      if p < i {
        assert lens'[p] == lens[p];
        if k == lo {
          assert s[tails[lo]] <= s[p];
        } else {
          assert s[tails[k]] <= s[p];
        }
      }
    }
  }

  lemma StepLinks(s: seq<int>, tails: seq<nat>, pred: seq<nat>, lens: seq<int>, maxLen: nat, i: nat, lo: nat)
    requires |tails| > maxLen + 1 && |lens| == i < |pred| <= |s| && 1 <= lo <= maxLen + 1
    requires TailsHaveLength(tails, lens, maxLen, i)
    requires PredecessorLinks(s, pred, lens)
    requires forall j :: 1 <= j < lo ==> s[tails[j]] < s[i]
    ensures PredecessorLinks(s, pred[i := tails[lo - 1]], lens + [lo])
  {
    var pred', lens' := pred[i := tails[lo - 1]], lens + [lo];
    forall p | 0 <= p < i + 1 && lens'[p] > 1
      ensures pred'[p] < p && s[pred'[p]] < s[p] && lens'[pred'[p]] == lens'[p] - 1
    {
      if p < i {
        assert pred'[p] == pred[p];
        assert lens'[p] == lens[p];
      } else {
        assert tails[lo - 1] < i && lens[tails[lo - 1]] == lo - 1;
      }
    }
  }

  lemma StepRise(s: seq<int>, tails: seq<nat>, lens: seq<int>, maxLen: nat, i: nat, lo: nat)
    requires |tails| > maxLen + 1 && |lens| == i < |s| && 1 <= lo <= maxLen + 1
    requires forall k :: 1 <= k <= maxLen ==> tails[k] < |s|
    requires TailsAreLowest(s, tails, lens, maxLen) && LensRise(s, lens)
    requires forall j :: lo <= j <= maxLen ==> s[i] <= s[tails[j]]
    ensures LensRise(s, lens + [lo])
  {
    var lens' := lens + [lo];
    forall p, e | 0 <= p < e < i + 1 && s[p] < s[e]
      ensures lens'[p] < lens'[e]
    {
      assert lens'[p] == lens[p];
      if e < i {
        assert lens'[e] == lens[e];
      } else {
        assert s[tails[lens[p]]] <= s[p];
      }
    }
  }

  /** The binary search of `longest_increasing_subsequence`: the first length
      `lo` in `1..maxLen+1` whose tail is not below `x`, the tails being
      increasing. */
  method TailSearch(s: seq<int>, minIdx: array<nat>, maxLen: nat, x: int, ghost tails: seq<nat>) returns (lo: nat)
    requires tails == minIdx[..] && maxLen < |tails| && forall k :: 1 <= k <= maxLen ==> tails[k] < |s|
    requires TailsIncrease(s, tails, maxLen)
    ensures 1 <= lo <= maxLen + 1
    ensures forall j :: 1 <= j < lo ==> s[tails[j]] < x
    ensures forall j :: lo <= j <= maxLen ==> x <= s[tails[j]]
  {
    var hi := maxLen + 1;
    lo := 1;
    while lo < hi
      invariant 1 <= lo <= hi <= maxLen + 1
      invariant forall j :: 1 <= j < lo ==> s[tails[j]] < x
      invariant forall j :: hi <= j <= maxLen ==> x <= s[tails[j]]
    {
      var mid := lo + (hi - lo) / 2;
      assert tails[mid] == minIdx[mid];
      if s[minIdx[mid]] < x {
        lo := mid + 1;
      } else {
        hi := mid;
      }
    }
  }

  /** The main loop of `longest_increasing_subsequence`: fills `minIdx` (the tail
      positions by length) and `pred` (the predecessor links). */
  method BuildTails(s: seq<int>) returns (minIdx: array<nat>, pred: array<nat>, maxLen: nat, ghost lens: seq<int>)
    ensures fresh(minIdx) && fresh(pred)
    ensures TailsInv(s, minIdx[..], pred[..], lens, maxLen, |s|)
  {
    var n := |s|;
    minIdx := new nat[n + 1](_ => 0);
    pred := new nat[n](_ => 0);
    maxLen := 0;
    lens := [];
    for i := 0 to n
      invariant TailsInv(s, minIdx[..], pred[..], lens, maxLen, i)
    {
      // lo is one more than the length of the longest subsequence that s[i] extends
      ghost var tails, links := minIdx[..], pred[..];
      var newLen := TailSearch(s, minIdx, maxLen, s[i], tails);
      StepKeepsTails(s, tails, links, lens, maxLen, i, newLen);
      assert tails[newLen - 1] == minIdx[newLen - 1];
      pred[i] := minIdx[newLen - 1];
      minIdx[newLen] := i;
      assert minIdx[..] == tails[newLen := i];
      assert pred[..] == links[i := tails[newLen - 1]];
      if newLen > maxLen {
        maxLen := newLen;
      }
      lens := lens + [newLen];
    }
  }

  /** The reconstruction of `longest_increasing_subsequence`: following the
      predecessor links back from `last` gives a strictly increasing
      subsequence of `s` of length `maxLen`. */
  method FollowLinks(s: seq<int>, pred: array<nat>, ghost lens: seq<int>, maxLen: nat, last: nat) returns (lis: seq<int>)
    requires pred.Length == |s| && |lens| == |s| && PredecessorLinks(s, pred[..], lens)
    requires maxLen > 0 ==> last < |s| && lens[last] == maxLen
    ensures |lis| == maxLen && StrictlyIncreasing(lis) && IsSubsequence(lis, s)
  {
    ghost var links := pred[..];
    var out := new int[maxLen](_ => 0);
    var k: nat := last;
    ghost var idx: seq<int> := [];
    ghost var built: seq<int> := [];
    var i := maxLen;
    while i > 0
      modifies out
      invariant 0 <= i <= maxLen && |idx| == maxLen - i
      invariant IncreasingRun(s, idx) && Picks(s, idx, built) && out[i..] == built
      invariant i > 0 ==> k < |lens| && lens[k] == i
      invariant i > 0 && |idx| > 0 ==> k < idx[0] < |s| && s[k] < s[idx[0]]
    {
      i := i - 1;
      out[i] := s[k];
      assert out[i..] == [s[k]] + out[i + 1..];
      PrependLink(s, idx, built, k);
      idx := [k] + idx;
      built := [s[k]] + built;
      assert pred[k] == links[k];
      k := pred[k];
    }
    assert out[..] == out[0..];
    lis := out[..];
    PickedRunIncreases(s, idx, lis);
  }

  lemma PrependLink(s: seq<int>, idx: seq<int>, built: seq<int>, k: nat)
    requires IncreasingRun(s, idx) && Picks(s, idx, built) && k < |s|
    requires |idx| > 0 ==> k < idx[0] && s[k] < s[idx[0]]
    ensures IncreasingRun(s, [k] + idx) && Picks(s, [k] + idx, [s[k]] + built)
  {
    var idx', built' := [k] + idx, [s[k]] + built;
    forall t | 0 < t < |idx'|
      ensures idx'[t - 1] < idx'[t] && s[idx'[t - 1]] < s[idx'[t]]
    {
      if t > 1 {
        assert idx'[t - 1] == idx[t - 2] && idx'[t] == idx[t - 1];
      }
    }
    forall t | 0 <= t < |built'|
      ensures built'[t] == s[idx'[t]]
    {
      if t > 0 {
        assert built'[t] == built[t - 1];
      }
    }
  }

  /** The values picked along an increasing run strictly increase. */
  lemma PickedRunIncreases(s: seq<int>, idx: seq<int>, r: seq<int>)
    requires IncreasingRun(s, idx) && Picks(s, idx, r)
    ensures StrictlyIncreasing(r) && IsSubsequence(r, s)
  {
  }

  /** No strictly increasing subsequence is longer than the longest length the
      main loop found. */
  lemma NoRunLonger(s: seq<int>, tails: seq<nat>, pred: seq<nat>, lens: seq<int>, maxLen: nat)
    requires TailsInv(s, tails, pred, lens, maxLen, |s|)
    ensures forall idx :: IncreasingRun(s, idx) ==> |idx| <= maxLen
  {
    forall run | IncreasingRun(s, run)
      ensures |run| <= maxLen
    {
      if |run| > 0 {
        RunEndsHigh(s, lens, run);
      }
    }
  }

  /** `longest_increasing_subsequence(seq)`: a strictly increasing subsequence of
      `s` that no strictly increasing subsequence of `s` is longer than. */
  method LongestIncreasingSubsequence(s: seq<int>) returns (lis: seq<int>)
    ensures StrictlyIncreasing(lis)
    ensures IsSubsequence(lis, s)
    ensures forall idx :: IncreasingRun(s, idx) ==> |idx| <= |lis|
  {
    var minIdx, pred, maxLen, lens := BuildTails(s);
    assert maxLen > 0 ==> minIdx[..][maxLen] == minIdx[maxLen];
    lis := FollowLinks(s, pred, lens, maxLen, minIdx[maxLen]);
    NoRunLonger(s, minIdx[..], pred[..], lens, maxLen);
  }
}
