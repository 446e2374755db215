/**
 * `make_page_number_sequence` and `process_page_numbers` of
 * filterpagenumbers.py: the two passes of the page-number pipeline and the
 * rendering of the result.
 */
module PageNumbers {
  import opened Wrappers
  import opened Text
  import opened Candidates
  import opened Lis
  import opened Enumeration
  import opened Estimation
  import opened Selection
  import opened Repair

  /** `[c.number for c in candidates]`. */
  function Numbers(candidates: seq<Candidate>): (r: seq<int>)
    ensures |r| == |candidates| && forall k :: 0 <= k < |r| ==> r[k] == candidates[k].number
  {
    seq(|candidates|, k requires 0 <= k < |candidates| => candidates[k].number)
  }

  /** `[c for c in candidates if c.number in keep]`. */
  function OnNumbers(candidates: seq<Candidate>, keep: set<int>): (r: seq<Candidate>)
    ensures forall c :: c in r <==> c in candidates && c.number in keep
  {
    if candidates == [] then []
    else
      var last := candidates[|candidates| - 1];
      OnNumbers(candidates[..|candidates| - 1], keep) + (if last.number in keep then [last] else [])
  }

  /** The result of `make_page_number_sequence`. */
  datatype Selected = Selected(sequence: seq<Candidate>, pageLength: real)

  /** Some strictly increasing pair of page numbers appears, in order. */
  ghost predicate HasRisingPair(numbers: seq<int>)
  {
    exists idx :: IncreasingRun(numbers, idx) && |idx| >= 2
  }

  /** The positions the longest increasing subsequence was picked from form an
      increasing run. */
  lemma PickedRun(numbers: seq<int>, idx: seq<int>, lis: seq<int>)
    requires Picks(numbers, idx, lis) && StrictlyIncreasing(lis)
    ensures IncreasingRun(numbers, idx)
  {
  }

  /** The candidates at the picked positions spell `lis` and, when the
      candidates are in line order, form one of the enumerated sequences. */
  lemma SpelledChoice(candidates: seq<Candidate>, idx: seq<int>, lis: seq<int>) returns (spelled: seq<Candidate>)
    requires Picks(Numbers(candidates), idx, lis) && LinesOrdered(candidates)
    ensures |spelled| == |lis| && LinesIncrease(spelled)
    ensures forall k :: 0 <= k < |spelled| ==> spelled[k] in OnNumbers(candidates, set x | x in lis) && spelled[k].number == lis[k]
  {
    var numbers := Numbers(candidates);
    spelled := seq(|lis|, k requires 0 <= k < |lis| => candidates[idx[k]]);
    forall k | 0 <= k < |spelled|
      ensures spelled[k] in OnNumbers(candidates, set x | x in lis) && spelled[k].number == lis[k]
    {
      assert candidates[idx[k]].number == numbers[idx[k]] == lis[k];
    }
    forall k | 0 < k < |spelled|
      ensures spelled[k - 1].lineIndex < spelled[k].lineIndex
    {
      assert idx[k - 1] < idx[k];
    }
  }

  /** The enumerated sequences of a strictly increasing `lis` of two or more
      numbers are what `estimate_page_length` accepts, and run forward. */
  lemma EnumeratedEstimable(lis: seq<int>, kept: seq<Candidate>, sequences: seq<seq<Candidate>>)
    requires StrictlyIncreasing(lis) && |lis| >= 2 && |sequences| > 0
    requires forall s: seq<Candidate> :: s in sequences ==>
      |s| == |lis| && LinesIncrease(s) && forall k :: 0 <= k < |s| ==> s[k] in kept && s[k].number == lis[k]
    ensures Estimable(sequences)
    ensures forall j :: 0 <= j < |sequences| ==> LinesIncrease(sequences[j])
    ensures forall j, c :: 0 <= j < |sequences| && c in sequences[j] ==> c in kept
  {
    forall j | 0 <= j < |sequences|
      ensures |sequences[j]| >= 2 && NumbersIncrease(sequences[j]) && LinesIncrease(sequences[j])
    {
      var s := sequences[j];
      assert s in sequences;
      forall k | 0 < k < |s|
        ensures s[k - 1].number < s[k].number
      {
        assert s[k - 1].number == lis[k - 1] && s[k].number == lis[k];
      }
    }
  }

  /** `[trim_sequence(s, page_length, args) for s in sequences]`. */
  function TrimAll(sequences: seq<seq<Candidate>>, pageLength: real, maxGap: int): (r: seq<seq<Candidate>>)
    requires forall j :: 0 <= j < |sequences| ==> NumbersIncrease(sequences[j])
    ensures |r| == |sequences|
    ensures forall j :: 0 <= j < |r| ==> r[j] == TrimSequence(sequences[j], pageLength, maxGap)
  {
    seq(|sequences|, j requires 0 <= j < |sequences| => TrimSequence(sequences[j], pageLength, maxGap))
  }

  /** What the second half of `make_page_number_sequence` picks from
      `sequences`: the page length estimated from all of them, and a trimmed
      sequence that no other trimmed sequence outscores at that length. */
  ghost predicate BestTrimmed(sequences: seq<seq<Candidate>>, maxGap: int, r: Selected)
    requires Estimable(sequences)
  {
    var trimmed := TrimAll(sequences, r.pageLength, maxGap);
    && r.pageLength == PageLengthEstimate(sequences) && r.pageLength != 0.0
    && r.sequence in trimmed && NumbersIncrease(r.sequence)
    && forall j :: 0 <= j < |trimmed| ==> Score(trimmed[j], r.pageLength) <= Score(r.sequence, r.pageLength)
  }

  /** The second half of `make_page_number_sequence`: estimate the page
      length, trim every sequence and keep the best scoring one. */
  method SelectAmong(sequences: seq<seq<Candidate>>, pool: seq<Candidate>, maxGap: int) returns (r: Selected)
    requires Estimable(sequences)
    requires forall j :: 0 <= j < |sequences| ==> LinesIncrease(sequences[j])
    requires forall j, c :: 0 <= j < |sequences| && c in sequences[j] ==> c in pool
    ensures BestTrimmed(sequences, maxGap, r)
    ensures var s := r.sequence;
      && |s| > 0 && (forall c :: c in s ==> c in pool)
      && NumbersIncrease(s) && LinesIncrease(s)
      && r.pageLength > 0.0 && AllPlausible(s, r.pageLength, maxGap)
  {
    var pageLength := EstimatePageLength(sequences);
    EstimatePositive(sequences);
    var trimmed := TrimAll(sequences, pageLength, maxGap);
    var best := SelectBestSequence(trimmed, pageLength);
    ghost var j :| 0 <= j < |trimmed| && trimmed[j] == best;
    r := Selected(best, pageLength);
    TrimmedShape(sequences, pool, maxGap, r, j);
    BestOfTrimmed(sequences, maxGap, r, trimmed);
  }

  lemma BestOfTrimmed(sequences: seq<seq<Candidate>>, maxGap: int, r: Selected, trimmed: seq<seq<Candidate>>)
    requires Estimable(sequences) && r.pageLength == PageLengthEstimate(sequences) && r.pageLength != 0.0
    requires trimmed == TrimAll(sequences, r.pageLength, maxGap)
    requires r.sequence in trimmed && NumbersIncrease(r.sequence)
    requires forall j :: 0 <= j < |trimmed| ==> NumbersIncrease(trimmed[j])
    requires forall j :: 0 <= j < |trimmed| ==> Score(trimmed[j], r.pageLength) <= Score(r.sequence, r.pageLength)
    ensures BestTrimmed(sequences, maxGap, r)
  {
  }

  /** The trimmed sequence at `j` is a non-empty run of `sequences[j]`, so it is
      made of the pool, increasing in numbers and lines, and every pair is
      plausible. */
  lemma TrimmedShape(sequences: seq<seq<Candidate>>, pool: seq<Candidate>, maxGap: int, r: Selected, j: nat)
    requires Estimable(sequences) && j < |sequences|
    requires LinesIncrease(sequences[j])
    requires forall c :: c in sequences[j] ==> c in pool
    requires r.pageLength > 0.0 && r.sequence == TrimAll(sequences, r.pageLength, maxGap)[j]
    ensures var s := r.sequence;
      && |s| > 0 && (forall c :: c in s ==> c in pool)
      && NumbersIncrease(s) && LinesIncrease(s)
      && r.pageLength > 0.0 && AllPlausible(s, r.pageLength, maxGap)
  {
  }

  /** `lis` is a longest strictly increasing subsequence of `numbers`. */
  ghost predicate Longest(numbers: seq<int>, lis: seq<int>)
  {
    && StrictlyIncreasing(lis) && IsSubsequence(lis, numbers)
    && forall idx :: IncreasingRun(numbers, idx) ==> |idx| <= |lis|
  }

  /** `r` is what `make_page_number_sequence(candidates, args)` returns: for a
      longest increasing run of the numbers, the candidates on those numbers
      are enumerated into line-ordered sequences, and `r` is the best of them
      once trimmed. */
  ghost predicate MadeFrom(candidates: seq<Candidate>, maxGap: int, r: Selected)
  {
    exists lis, sequences ::
      && Longest(Numbers(candidates), lis)
      && Enumerates(sequences, lis, OnNumbers(candidates, set x | x in lis))
      && Estimable(sequences) && BestTrimmed(sequences, maxGap, r)
  }

  /** `make_page_number_sequence(candidates, args)`. When the longest increasing
      run of numbers is shorter than two, or when no line-ordered choice of
      candidates spells it, the source's `median` raises `StatisticsError`; that
      is `None` here. */
  method MakePageNumberSequence(candidates: seq<Candidate>, maxGap: int) returns (r: Option<Selected>)
    ensures r.Some? ==> MadeFrom(candidates, maxGap, r.value)
    ensures r.Some? ==> var s := r.value.sequence;
      && |s| > 0 && (forall c :: c in s ==> c in candidates)
      && NumbersIncrease(s) && LinesIncrease(s)
      && r.value.pageLength > 0.0 && AllPlausible(s, r.value.pageLength, maxGap)
    ensures !HasRisingPair(Numbers(candidates)) ==> r.None?
    ensures LinesOrdered(candidates) && HasRisingPair(Numbers(candidates)) ==> r.Some?
  {
    var numbers := Numbers(candidates);
    var lis := LongestIncreasingSubsequence(numbers);
    var kept := OnNumbers(candidates, set x | x in lis);
    var sequences := CandidateSequences(lis, kept);
    ghost var idx :| Picks(numbers, idx, lis);
    PickedRun(numbers, idx, lis);
    if LinesOrdered(candidates) && HasRisingPair(numbers) {
      var spelled := SpelledChoice(candidates, idx, lis);
      assert spelled in sequences;
    }
    if |lis| < 2 || |sequences| == 0 {
      return None;
    }
    EnumeratedEstimable(lis, kept, sequences);
    var selected := SelectAmong(sequences, kept, maxGap);
    assert Longest(numbers, lis) && Enumerates(sequences, lis, kept);
    return Some(selected);
  }

  // ---------------------------------------------------------------------------
  // The output of process_page_numbers

  /** `{c.line_index: c for c in sequence}`: a later candidate on the same line
      replaces an earlier one. */
  function ByLineIndex(s: seq<Candidate>): (r: map<nat, Candidate>)
    ensures forall i :: i in r ==> r[i] in s && r[i].lineIndex == i
    ensures forall c :: c in s ==> c.lineIndex in r
  {
    if s == [] then map[]
    else ByLineIndex(s[..|s| - 1])[s[|s| - 1].lineIndex := s[|s| - 1]]
  }

  lemma {:induction false} LinesApart(s: seq<Candidate>, j: nat, k: nat)
    requires LinesIncrease(s) && j < k < |s|
    ensures s[j].lineIndex < s[k].lineIndex
    decreases k - j
  {
    if j + 1 < k {
      LinesApart(s, j + 1, k);
    }
  }

  /** When the candidates are on increasing lines, the map finds each of them at
      its own line and holds nothing else. */
  lemma ByLineIndexOfIncreasing(s: seq<Candidate>)
    requires LinesIncrease(s)
    ensures forall k :: 0 <= k < |s| ==> ByLineIndex(s)[s[k].lineIndex] == s[k]
    ensures |ByLineIndex(s)| == |s|
  {
    var m := ByLineIndex(s);
    forall k | 0 <= k < |s|
      ensures m[s[k].lineIndex] == s[k]
    {
      var c := m[s[k].lineIndex];
      var j :| 0 <= j < |s| && s[j] == c;
      if j < k {
        LinesApart(s, j, k);
      } else if k < j {
        LinesApart(s, k, j);
      }
    }
    var keys := set k | 0 <= k < |s| :: s[k].lineIndex;
    assert m.Keys == keys;
    DistinctImage(s, |s|);
  }

  lemma {:induction false} DistinctImage(s: seq<Candidate>, n: nat)
    requires LinesIncrease(s) && n <= |s|
    ensures |set k | 0 <= k < n :: s[k].lineIndex| == n
  {
    if n > 0 {
      DistinctImage(s, n - 1);
      var before := set k | 0 <= k < n - 1 :: s[k].lineIndex;
      forall k | 0 <= k < n - 1
        ensures s[k].lineIndex != s[n - 1].lineIndex
      {
        LinesApart(s, k, n - 1);
      }
      assert (set k | 0 <= k < n :: s[k].lineIndex) == before + {s[n - 1].lineIndex};
    }
  }

  /** Every candidate of the map has a span inside its own line. */
  ghost predicate SpansValid(byLine: map<nat, Candidate>)
  {
    forall i :: i in byLine ==> ValidSpan(byLine[i])
  }

  /** What the output loop prints for line `i`: the marked line in mark mode, the
      line with its page number cut out unless that leaves it empty, or the line
      itself when no candidate is on it. */
  function RenderedLine(lines: seq<string>, byLine: map<nat, Candidate>, mark: bool, i: nat): (r: seq<string>)
    requires i < |lines| && SpansValid(byLine)
  {
    if i !in byLine then [lines[i]]
    else if mark then [MarkedLine(byLine[i], PageNumberTag)]
    else
      match LineWithoutPageNumber(byLine[i])
      case Some(stripped) => if stripped != "" then [stripped] else []
      case None => []
  }

  /** Everything the output loop prints for the first `n` lines. */
  function Rendered(lines: seq<string>, byLine: map<nat, Candidate>, mark: bool, n: nat): (r: seq<string>)
    requires n <= |lines| && SpansValid(byLine)
  {
    if n == 0 then [] else Rendered(lines, byLine, mark, n - 1) + RenderedLine(lines, byLine, mark, n - 1)
  }

  /** The lines no candidate is on, in order. */
  function Untouched(lines: seq<string>, byLine: map<nat, Candidate>, n: nat): (r: seq<string>)
    requires n <= |lines|
  {
    if n == 0 then []
    else if n - 1 in byLine then Untouched(lines, byLine, n - 1)
    else Untouched(lines, byLine, n - 1) + [lines[n - 1]]
  }

  /** In mark mode every line is printed once, marked when a candidate is on it. */
  lemma {:induction false} MarkKeepsLines(lines: seq<string>, byLine: map<nat, Candidate>, n: nat)
    requires n <= |lines| && SpansValid(byLine)
    ensures var r := Rendered(lines, byLine, true, n);
      |r| == n
      && forall i :: 0 <= i < n ==>
        r[i] == if i in byLine then MarkedLine(byLine[i], PageNumberTag) else lines[i]
  {
    if n > 0 {
      MarkKeepsLines(lines, byLine, n - 1);
      var before := Rendered(lines, byLine, true, n - 1);
      var line := if n - 1 in byLine then MarkedLine(byLine[n - 1], PageNumberTag) else lines[n - 1];
      assert RenderedLine(lines, byLine, true, n - 1) == [line];
      var r := Rendered(lines, byLine, true, n);
      assert r == before + [line];
      forall i | 0 <= i < n
        ensures r[i] == if i in byLine then MarkedLine(byLine[i], PageNumberTag) else lines[i]
      {
        if i < n - 1 {
          assert r[i] == before[i];
        }
      }
    }
  }

  /** Without marking no more lines are printed than read, and when every
      candidate is a whole line, exactly the lines without a candidate are. */
  lemma {:induction false} StripDropsPageLines(lines: seq<string>, byLine: map<nat, Candidate>, n: nat)
    requires n <= |lines| && SpansValid(byLine)
    ensures |Rendered(lines, byLine, false, n)| <= n
    ensures (forall i :: i in byLine ==> byLine[i].span.None?) ==>
      Rendered(lines, byLine, false, n) == Untouched(lines, byLine, n)
  {
    if n > 0 {
      StripDropsPageLines(lines, byLine, n - 1);
    }
  }

  /** The output loop of `process_page_numbers`. */
  method RenderLines(lines: seq<string>, byLine: map<nat, Candidate>, mark: bool) returns (output: seq<string>)
    requires SpansValid(byLine)
    ensures output == Rendered(lines, byLine, mark, |lines|)
  {
    output := [];
    for i := 0 to |lines|
      invariant output == Rendered(lines, byLine, mark, i)
    {
      if i in byLine {
        var c := byLine[i];
        if mark {
          output := output + [MarkedLine(c, PageNumberTag)];
        } else {
          var stripped := LineWithoutPageNumber(c);
          if stripped.Some? && stripped.value != "" {
            output := output + [stripped.value];
          }
        }
      } else {
        output := output + [lines[i]];
      }
    }
  }

  /** A small page with two lines that are page numbers by themselves: without
      marking they are dropped... */
  lemma PageStripExample()
    ensures var lines := ["intro", "1", "body", "2", "end"];
      var m := map[1 := Candidate(1, "1", 1, None), 3 := Candidate(2, "2", 3, None)];
      Rendered(lines, m, false, |lines|) == ["intro", "body", "end"]
  {
    var lines := ["intro", "1", "body", "2", "end"];
    var m := map[1 := Candidate(1, "1", 1, None), 3 := Candidate(2, "2", 3, None)];
    assert RenderedLine(lines, m, false, 1) == [] && RenderedLine(lines, m, false, 3) == [];
    assert Rendered(lines, m, false, 2) == ["intro"];
    assert Rendered(lines, m, false, 4) == ["intro", "body"];
  }

  /** ...and with marking they are wrapped in tags. */
  lemma PageMarkExample()
    ensures var lines := ["intro", "1", "body", "2", "end"];
      var m := map[1 := Candidate(1, "1", 1, None), 3 := Candidate(2, "2", 3, None)];
      Rendered(lines, m, true, |lines|)
      == ["intro", "<pagenumber>1</pagenumber>", "body", "<pagenumber>2</pagenumber>", "end"]
  {
    var lines := ["intro", "1", "body", "2", "end"];
    var m := map[1 := Candidate(1, "1", 1, None), 3 := Candidate(2, "2", 3, None)];
    MarkedExampleLine(lines, m, 1, "1", "<pagenumber>1</pagenumber>");
    MarkedExampleLine(lines, m, 3, "2", "<pagenumber>2</pagenumber>");
    assert Rendered(lines, m, true, 2) == ["intro", "<pagenumber>1</pagenumber>"];
    assert Rendered(lines, m, true, 4) == ["intro", "<pagenumber>1</pagenumber>", "body", "<pagenumber>2</pagenumber>"];
  }

  lemma MarkedExampleLine(lines: seq<string>, m: map<nat, Candidate>, i: nat, line: string, marked: string)
    requires i < |lines| && SpansValid(m) && i in m && m[i].line == line && m[i].span.None?
    requires marked == "<pagenumber>" + line + "</pagenumber>"
    ensures RenderedLine(lines, m, true, i) == [marked]
  {
    assert OpenTag(PageNumberTag) == "<pagenumber>" && CloseTag(PageNumberTag) == "</pagenumber>";
  }

  /** A number found by the looser pattern at the start of a line of text is
      cut out of it without marking... */
  lemma SpanStripExample()
    ensures var lines := ["text", "12 Chapter"];
      var m := map[1 := Candidate(12, "12 Chapter", 1, Some(Span(0, 2)))];
      Rendered(lines, m, false, |lines|) == ["text", " Chapter"]
  {
    var line := "12 Chapter";
    assert line[..0] + line[2..] == " Chapter";
  }

  /** ...and tagged in place with marking. */
  lemma SpanMarkExample()
    ensures var lines := ["text", "12 Chapter"];
      var m := map[1 := Candidate(12, "12 Chapter", 1, Some(Span(0, 2)))];
      Rendered(lines, m, true, |lines|) == ["text", "<pagenumber>12</pagenumber> Chapter"]
  {
    var lines := ["text", "12 Chapter"];
    var c := Candidate(12, "12 Chapter", 1, Some(Span(0, 2)));
    var m := map[1 := c];
    SpanMarkedLine(c);
    assert m[1] == c;
    assert RenderedLine(lines, m, true, 1) == ["<pagenumber>12</pagenumber> Chapter"];
    assert Rendered(lines, m, true, 1) == ["text"];
  }

  lemma SpanMarkedLine(c: Candidate)
    requires c == Candidate(12, "12 Chapter", 1, Some(Span(0, 2)))
    ensures ValidSpan(c) && MarkedLine(c, PageNumberTag) == "<pagenumber>12</pagenumber> Chapter"
  {
    var line := "12 Chapter";
    assert line[..0] == [] && line[0..2] == "12" && line[2..] == " Chapter";
    var open, close := OpenTag(PageNumberTag), CloseTag(PageNumberTag);
    assert open == "<pagenumber>" && close == "</pagenumber>";
    var head := [] + open + "12";
    assert head == "<pagenumber>12";
    var tagged := head + close;
    assert tagged == "<pagenumber>12</pagenumber>";
    assert tagged + " Chapter" == "<pagenumber>12</pagenumber> Chapter";
  }

  // ---------------------------------------------------------------------------
  // process_page_numbers

  /** Two lines, the second after the first, that are page numbers by
      themselves, the second number larger. */
  ghost predicate RisingPageLines(lines: seq<string>)
  {
    exists i, j :: 0 <= i < j < |lines| && PageNumberOfLine(lines[i]).Some? && PageNumberOfLine(lines[j]).Some?
      && PageNumberOfLine(lines[i]).value < PageNumberOfLine(lines[j]).value
  }

  /** The candidates of the first pass hold a rising pair exactly when the lines
      do. */
  lemma RisingCandidates(lines: seq<string>, candidates: seq<Candidate>)
    requires forall c :: c in candidates ==> OfLines(c, lines) && PageNumberOfLine(c.line) == Some(c.number)
    requires LinesOrdered(candidates)
    requires forall i :: 0 <= i < |lines| && PageNumberOfLine(lines[i]).Some? ==>
      exists c :: c in candidates && c.lineIndex == i
    ensures HasRisingPair(Numbers(candidates)) <==> RisingPageLines(lines)
  {
    if HasRisingPair(Numbers(candidates)) {
      RisingPairOnLines(lines, candidates);
    }
    if RisingPageLines(lines) {
      RisingLinesPair(lines, candidates);
    }
  }

  lemma RisingPairOnLines(lines: seq<string>, candidates: seq<Candidate>)
    requires forall c :: c in candidates ==> OfLines(c, lines) && PageNumberOfLine(c.line) == Some(c.number)
    requires LinesOrdered(candidates)
    requires HasRisingPair(Numbers(candidates))
    ensures RisingPageLines(lines)
  {
    var numbers := Numbers(candidates);
    var idx :| IncreasingRun(numbers, idx) && |idx| >= 2;
    var c0, c1 := candidates[idx[0]], candidates[idx[1]];
    assert c0 in candidates && c1 in candidates;
    assert numbers[idx[0]] < numbers[idx[1]];
    assert PageNumberOfLine(lines[c0.lineIndex]).Some? && PageNumberOfLine(lines[c1.lineIndex]).Some?;
  }

  lemma RisingLinesPair(lines: seq<string>, candidates: seq<Candidate>)
    requires forall c :: c in candidates ==> OfLines(c, lines) && PageNumberOfLine(c.line) == Some(c.number)
    requires LinesOrdered(candidates)
    requires forall i :: 0 <= i < |lines| && PageNumberOfLine(lines[i]).Some? ==>
      exists c :: c in candidates && c.lineIndex == i
    requires RisingPageLines(lines)
    ensures HasRisingPair(Numbers(candidates))
  {
    var i, j :| 0 <= i < j < |lines| && PageNumberOfLine(lines[i]).Some? && PageNumberOfLine(lines[j]).Some?
      && PageNumberOfLine(lines[i]).value < PageNumberOfLine(lines[j]).value;
    var ci :| ci in candidates && ci.lineIndex == i;
    var cj :| cj in candidates && cj.lineIndex == j;
    assert ci.number < cj.number by {
      assert OfLines(ci, lines) && OfLines(cj, lines);
    }
    OrderedPair(candidates, ci, cj);
  }

  lemma OrderedPair(candidates: seq<Candidate>, ci: Candidate, cj: Candidate)
    requires LinesOrdered(candidates) && ci in candidates && cj in candidates
    requires ci.lineIndex < cj.lineIndex && ci.number < cj.number
    ensures HasRisingPair(Numbers(candidates))
  {
    var numbers := Numbers(candidates);
    var p :| 0 <= p < |candidates| && candidates[p] == ci;
    var q :| 0 <= q < |candidates| && candidates[q] == cj;
    assert p < q;
    var idx := [p, q];
    assert numbers[idx[0]] < numbers[idx[1]];
    assert IncreasingRun(numbers, idx);
  }

  /** Two or more candidates with increasing numbers hold a rising pair. */
  lemma IncreasingRises(s: seq<Candidate>)
    requires NumbersIncrease(s) && |s| >= 2
    ensures HasRisingPair(Numbers(s))
  {
    var idx := [0, 1];
    assert IncreasingRun(Numbers(s), idx);
  }

  /** A page-number sequence `process_page_numbers` can print: on increasing
      lines of the text with increasing numbers, every candidate a match of a
      page-number pattern on its own line, and every span inside its line. */
  ghost predicate Final(s: seq<Candidate>, lines: seq<string>)
  {
    && |s| > 0 && NumbersIncrease(s) && LinesIncrease(s)
    && forall c :: c in s ==> OfLines(c, lines) && ValidSpan(c) && Matched(c)
  }

  /** `s` is the sequence the two passes of `process_page_numbers` select: the
      first pass on the candidates of the lines, then the second pass on its
      result once repaired. */
  ghost predicate SelectedTwice(lines: seq<string>, maxGap: int, s: seq<Candidate>)
  {
    exists candidates, first ::
      && CandidatesOf(lines, candidates) && MadeFrom(candidates, maxGap, first)
      && WithinLines(first.sequence, lines)
      && exists second :: MadeFrom(Repaired(first.sequence, lines, first.pageLength, maxGap), maxGap, second)
                          && second.sequence == s
  }

  /** A first pass of `process_page_numbers` leaves the second pass nothing to
      select: it picked a single candidate, so the second pass sees no rising
      pair, or repairing it inserted the missing numbers of a gap out of line
      order, so no line-ordered choice spells the second pass's numbers. */
  ghost predicate SecondPassFails(lines: seq<string>, maxGap: int)
  {
    exists candidates, first ::
      && CandidatesOf(lines, candidates) && MadeFrom(candidates, maxGap, first)
      && WithinLines(first.sequence, lines)
      && (|first.sequence| < 2 || !LinesOrdered(Repaired(first.sequence, lines, first.pageLength, maxGap)))
  }

  /** The output is what the output loop prints for a final sequence. */
  ghost predicate PrintsFor(output: seq<string>, lines: seq<string>, mark: bool, s: seq<Candidate>)
    requires Final(s, lines)
  {
    SpansValid(ByLineIndex(s)) && output == Rendered(lines, ByLineIndex(s), mark, |lines|)
  }

  /** The first pass picks candidates of the lines, so they lie on the lines. */
  lemma FirstWithinLines(lines: seq<string>, candidates: seq<Candidate>, sequence: seq<Candidate>)
    requires CandidatesOf(lines, candidates) && forall c :: c in sequence ==> c in candidates
    ensures WithinLines(sequence, lines)
  {
    forall k | 0 <= k < |sequence|
      ensures sequence[k].lineIndex < |lines|
    {
      assert sequence[k] in candidates;
    }
  }

  /** What the second pass picks from the repaired first pass is final: a
      candidate is either one of the first pass, a whole page-number line, or
      one the repair found. */
  lemma SecondIsFinal(lines: seq<string>, candidates: seq<Candidate>, sequence: seq<Candidate>,
                      pageLength: real, maxGap: int, s: seq<Candidate>)
    requires CandidatesOf(lines, candidates) && forall c :: c in sequence ==> c in candidates
    requires WithinLines(sequence, lines) && NumbersIncrease(sequence)
    requires |s| > 0 && NumbersIncrease(s) && LinesIncrease(s)
    requires forall c :: c in s ==> c in Repaired(sequence, lines, pageLength, maxGap)
    ensures Final(s, lines)
  {
    RepairFacts(sequence, lines, pageLength, maxGap);
    forall c | c in s
      ensures OfLines(c, lines) && ValidSpan(c) && Matched(c)
    {
      if c in sequence {
        assert c in candidates;
      }
    }
  }

  /** When the second pass on the repaired first pass finds nothing, the first
      pass is a witness of `SecondPassFails`. */
  lemma SecondFails(lines: seq<string>, maxGap: int, candidates: seq<Candidate>, first: Selected)
    requires CandidatesOf(lines, candidates) && MadeFrom(candidates, maxGap, first)
    requires WithinLines(first.sequence, lines) && NumbersIncrease(first.sequence)
    requires !HasRisingPair(Numbers(Repaired(first.sequence, lines, first.pageLength, maxGap)))
             || !LinesOrdered(Repaired(first.sequence, lines, first.pageLength, maxGap))
    ensures SecondPassFails(lines, maxGap)
  {
    var repaired := Repaired(first.sequence, lines, first.pageLength, maxGap);
    RepairFacts(first.sequence, lines, first.pageLength, maxGap);
    if |first.sequence| >= 2 {
      RepairedLength(first.sequence, lines, first.pageLength, maxGap);
      IncreasingRises(repaired);
    }
  }

  /** The two passes chain into what `SelectedTwice` describes. */
  lemma TwoPasses(lines: seq<string>, maxGap: int, candidates: seq<Candidate>, first: Selected, second: Selected)
    requires CandidatesOf(lines, candidates) && MadeFrom(candidates, maxGap, first)
    requires WithinLines(first.sequence, lines)
    requires MadeFrom(Repaired(first.sequence, lines, first.pageLength, maxGap), maxGap, second)
    ensures SelectedTwice(lines, maxGap, second.sequence)
  {
  }

  /** The output loop of `process_page_numbers` on a final sequence. */
  method PrintSequence(lines: seq<string>, s: seq<Candidate>, mark: bool) returns (printed: seq<string>)
    requires Final(s, lines)
    ensures PrintsFor(printed, lines, mark, s)
    ensures |printed| <= |lines|
    ensures mark ==> |printed| == |lines|
  {
    var byLine := ByLineIndex(s);
    printed := RenderLines(lines, byLine, mark);
    StripDropsPageLines(lines, byLine, |lines|);
    MarkKeepsLines(lines, byLine, |lines|);
  }

  /** The two passes of `process_page_numbers`: candidates, the first pass,
      repair with the looser pattern and the second pass. `None` stands for the
      `StatisticsError` in either pass. */
  method SelectPageNumbers(lines: seq<string>, maxGap: int) returns (r: Option<seq<Candidate>>)
    ensures !RisingPageLines(lines) ==> r.None?
    ensures r.None? ==> !RisingPageLines(lines) || SecondPassFails(lines, maxGap)
    ensures r.Some? ==> SelectedTwice(lines, maxGap, r.value) && Final(r.value, lines)
  {
    var candidates := PageNumberCandidates(lines);
    RisingCandidates(lines, candidates);
    var first := MakePageNumberSequence(candidates, maxGap);
    if first.None? {
      return None;
    }
    var sequence := first.value.sequence;
    FirstWithinLines(lines, candidates, sequence);
    var repaired := RepairSequence(sequence, lines, first.value.pageLength, maxGap);
    var second := MakePageNumberSequence(repaired, maxGap);
    if second.None? {
      SecondFails(lines, maxGap, candidates, first.value);
      return None;
    }
    SecondIsFinal(lines, candidates, sequence, first.value.pageLength, maxGap, second.value.sequence);
    TwoPasses(lines, maxGap, candidates, first.value, second.value);
    return Some(second.value.sequence);
  }

  /** `process_page_numbers` on the lines of one text: the two passes and the
      output loop. `None` stands for the `StatisticsError` in either pass. */
  method ProcessPageNumbers(lines: seq<string>, maxGap: int, mark: bool) returns (output: Option<seq<string>>)
    ensures !RisingPageLines(lines) ==> output.None?
    ensures output.None? ==> !RisingPageLines(lines) || SecondPassFails(lines, maxGap)
    ensures output.Some? ==> exists s :: SelectedTwice(lines, maxGap, s) && Final(s, lines) && PrintsFor(output.value, lines, mark, s)
    ensures output.Some? ==> |output.value| <= |lines|
    ensures output.Some? && mark ==> |output.value| == |lines|
  {
    var selected := SelectPageNumbers(lines, maxGap);
    if selected.None? {
      return None;
    }
    var printed := PrintSequence(lines, selected.value, mark);
    return Some(printed);
  }
}
