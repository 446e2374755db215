/**
 * `line_has_page_number`, `find_page_number` and `repair_sequence` of
 * filterpagenumbers.py: filling the gaps of a page-number sequence by searching,
 * with a looser pattern, the lines around where each missing number should be.
 */
module Repair {
  import opened Wrappers
  import opened Text
  import opened Candidates

  /** Python's `int()` of a float: truncation toward zero. */
  function Trunc(x: real): (r: int)
    ensures x >= 0.0 ==> r as real <= x < r as real + 1.0
    ensures x < 0.0 ==> r as real - 1.0 < x <= r as real
  {
    if x >= 0.0 then x.Floor else -((-x).Floor)
  }

  function Dist(j: int, start: int): nat
  {
    if j < start then start - j else j - start
  }

  /** The position of line `j` in the search order around `start`: `start` first,
      then `start-1`, `start+1`, `start-2`, `start+2`, and so on. */
  function Rank(j: int, start: int): nat
  {
    if j < start then 2 * (start - j) - 1 else 2 * (j - start)
  }

  /** `line_has_page_number(lines[j], number)` matches. */
  predicate HasNumber(lines: seq<string>, number: nat, j: int)
    requires 0 <= j < |lines|
  {
    LooseMatch(lines[j], number).Some?
  }

  /** How far the search can go before its loop condition fails. */
  function Reach(start: int, minLine: int, maxLine: int): int
  {
    if start - minLine > maxLine - start then start - minLine else maxLine - start
  }

  // ---------------------------------------------------------------------------
  // find_page_number, as the source has it

  /** What one run of the source's loop can come to: a line that matches, no
      match, or an index past the end of `lines` (Python's `IndexError`). */
  datatype Lookup = Hit(index: nat) | Miss | OutOfBounds(badIndex: int)

  /** `find_page_number` as written: the downward probe `start-d` is only checked
      against `min_line` and the upward probe `start+d` only against `max_line`,
      so when `start` lies outside `[min_line, max_line]` lines outside the window
      are probed. */
  function FindAsWritten(number: nat, start: int, minLine: int, maxLine: int, lines: seq<string>, d: nat): (r: Lookup)
    requires 0 <= minLine && 0 <= start
    decreases Reach(start, minLine, maxLine) + 1 - d
  {
    if !(start - d >= minLine || start + d <= maxLine) then Miss
    else
      var lower := start - d;
      var upper := start + d;
      if lower >= minLine && lower >= |lines| then OutOfBounds(lower)
      else if lower >= minLine && HasNumber(lines, number, lower) then Hit(lower)
      else if upper <= maxLine && upper >= |lines| then OutOfBounds(upper)
      else if upper <= maxLine && HasNumber(lines, number, upper) then Hit(upper)
      else FindAsWritten(number, start, minLine, maxLine, lines, d + 1)
  }

  // ---------------------------------------------------------------------------
  // find_page_number, searching only the window

  /** The search from distance `d` on, probing only lines inside
      `[minLine, maxLine]`. */
  function SearchFrom(number: nat, start: int, minLine: int, maxLine: int, lines: seq<string>, d: nat): (r: Option<nat>)
    requires 0 <= minLine && maxLine < |lines|
    ensures r.Some? ==> minLine <= r.value <= maxLine && HasNumber(lines, number, r.value)
    decreases Reach(start, minLine, maxLine) + 1 - d
  {
    if !(start - d >= minLine || start + d <= maxLine) then None
    else if minLine <= start - d <= maxLine && HasNumber(lines, number, start - d) then Some(start - d)
    else if minLine <= start + d <= maxLine && HasNumber(lines, number, start + d) then Some(start + d)
    else SearchFrom(number, start, minLine, maxLine, lines, d + 1)
  }

  /** The line `find_page_number(number, start, minLine, maxLine, lines)` finds. */
  function Search(number: nat, start: int, minLine: int, maxLine: int, lines: seq<string>): (r: Option<nat>)
    requires 0 <= minLine && maxLine < |lines|
  {
    SearchFrom(number, start, minLine, maxLine, lines, 0)
  }

  /** No line of the window at distance `d` or more from `start` that comes
      before `rank` in the search order matches. */
  ghost predicate NoHitBefore(number: nat, start: int, minLine: int, maxLine: int, lines: seq<string>, d: nat, rank: int)
    requires 0 <= minLine && maxLine < |lines|
  {
    forall j :: minLine <= j <= maxLine && Dist(j, start) >= d && Rank(j, start) < rank ==> !HasNumber(lines, number, j)
  }

  /** No line of the window at distance `d` or more from `start` matches. */
  ghost predicate NoHitFrom(number: nat, start: int, minLine: int, maxLine: int, lines: seq<string>, d: nat)
    requires 0 <= minLine && maxLine < |lines|
  {
    forall j :: minLine <= j <= maxLine && Dist(j, start) >= d ==> !HasNumber(lines, number, j)
  }

  lemma {:induction false} SearchFromFinds(number: nat, start: int, minLine: int, maxLine: int, lines: seq<string>, d: nat)
    requires 0 <= minLine && maxLine < |lines|
    ensures var r := SearchFrom(number, start, minLine, maxLine, lines, d);
      && (r.Some? ==> Dist(r.value, start) >= d && NoHitBefore(number, start, minLine, maxLine, lines, d, Rank(r.value, start)))
      && (r.None? ==> NoHitFrom(number, start, minLine, maxLine, lines, d))
    decreases Reach(start, minLine, maxLine) + 1 - d
  {
    if start - d >= minLine || start + d <= maxLine {
      if minLine <= start - d <= maxLine && HasNumber(lines, number, start - d) {
        LowerFirst(number, start, minLine, maxLine, lines, d);
      } else if minLine <= start + d <= maxLine && HasNumber(lines, number, start + d) {
        UpperNext(number, start, minLine, maxLine, lines, d);
      } else {
        SearchFromFinds(number, start, minLine, maxLine, lines, d + 1);
        MissAt(number, start, minLine, maxLine, lines, d);
      }
    }
  }

  /** Nothing at distance `d` or more comes before `start - d`. */
  lemma LowerFirst(number: nat, start: int, minLine: int, maxLine: int, lines: seq<string>, d: nat)
    requires 0 <= minLine && maxLine < |lines|
    ensures NoHitBefore(number, start, minLine, maxLine, lines, d, Rank(start - d, start))
  {
    forall j | Dist(j, start) >= d
      ensures Rank(j, start) >= Rank(start - d, start)
    {
    }
  }

  /** At distance `d` or more, only `start - d` comes before `start + d`. */
  lemma UpperNext(number: nat, start: int, minLine: int, maxLine: int, lines: seq<string>, d: nat)
    requires 0 <= minLine && maxLine < |lines|
    requires !(minLine <= start - d <= maxLine && HasNumber(lines, number, start - d))
    ensures NoHitBefore(number, start, minLine, maxLine, lines, d, Rank(start + d, start))
  {
    forall j | minLine <= j <= maxLine && Dist(j, start) >= d && Rank(j, start) < Rank(start + d, start)
      ensures !HasNumber(lines, number, j)
    {
      assert j == start - d;
    }
  }

  /** With neither line at distance `d` matching, what holds from `d + 1` on
      holds from `d` on. */
  lemma MissAt(number: nat, start: int, minLine: int, maxLine: int, lines: seq<string>, d: nat)
    requires 0 <= minLine && maxLine < |lines|
    requires !(minLine <= start - d <= maxLine && HasNumber(lines, number, start - d))
    requires !(minLine <= start + d <= maxLine && HasNumber(lines, number, start + d))
    ensures NoHitFrom(number, start, minLine, maxLine, lines, d + 1) ==> NoHitFrom(number, start, minLine, maxLine, lines, d)
    ensures forall rank :: NoHitBefore(number, start, minLine, maxLine, lines, d + 1, rank) ==>
      NoHitBefore(number, start, minLine, maxLine, lines, d, rank)
  {
    forall j | minLine <= j <= maxLine && Dist(j, start) == d
      ensures !HasNumber(lines, number, j)
    {
      assert j == start - d || j == start + d;
    }
  }

  /** The search finds the matching line of the window that comes first in the
      search order, and nothing exactly when no line of the window matches. */
  lemma SearchFinds(number: nat, start: int, minLine: int, maxLine: int, lines: seq<string>)
    requires 0 <= minLine && maxLine < |lines|
    ensures var r := Search(number, start, minLine, maxLine, lines);
      && (r.Some? ==> minLine <= r.value <= maxLine && HasNumber(lines, number, r.value))
      && (r.Some? ==> NoHitBefore(number, start, minLine, maxLine, lines, 0, Rank(r.value, start)))
      && (r.None? <==> NoHitFrom(number, start, minLine, maxLine, lines, 0))
  {
    SearchFromFinds(number, start, minLine, maxLine, lines, 0);
    var r := Search(number, start, minLine, maxLine, lines);
    if r.Some? {
      assert !NoHitFrom(number, start, minLine, maxLine, lines, 0) by {
        assert HasNumber(lines, number, r.value);
      }
    }
  }

  /** The candidate `find_page_number` makes of a matching line: the span of the
      match runs from the start of the line to the end of the number. */
  function FoundAt(number: nat, lines: seq<string>, i: nat): (c: Candidate)
    requires i < |lines| && HasNumber(lines, number, i)
    ensures OfLines(c, lines) && c.number == number && c.lineIndex == i && c.span.Some? && Matched(c)
  {
    Candidate(number, lines[i], i, Some(Span(0, LooseMatch(lines[i], number).value)))
  }

  /** One run of the loop of `find_page_number`: probe `start - d`, then
      `start + d`, each only when it lies in the window. */
  method ProbeAt(number: nat, start: int, minLine: int, maxLine: int, lines: seq<string>, d: nat) returns (found: Option<Candidate>)
    requires 0 <= minLine && maxLine < |lines| && (start - d >= minLine || start + d <= maxLine)
    ensures found.None? ==> SearchFrom(number, start, minLine, maxLine, lines, d) == SearchFrom(number, start, minLine, maxLine, lines, d + 1)
    ensures found.Some? ==>
      && SearchFrom(number, start, minLine, maxLine, lines, d).Some?
      && found.value == FoundAt(number, lines, SearchFrom(number, start, minLine, maxLine, lines, d).value)
  {
    var index := start - d;
    if minLine <= index <= maxLine {
      var hit := LooseMatch(lines[index], number);
      if hit.Some? {
        SearchHit(number, start, minLine, maxLine, lines, d, index, true);
        return Some(Candidate(number, lines[index], index, Some(Span(0, hit.value))));
      }
    }
    index := start + d;
    if minLine <= index <= maxLine {
      var hit := LooseMatch(lines[index], number);
      if hit.Some? {
        SearchHit(number, start, minLine, maxLine, lines, d, index, false);
        return Some(Candidate(number, lines[index], index, Some(Span(0, hit.value))));
      }
    }
    SearchMiss(number, start, minLine, maxLine, lines, d);
    return None;
  }

  /** `find_page_number`, searching the window only. */
  method FindPageNumber(number: nat, start: int, minLine: int, maxLine: int, lines: seq<string>) returns (found: Option<Candidate>)
    requires 0 <= minLine && maxLine < |lines|
    ensures found.None? <==> Search(number, start, minLine, maxLine, lines).None?
    ensures found.Some? ==> found.value == FoundAt(number, lines, Search(number, start, minLine, maxLine, lines).value)
  {
    ghost var result := Search(number, start, minLine, maxLine, lines);
    var distance: nat := 0;
    while start - distance >= minLine || start + distance <= maxLine
      invariant SearchFrom(number, start, minLine, maxLine, lines, distance) == result
      decreases Reach(start, minLine, maxLine) + 1 - distance
    {
      found := ProbeAt(number, start, minLine, maxLine, lines, distance);
      if found.Some? {
        return;
      }
      distance := distance + 1;
    }
    assert result == None;
    return None;
  }

  /** A match at distance `d`, below `start` or else above it, is what the
      search finds. */
  lemma SearchHit(number: nat, start: int, minLine: int, maxLine: int, lines: seq<string>, d: nat, index: int, lower: bool)
    requires 0 <= minLine && maxLine < |lines| && minLine <= index <= maxLine && HasNumber(lines, number, index)
    requires lower ==> index == start - d
    requires !lower ==> index == start + d && !(minLine <= start - d <= maxLine && HasNumber(lines, number, start - d))
    ensures SearchFrom(number, start, minLine, maxLine, lines, d) == Some(index)
  {
  }

  /** Without a match at distance `d` the search goes on at `d + 1`. */
  lemma SearchMiss(number: nat, start: int, minLine: int, maxLine: int, lines: seq<string>, d: nat)
    requires 0 <= minLine && maxLine < |lines| && (start - d >= minLine || start + d <= maxLine)
    requires !(minLine <= start - d <= maxLine && HasNumber(lines, number, start - d))
    requires !(minLine <= start + d <= maxLine && HasNumber(lines, number, start + d))
    ensures SearchFrom(number, start, minLine, maxLine, lines, d) == SearchFrom(number, start, minLine, maxLine, lines, d + 1)
  {
  }

  /** Twenty-one lines with number 3 alone on the last one, searched around line
      20 in the window `[10, 14]`: the source returns line 20, outside the window
      and past the next page number in the caller, where the window search finds
      nothing. Called directly with only fifteen lines, the source indexes past
      the end. */
  lemma AsWrittenLeavesWindow()
    ensures var lines := seq(21, i => if i == 20 then "3" else "");
      FindAsWritten(3, 20, 10, 14, lines, 0) == Hit(20) && Search(3, 20, 10, 14, lines).None?
    ensures FindAsWritten(3, 20, 10, 14, seq(15, i => ""), 0) == OutOfBounds(20)
  {
    var lines := seq(21, i => if i == 20 then "3" else "");
    assert Decimal(3) == "3";
    assert LooseMatch("3", 3) == Some(1);
    SearchFinds(3, 20, 10, 14, lines);
    forall j | 10 <= j <= 14
      ensures !HasNumber(lines, 3, j)
    {
      assert lines[j] == "";
    }
  }

  // ---------------------------------------------------------------------------
  // repair_sequence

  function RealMax(a: real, b: real): real { if b > a then b else a }

  function RealMin(a: real, b: real): real { if b < a then b else a }

  /** The arguments of `find_page_number` for a number missing between `prev`
      and `curr`. */
  datatype Window = Window(start: int, minLine: int, maxLine: int)

  /** The window for `number`: centred where `number` should be if every page
      were `pageLength` lines, one page either side, strictly between the lines
      of `prev` and `curr`. */
  function SearchWindow(prev: Candidate, curr: Candidate, number: int, pageLength: real): (w: Window)
    ensures w.minLine >= prev.lineIndex + 1
    ensures w.maxLine <= curr.lineIndex - 1
  {
    var diff := number - prev.number;
    var startLine := prev.lineIndex as real + diff as real * pageLength;
    var minLine := RealMax((prev.lineIndex + 1) as real, startLine - pageLength);
    var maxLine := RealMin((curr.lineIndex - 1) as real, startLine + pageLength);
    Window(Trunc(startLine), Trunc(minLine), Trunc(maxLine))
  }

  /** What the search for `number` adds to the repaired sequence. */
  function FoundFor(prev: Candidate, curr: Candidate, lines: seq<string>, pageLength: real, number: nat): (r: seq<Candidate>)
    requires curr.lineIndex < |lines|
    ensures |r| <= 1
    ensures forall c :: c in r ==>
      OfLines(c, lines) && ValidSpan(c) && Matched(c) && c.number == number && prev.lineIndex < c.lineIndex < curr.lineIndex
  {
    var w := SearchWindow(prev, curr, number, pageLength);
    var found := Search(number, w.start, w.minLine, w.maxLine, lines);
    if found.None? then [] else [FoundAt(number, lines, found.value)]
  }

  /** The candidates found for the missing numbers `prev.number + 1` up to (but not
      including) `upTo`, in that order. */
  function GapFill(prev: Candidate, curr: Candidate, lines: seq<string>, pageLength: real, upTo: int): seq<Candidate>
    requires curr.lineIndex < |lines|
    decreases upTo - prev.number
  {
    if upTo <= prev.number + 1 then []
    else
      var init := GapFill(prev, curr, lines, pageLength, upTo - 1);
      init + FoundFor(prev, curr, lines, pageLength, upTo - 1)
  }

  /** `len(missing)`: how many numbers lie strictly between the two. */
  function MissingCount(prev: Candidate, curr: Candidate): nat
  {
    if curr.number > prev.number + 1 then curr.number - prev.number - 1 else 0
  }

  /** What `repair_sequence` inserts between `prev` and `curr`: nothing when more
      than `maxGap` numbers are missing, otherwise what the searches find. */
  function Gap(prev: Candidate, curr: Candidate, lines: seq<string>, pageLength: real, maxGap: int): (r: seq<Candidate>)
    requires curr.lineIndex < |lines|
    ensures MissingCount(prev, curr) > maxGap ==> r == []
    ensures |r| <= MissingCount(prev, curr)
    ensures forall c :: c in r ==>
      OfLines(c, lines) && ValidSpan(c) && Matched(c)
      && prev.number < c.number < curr.number && prev.lineIndex < c.lineIndex < curr.lineIndex
    ensures NumbersIncrease(r)
  {
    if MissingCount(prev, curr) > maxGap then [] else
      GapFillFits(prev, curr, lines, pageLength, curr.number);
      GapFill(prev, curr, lines, pageLength, curr.number)
  }

  /** The gap search finds at most one candidate per missing number, each on a
      line of the text strictly between the two lines, with numbers rising. */
  lemma {:induction false} GapFillFits(prev: Candidate, curr: Candidate, lines: seq<string>, pageLength: real, upTo: int)
    requires curr.lineIndex < |lines|
    ensures FillFits(GapFill(prev, curr, lines, pageLength, upTo), prev, curr, lines, upTo)
    decreases upTo - prev.number
  {
    if upTo > prev.number + 1 {
      GapFillFits(prev, curr, lines, pageLength, upTo - 1);
      var init := GapFill(prev, curr, lines, pageLength, upTo - 1);
      var last := FoundFor(prev, curr, lines, pageLength, upTo - 1);
      assert GapFill(prev, curr, lines, pageLength, upTo) == init + last;
      FillFitsStep(init, last, prev, curr, lines, upTo);
    }
  }

  /** At most one candidate per missing number below `upTo`, each on a line of
      the text strictly between the two lines, with numbers rising. */
  ghost predicate FillFits(r: seq<Candidate>, prev: Candidate, curr: Candidate, lines: seq<string>, upTo: int)
  {
    && |r| <= (if upTo > prev.number + 1 then upTo - prev.number - 1 else 0)
    && (forall c :: c in r ==> OfLines(c, lines) && ValidSpan(c) && Matched(c) && prev.number < c.number < upTo
                               && prev.lineIndex < c.lineIndex < curr.lineIndex)
    && NumbersIncrease(r)
  }

  lemma FillFitsStep(init: seq<Candidate>, last: seq<Candidate>, prev: Candidate, curr: Candidate, lines: seq<string>, upTo: int)
    requires upTo > prev.number + 1 && FillFits(init, prev, curr, lines, upTo - 1)
    requires |last| <= 1
    requires forall c :: c in last ==>
      OfLines(c, lines) && ValidSpan(c) && Matched(c) && c.number == upTo - 1 && prev.lineIndex < c.lineIndex < curr.lineIndex
    ensures FillFits(init + last, prev, curr, lines, upTo)
  {
    if |init| > 0 && |last| > 0 {
      assert init[|init| - 1] in init && last[0] in last;
    }
    ConcatIncreases(init, last);
  }


  /** Every candidate of `s` lies within `lines`. */
  predicate WithinLines(s: seq<Candidate>, lines: seq<string>)
  {
    forall k :: 0 <= k < |s| ==> s[k].lineIndex < |lines|
  }

  /** The first `k` elements of `s`, each followed by its gap. */
  function Interleave(s: seq<Candidate>, gaps: seq<seq<Candidate>>, k: nat): seq<Candidate>
    requires k < |s| && |s| <= |gaps| + 1
  {
    if k == 0 then [] else Interleave(s, gaps, k - 1) + [s[k - 1]] + gaps[k - 1]
  }

  /** `s` with `gaps[k]` inserted between `s[k]` and `s[k+1]`. */
  function Assemble(s: seq<Candidate>, gaps: seq<seq<Candidate>>): seq<Candidate>
    requires |s| <= |gaps| + 1
  {
    if |s| < 2 then s else Interleave(s, gaps, |s| - 1) + [s[|s| - 1]]
  }

  /** Where `s[k]` ends up in `Assemble(s, gaps)`. */
  function Position(s: seq<Candidate>, gaps: seq<seq<Candidate>>, k: nat): nat
    requires k < |s| && |s| <= |gaps| + 1
  {
    |Interleave(s, gaps, k)|
  }

  lemma {:induction false} InterleavePrefix(s: seq<Candidate>, gaps: seq<seq<Candidate>>, j: nat, k: nat)
    requires j <= k < |s| && |s| <= |gaps| + 1
    ensures j < k ==> Interleave(s, gaps, j) + [s[j]] + gaps[j] <= Interleave(s, gaps, k)
    ensures Interleave(s, gaps, j) <= Interleave(s, gaps, k)
    decreases k
  {
    if j < k {
      InterleavePrefix(s, gaps, j, k - 1);
    }
  }

  lemma PrefixSlice(r: seq<Candidate>, u: seq<Candidate>, a: nat)
    requires |u| <= |r| && r[..|u|] == u
    requires a <= |u|
    ensures r[a..|u|] == u[a..]
  {
    assert forall i :: a <= i < |u| ==> r[i] == u[i];
  }

  /** `Assemble` keeps every element of `s`, in order, and holds between `s[k]`
      and `s[k+1]` exactly `gaps[k]`. */
  lemma AssembleLayout(s: seq<Candidate>, gaps: seq<seq<Candidate>>)
    requires |s| <= |gaps| + 1
    ensures forall k :: 0 <= k < |s| ==> Position(s, gaps, k) < |Assemble(s, gaps)| && Assemble(s, gaps)[Position(s, gaps, k)] == s[k]
    ensures forall j, k :: 0 <= j < k < |s| ==> Position(s, gaps, j) < Position(s, gaps, k)
    ensures forall k :: 0 <= k < |s| - 1 ==> Assemble(s, gaps)[Position(s, gaps, k) + 1..Position(s, gaps, k + 1)] == gaps[k]
  {
    forall k | 0 <= k < |s|
      ensures Position(s, gaps, k) < |Assemble(s, gaps)| && Assemble(s, gaps)[Position(s, gaps, k)] == s[k]
    {
      AssembleKeeps(s, gaps, k);
    }
    forall j, k | 0 <= j < k < |s|
      ensures Position(s, gaps, j) < Position(s, gaps, k)
    {
      InterleavePrefix(s, gaps, j, k);
    }
    forall k | 0 <= k < |s| - 1
      ensures Assemble(s, gaps)[Position(s, gaps, k) + 1..Position(s, gaps, k + 1)] == gaps[k]
    {
      AssembleGap(s, gaps, k);
    }
  }

  lemma AssembleKeeps(s: seq<Candidate>, gaps: seq<seq<Candidate>>, k: nat)
    requires k < |s| <= |gaps| + 1
    ensures Position(s, gaps, k) < |Assemble(s, gaps)| && Assemble(s, gaps)[Position(s, gaps, k)] == s[k]
  {
    if |s| >= 2 {
      var n := |s| - 1;
      var r := Assemble(s, gaps);
      assert r == Interleave(s, gaps, n) + [s[n]];
      if k < n {
        InterleavePrefix(s, gaps, k, n);
        var u := Interleave(s, gaps, k) + [s[k]] + gaps[k];
        assert u[Position(s, gaps, k)] == s[k];
        var whole := Interleave(s, gaps, n);
        assert whole == u + whole[|u|..];
        assert r == u + (whole[|u|..] + [s[n]]);
      }
    }
  }

  lemma AssembleGap(s: seq<Candidate>, gaps: seq<seq<Candidate>>, k: nat)
    requires k + 1 < |s| <= |gaps| + 1
    ensures Position(s, gaps, k) + 1 <= Position(s, gaps, k + 1) <= |Assemble(s, gaps)|
    ensures Assemble(s, gaps)[Position(s, gaps, k) + 1..Position(s, gaps, k + 1)] == gaps[k]
  {
    var n := |s| - 1;
    var r := Assemble(s, gaps);
    var upTo := Interleave(s, gaps, k + 1);
    InterleavePrefix(s, gaps, k + 1, n);
    var whole := Interleave(s, gaps, n);
    assert whole == upTo + whole[|upTo|..];
    assert r == upTo + (whole[|upTo|..] + [s[n]]);
    PrefixSlice(r, upTo, Position(s, gaps, k) + 1);
    assert upTo == (Interleave(s, gaps, k) + [s[k]]) + gaps[k];
  }

  /** Concatenating increasing runs that meet in order gives an increasing run. */
  lemma ConcatIncreases(a: seq<Candidate>, b: seq<Candidate>)
    requires NumbersIncrease(a) && NumbersIncrease(b)
    requires |a| > 0 && |b| > 0 ==> a[|a| - 1].number < b[0].number
    ensures NumbersIncrease(a + b)
  {
    forall k | 0 < k < |a + b|
      ensures (a + b)[k - 1].number < (a + b)[k].number
    {
      if k < |a| {
        assert (a + b)[k - 1] == a[k - 1] && (a + b)[k] == a[k];
      } else if k == |a| {
        assert (a + b)[k - 1] == a[k - 1] && (a + b)[k] == b[0];
      } else {
        assert (a + b)[k - 1] == b[k - 1 - |a|] && (a + b)[k] == b[k - |a|];
      }
    }
  }

  /** Each gap is an increasing run of numbers strictly between its neighbours. */
  ghost predicate GapsFit(s: seq<Candidate>, gaps: seq<seq<Candidate>>)
    requires |s| <= |gaps| + 1
  {
    forall k :: 0 <= k < |s| - 1 ==>
      (NumbersIncrease(gaps[k]) && forall c :: c in gaps[k] ==> s[k].number < c.number < s[k + 1].number)
  }

  lemma {:induction false} InterleaveIncreases(s: seq<Candidate>, gaps: seq<seq<Candidate>>, k: nat)
    requires k < |s| && |s| <= |gaps| + 1 && NumbersIncrease(s) && GapsFit(s, gaps)
    ensures NumbersIncrease(Interleave(s, gaps, k) + [s[k]])
  {
    if k > 0 {
      InterleaveIncreases(s, gaps, k - 1);
      var gap := gaps[k - 1];
      var head := Interleave(s, gaps, k - 1) + [s[k - 1]];
      assert Interleave(s, gaps, k) + [s[k]] == head + (gap + [s[k]]);
      if |gap| > 0 {
        assert gap[0] in gap && gap[|gap| - 1] in gap;
      }
      ConcatIncreases(gap, [s[k]]);
      ConcatIncreases(head, gap + [s[k]]);
    }
  }

  /** Inserting fitting gaps keeps the page numbers strictly increasing. */
  lemma AssembleIncreases(s: seq<Candidate>, gaps: seq<seq<Candidate>>)
    requires |s| <= |gaps| + 1 && NumbersIncrease(s) && GapsFit(s, gaps)
    ensures NumbersIncrease(Assemble(s, gaps))
  {
    if |s| >= 2 {
      InterleaveIncreases(s, gaps, |s| - 1);
    }
  }

  lemma {:induction false} InterleaveMembers(s: seq<Candidate>, gaps: seq<seq<Candidate>>, k: nat)
    requires k < |s| && |s| <= |gaps| + 1
    ensures forall c :: c in Interleave(s, gaps, k) ==> c in s || exists t :: 0 <= t < k && c in gaps[t]
  {
    if k > 0 {
      InterleaveMembers(s, gaps, k - 1);
    }
  }

  /** The gap after each adjacent pair of `s`. */
  function Gaps(s: seq<Candidate>, lines: seq<string>, pageLength: real, maxGap: int): (gaps: seq<seq<Candidate>>)
    requires WithinLines(s, lines)
    ensures |s| <= |gaps| + 1
  {
    seq(if |s| == 0 then 0 else |s| - 1, k requires 0 <= k < |s| - 1 => Gap(s[k], s[k + 1], lines, pageLength, maxGap))
  }

  lemma GapsAt(s: seq<Candidate>, lines: seq<string>, pageLength: real, maxGap: int, k: nat)
    requires WithinLines(s, lines) && k + 1 < |s|
    ensures Gaps(s, lines, pageLength, maxGap)[k] == Gap(s[k], s[k + 1], lines, pageLength, maxGap)
  {
  }

  /** What `repair_sequence(sequence, lines, page_length, args)` returns. */
  function Repaired(s: seq<Candidate>, lines: seq<string>, pageLength: real, maxGap: int): seq<Candidate>
    requires WithinLines(s, lines)
  {
    Assemble(s, Gaps(s, lines, pageLength, maxGap))
  }

  lemma AssembleMembers(s: seq<Candidate>, gaps: seq<seq<Candidate>>)
    requires |s| <= |gaps| + 1
    ensures forall c :: c in Assemble(s, gaps) ==> c in s || exists t :: 0 <= t < |s| - 1 && c in gaps[t]
  {
    if |s| >= 2 {
      InterleaveMembers(s, gaps, |s| - 1);
    }
  }

  lemma {:induction false} InterleaveLength(s: seq<Candidate>, gaps: seq<seq<Candidate>>, k: nat)
    requires k < |s| && |s| <= |gaps| + 1
    ensures |Interleave(s, gaps, k)| >= k
  {
    if k > 0 {
      InterleaveLength(s, gaps, k - 1);
    }
  }

  /** Repairing only inserts: the result is at least as long as the input. */
  lemma RepairedLength(s: seq<Candidate>, lines: seq<string>, pageLength: real, maxGap: int)
    requires WithinLines(s, lines)
    ensures |Repaired(s, lines, pageLength, maxGap)| >= |s|
  {
    if |s| >= 2 {
      InterleaveLength(s, Gaps(s, lines, pageLength, maxGap), |s| - 1);
    }
  }

  /** Every gap fits between its two neighbours and holds only candidates
      found on `lines`. */
  lemma GapsFacts(s: seq<Candidate>, lines: seq<string>, pageLength: real, maxGap: int)
    requires WithinLines(s, lines)
    ensures GapsFit(s, Gaps(s, lines, pageLength, maxGap))
    ensures forall k, c :: 0 <= k < |s| - 1 && c in Gaps(s, lines, pageLength, maxGap)[k] ==>
      OfLines(c, lines) && ValidSpan(c) && Matched(c)
  {
    var gaps := Gaps(s, lines, pageLength, maxGap);
    forall k | 0 <= k < |s| - 1
      ensures NumbersIncrease(gaps[k]) && forall c: Candidate :: c in gaps[k] ==> s[k].number < c.number < s[k + 1].number
      ensures forall c: Candidate :: c in gaps[k] ==> OfLines(c, lines) && ValidSpan(c) && Matched(c)
    {
      GapsAt(s, lines, pageLength, maxGap, k);
    }
  }

  /** Repairing keeps the candidates and their order, inserts between two of
      them only candidates whose numbers and lines lie strictly between theirs,
      keeps the numbers increasing, and adds only candidates found on `lines`. */
  lemma RepairFacts(s: seq<Candidate>, lines: seq<string>, pageLength: real, maxGap: int)
    requires WithinLines(s, lines) && NumbersIncrease(s)
    ensures NumbersIncrease(Repaired(s, lines, pageLength, maxGap))
    ensures |s| < 2 ==> Repaired(s, lines, pageLength, maxGap) == s
    ensures forall c :: c in Repaired(s, lines, pageLength, maxGap) ==> c in s || (OfLines(c, lines) && ValidSpan(c) && Matched(c))
  {
    var gaps := Gaps(s, lines, pageLength, maxGap);
    GapsFacts(s, lines, pageLength, maxGap);
    AssembleIncreases(s, gaps);
    AssembleMembers(s, gaps);
    forall c | c in Assemble(s, gaps) && c !in s
      ensures OfLines(c, lines) && ValidSpan(c) && Matched(c)
    {
      var t :| 0 <= t < |s| - 1 && c in gaps[t];
      GapMemberFound(s, lines, pageLength, maxGap, t, c);
    }
  }

  /** A candidate of a gap was found on `lines`. */
  lemma GapMemberFound(s: seq<Candidate>, lines: seq<string>, pageLength: real, maxGap: int, t: nat, c: Candidate)
    requires WithinLines(s, lines) && t + 1 < |s| && c in Gaps(s, lines, pageLength, maxGap)[t]
    ensures OfLines(c, lines) && ValidSpan(c) && Matched(c)
  {
    GapsAt(s, lines, pageLength, maxGap, t);
  }

  /** One more search extends the gap by what it found. */
  lemma GapFillStep(prev: Candidate, curr: Candidate, lines: seq<string>, pageLength: real, number: nat, candidate: Option<Candidate>)
    requires curr.lineIndex < |lines| && prev.number < number
    requires var w := SearchWindow(prev, curr, number, pageLength);
      && (candidate.None? <==> Search(number, w.start, w.minLine, w.maxLine, lines).None?)
      && (candidate.Some? ==> candidate.value == FoundAt(number, lines, Search(number, w.start, w.minLine, w.maxLine, lines).value))
    ensures GapFill(prev, curr, lines, pageLength, number + 1)
      == GapFill(prev, curr, lines, pageLength, number) + (if candidate.Some? then [candidate.value] else [])
  {
  }

  /** The `for number in missing` loop of `repair_sequence`: the candidates
      found for the numbers strictly between `prev` and `curr`. */
  method SearchGap(prev: Candidate, curr: Candidate, lines: seq<string>, pageLength: real) returns (found: seq<Candidate>)
    requires curr.lineIndex < |lines|
    ensures found == GapFill(prev, curr, lines, pageLength, curr.number)
  {
    found := [];
    var number := prev.number + 1;
    while number < curr.number
      invariant prev.number + 1 <= number
      invariant number <= curr.number || number == prev.number + 1
      invariant found == GapFill(prev, curr, lines, pageLength, number)
    {
      var w := SearchWindow(prev, curr, number, pageLength);
      var candidate := FindPageNumber(number, w.start, w.minLine, w.maxLine, lines);
      GapFillStep(prev, curr, lines, pageLength, number, candidate);
      found := found + (if candidate.Some? then [candidate.value] else []);
      number := number + 1;
    }
  }

  /** `repair_sequence(sequence, lines, page_length, args)`. */
  method RepairSequence(sequence: seq<Candidate>, lines: seq<string>, pageLength: real, maxGap: int) returns (repaired: seq<Candidate>)
    requires WithinLines(sequence, lines)
    ensures repaired == Repaired(sequence, lines, pageLength, maxGap)
  {
    if |sequence| < 2 {
      return sequence;
    }
    ghost var gaps := Gaps(sequence, lines, pageLength, maxGap);
    repaired := [];
    for k := 1 to |sequence|
      invariant repaired == Interleave(sequence, gaps, k - 1)
    {
      var prev, curr := sequence[k - 1], sequence[k];
      GapsAt(sequence, lines, pageLength, maxGap, k - 1);
      repaired := repaired + [prev];
      if MissingCount(prev, curr) > maxGap {
        continue;
      }
      var found := SearchGap(prev, curr, lines, pageLength);
      repaired := repaired + found;
    }
    repaired := repaired + [sequence[|sequence| - 1]];
  }

  /** Page 1 on line 0 and page 4 on line 30, with "2" at the start of line 18
      and "3" at the start of line 12. */
  function ExampleText(): seq<string>
  {
    seq(31, i => if i == 0 then "1" else if i == 12 then "3 Methods"
                 else if i == 18 then "2 Results" else if i == 30 then "4" else "")
  }

  /** On `ExampleText` with ten lines per page, the windows of the two missing
      numbers, `[1, 20]` around line 10 and `[10, 29]` around line 20, overlap,
      and each search finds its number on the other's side: the repaired
      sequence puts 2 on line 18 before 3 on line 12, so its lines do not
      increase. */
  lemma RepairOutOfOrder()
    ensures var s := [Candidate(1, "1", 0, None), Candidate(4, "4", 30, None)];
      WithinLines(s, ExampleText())
      && Repaired(s, ExampleText(), 10.0, 2)
         == [s[0], Candidate(2, "2 Results", 18, Some(Span(0, 1))), Candidate(3, "3 Methods", 12, Some(Span(0, 1))), s[1]]
      && !LinesOrdered(Repaired(s, ExampleText(), 10.0, 2))
  {
    var prev, curr := Candidate(1, "1", 0, None), Candidate(4, "4", 30, None);
    var two, three := Candidate(2, "2 Results", 18, Some(Span(0, 1))), Candidate(3, "3 Methods", 12, Some(Span(0, 1)));
    ExampleGap();
    RepairedTwoMissing(prev, curr, two, three, ExampleText(), 10.0, 2);
    NotOrdered([prev, two, three, curr]);
  }

  lemma NotOrdered(r: seq<Candidate>)
    requires |r| > 2 && r[1].lineIndex > r[2].lineIndex
    ensures !LinesOrdered(r)
  {
  }

  /** Repairing two candidates puts their gap between them. */
  lemma RepairedPair(prev: Candidate, curr: Candidate, lines: seq<string>, pageLength: real, maxGap: int)
    requires prev.lineIndex < |lines| && curr.lineIndex < |lines|
    ensures WithinLines([prev, curr], lines)
    ensures Repaired([prev, curr], lines, pageLength, maxGap) == [prev] + Gap(prev, curr, lines, pageLength, maxGap) + [curr]
  {
    var s := [prev, curr];
    GapsAt(s, lines, pageLength, maxGap, 0);
    var gaps := Gaps(s, lines, pageLength, maxGap);
    assert Interleave(s, gaps, 1) == [] + [prev] + gaps[0];
  }

  /** Repairing two candidates whose gap holds two more puts those two between them. */
  lemma RepairedTwoMissing(prev: Candidate, curr: Candidate, a: Candidate, b: Candidate, lines: seq<string>, pageLength: real, maxGap: int)
    requires prev.lineIndex < |lines| && curr.lineIndex < |lines|
    requires Gap(prev, curr, lines, pageLength, maxGap) == [a, b]
    ensures WithinLines([prev, curr], lines)
    ensures Repaired([prev, curr], lines, pageLength, maxGap) == [prev, a, b, curr]
  {
    RepairedPair(prev, curr, lines, pageLength, maxGap);
  }

  /** The gap between pages 1 and 4 of `ExampleText`. */
  lemma ExampleGap()
    ensures Gap(Candidate(1, "1", 0, None), Candidate(4, "4", 30, None), ExampleText(), 10.0, 2)
      == [Candidate(2, "2 Results", 18, Some(Span(0, 1))), Candidate(3, "3 Methods", 12, Some(Span(0, 1)))]
  {
    var lines := ExampleText();
    var prev, curr := Candidate(1, "1", 0, None), Candidate(4, "4", 30, None);
    ExampleFinds(2, 18, 1, 20, 10);
    ExampleFinds(3, 12, 10, 29, 20);
    assert GapFill(prev, curr, lines, 10.0, 2) == [];
    assert GapFill(prev, curr, lines, 10.0, 4)
      == GapFill(prev, curr, lines, 10.0, 3) + FoundFor(prev, curr, lines, 10.0, 3);
  }

  /** The search for `number` between pages 1 and 4 of `ExampleText` finds it
      on line `at`. */
  lemma ExampleFinds(number: nat, at: nat, lo: nat, hi: nat, start: int)
    requires (number == 2 && at == 18 && lo == 1 && hi == 20 && start == 10)
          || (number == 3 && at == 12 && lo == 10 && hi == 29 && start == 20)
    ensures FoundFor(Candidate(1, "1", 0, None), Candidate(4, "4", 30, None), ExampleText(), 10.0, number)
      == [Candidate(number, ExampleText()[at], at, Some(Span(0, 1)))]
  {
    var prev, curr := Candidate(1, "1", 0, None), Candidate(4, "4", 30, None);
    assert SearchWindow(prev, curr, number, 10.0) == Window(start, lo, hi);
    OnlyMatch(ExampleText(), number, at, lo, hi);
  }

  /** In `ExampleText`, `number` is found in the window `[lo, hi]` only on line
      `at`, so the search finds it there. */
  lemma OnlyMatch(lines: seq<string>, number: nat, at: nat, lo: nat, hi: nat)
    requires lines == ExampleText()
    requires (number == 2 && at == 18 && lo == 1 && hi == 20) || (number == 3 && at == 12 && lo == 10 && hi == 29)
    ensures forall start :: Search(number, start, lo, hi, lines) == Some(at)
    ensures LooseMatch(lines[at], number) == Some(1)
  {
    assert Decimal(2) == "2" && Decimal(3) == "3";
    assert LooseMatch(lines[at], number) == Some(1);
    forall j | lo <= j <= hi && j != at
      ensures !HasNumber(lines, number, j)
    {
      assert lines[j] == "" || lines[j] == "3 Methods" || lines[j] == "2 Results";
    }
    forall start
      ensures Search(number, start, lo, hi, lines) == Some(at)
    {
      SearchFinds(number, start, lo, hi, lines);
      assert HasNumber(lines, number, at);
    }
  }
}
