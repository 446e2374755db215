/**
 * Page-number candidates (class `Candidate` of filterpagenumbers.py), the two
 * whole-line page-number patterns, the looser pattern used by gap repair, and
 * candidate extraction.
 */
module Candidates {
  import opened Wrappers
  import opened Text

  /** Character offsets `[start, end)` of a match inside its line. */
  datatype Span = Span(start: nat, end: nat)

  /** A place in the document where a number might be a page number. `span` is
      `None` when the whole line is the page number. */
  datatype Candidate = Candidate(number: nat, line: string, lineIndex: nat, span: Option<Span>)

  /** The tag that `marked_line` uses by default. */
  const PageNumberTag: string := "pagenumber"

  predicate ValidSpan(c: Candidate)
  {
    c.span.Some? ==> c.span.value.start <= c.span.value.end <= |c.line|
  }

  /** `c` denotes line `c.lineIndex` of `lines`, and its span lies inside that line. */
  predicate OfLines(c: Candidate, lines: seq<string>)
  {
    c.lineIndex < |lines| && lines[c.lineIndex] == c.line && ValidSpan(c)
  }

  /** `Candidate.marked_line`: the matched span, or the whole line, wrapped in tags. */
  function MarkedLine(c: Candidate, tag: string): (r: string)
    requires ValidSpan(c)
  {
    match c.span
    case None => OpenTag(tag) + c.line + CloseTag(tag)
    case Some(sp) =>
      c.line[..sp.start] + OpenTag(tag) + c.line[sp.start..sp.end] + CloseTag(tag) + c.line[sp.end..]
  }

  /** `Candidate.line_without_page_number`: the line with its span cut out, or
      `None` when the whole line is the page number. */
  function LineWithoutPageNumber(c: Candidate): (r: Option<string>)
    requires ValidSpan(c)
    ensures r.Some? <==> c.span.Some?
    ensures r.Some? ==> |r.value| == |c.line| - (c.span.value.end - c.span.value.start)
  {
    match c.span
    case None => None
    case Some(sp) => Some(c.line[..sp.start] + c.line[sp.end..])
  }

  /** Marking and stripping agree: deleting the tagged segment from the marked
      line leaves exactly the stripped line, and that segment is the span's text
      between the two tags. */
  lemma MarkThenStrip(c: Candidate, tag: string)
    requires ValidSpan(c) && c.span.Some?
    ensures var m := MarkedLine(c, tag);
            var sp := c.span.value;
            var cut := sp.start + |OpenTag(tag)| + (sp.end - sp.start) + |CloseTag(tag)|;
            cut <= |m|
            && m[sp.start..cut] == OpenTag(tag) + c.line[sp.start..sp.end] + CloseTag(tag)
            && m[..sp.start] + m[cut..] == LineWithoutPageNumber(c).value
  {
    var m := MarkedLine(c, tag);
    var sp := c.span.value;
    var pre, mid, post := c.line[..sp.start], c.line[sp.start..sp.end], c.line[sp.end..];
    var tagged := OpenTag(tag) + mid + CloseTag(tag);
    assert m == pre + tagged + post;
    var cut := sp.start + |tagged|;
    assert m[..sp.start] == pre;
    assert m[sp.start..cut] == tagged;
    assert m[cut..] == post;
  }

  // ---------------------------------------------------------------------------
  // NUMBER_ONLY_RE = ^\s*(\d+)\s*$

  /** The number matched by `NUMBER_ONLY_RE`, if the line matches. */
  function NumberOnly(line: string): (r: Option<nat>)
  {
    var i := SkipWhile(line, 0, IsSpace);
    var j := SkipWhile(line, i, IsDigit);
    if i < j && SkipWhile(line, j, IsSpace) == |line| then
      RunSlice(line, i, j, IsDigit);
      Some(DigitsValue(line[i..j]))
    else None
  }

  /** The line is blank space, a non-empty digit group of value `n`, blank space. */
  ghost predicate MatchesNumberOnly(line: string, n: nat)
  {
    exists i: nat, j: nat :: i < j <= |line| && Run(line, 0, i, IsSpace) && Run(line, i, j, IsDigit)
      && Run(line, j, |line|, IsSpace) && AllDigits(line[i..j]) && DigitsValue(line[i..j]) == n
  }

  /** The scanner recognises exactly what the regular expression describes. */
  lemma NumberOnlyMatches(line: string, n: nat)
    ensures NumberOnly(line) == Some(n) <==> MatchesNumberOnly(line, n)
  {
    var i := SkipWhile(line, 0, IsSpace);
    var j := SkipWhile(line, i, IsDigit);
    if NumberOnly(line) == Some(n) {
      RunSlice(line, i, j, IsDigit);
      assert Run(line, j, |line|, IsSpace);
    }
    if MatchesNumberOnly(line, n) {
      var i': nat, j': nat :| i' < j' <= |line| && Run(line, 0, i', IsSpace) && Run(line, i', j', IsDigit)
        && Run(line, j', |line|, IsSpace) && AllDigits(line[i'..j']) && DigitsValue(line[i'..j']) == n;
      SkipWhileUnique(line, 0, i', IsSpace);
      SkipWhileUnique(line, i', j', IsDigit);
      SkipWhileUnique(line, j', |line|, IsSpace);
    }
  }

  // ---------------------------------------------------------------------------
  // DASHED_NUMBER_RE = ^\s*-+\s*(\d+)\s*-+\s*$

  /** The number matched by `DASHED_NUMBER_RE`, if the line matches. */
  function DashedNumber(line: string): (r: Option<nat>)
  {
    var a := SkipWhile(line, 0, IsSpace);
    var b := SkipWhile(line, a, IsDash);
    var c := SkipWhile(line, b, IsSpace);
    var d := SkipWhile(line, c, IsDigit);
    var e := SkipWhile(line, d, IsSpace);
    var f := SkipWhile(line, e, IsDash);
    if a < b && c < d && e < f && SkipWhile(line, f, IsSpace) == |line| then
      RunSlice(line, c, d, IsDigit);
      Some(DigitsValue(line[c..d]))
    else None
  }

  /** `line[i..j]` is blank space, at least one dash, blank space: `\s*-+\s*`. */
  ghost predicate DashPadded(line: string, i: nat, j: nat)
    requires i <= j <= |line|
  {
    exists p: nat, q: nat :: i <= p < q <= j && Run(line, i, p, IsSpace) && Run(line, p, q, IsDash)
      && Run(line, q, j, IsSpace)
  }

  /** The line is a dash-padded prefix, a digit group of value `n`, a dash-padded suffix. */
  ghost predicate MatchesDashed(line: string, n: nat)
  {
    exists i: nat, j: nat :: i < j <= |line| && DashPadded(line, 0, i) && Run(line, i, j, IsDigit)
      && DashPadded(line, j, |line|) && AllDigits(line[i..j]) && DigitsValue(line[i..j]) == n
  }

  /** The scanner recognises exactly what the regular expression describes. */
  lemma DashedNumberMatches(line: string, n: nat)
    ensures DashedNumber(line) == Some(n) <==> MatchesDashed(line, n)
  {
    if DashedNumber(line) == Some(n) {
      var a := SkipWhile(line, 0, IsSpace);
      var b := SkipWhile(line, a, IsDash);
      var c := SkipWhile(line, b, IsSpace);
      var d := SkipWhile(line, c, IsDigit);
      var e := SkipWhile(line, d, IsSpace);
      var f := SkipWhile(line, e, IsDash);
      RunSlice(line, c, d, IsDigit);
      assert DashPadded(line, 0, c);
      assert DashPadded(line, d, |line|);
    }
    if MatchesDashed(line, n) {
      var i: nat, j: nat :| i < j <= |line| && DashPadded(line, 0, i) && Run(line, i, j, IsDigit)
        && DashPadded(line, j, |line|) && AllDigits(line[i..j]) && DigitsValue(line[i..j]) == n;
      var p: nat, q: nat :| 0 <= p < q <= i && Run(line, 0, p, IsSpace) && Run(line, p, q, IsDash)
        && Run(line, q, i, IsSpace);
      var p': nat, q': nat :| j <= p' < q' <= |line| && Run(line, j, p', IsSpace) && Run(line, p', q', IsDash)
        && Run(line, q', |line|, IsSpace);
      DashedScan(line, p, q, i, j, p', q');
    }
  }

  /** Where a greedy scan of a dashed page-number line stops, given any split of
      the line into the pieces the pattern names. */
  lemma DashedScan(line: string, p: nat, q: nat, i: nat, j: nat, p': nat, q': nat)
    requires p < q <= i < j <= p' < q' <= |line|
    requires Run(line, 0, p, IsSpace) && Run(line, p, q, IsDash) && Run(line, q, i, IsSpace)
    requires Run(line, i, j, IsDigit)
    requires Run(line, j, p', IsSpace) && Run(line, p', q', IsDash) && Run(line, q', |line|, IsSpace)
    ensures SkipWhile(line, 0, IsSpace) == p
    ensures SkipWhile(line, p, IsDash) == q
    ensures SkipWhile(line, q, IsSpace) == i
    ensures SkipWhile(line, i, IsDigit) == j
    ensures SkipWhile(line, j, IsSpace) == p'
    ensures SkipWhile(line, p', IsDash) == q'
    ensures SkipWhile(line, q', IsSpace) == |line|
  {
    assert IsDigit(line[i]);
    PaddingScan(line, 0, p, q, i);
    assert j < |line| ==> !IsDigit(line[j]) by {
      if j < p' { assert IsSpace(line[j]); } else { assert IsDash(line[j]); }
    }
    SkipWhileUnique(line, i, j, IsDigit);
    PaddingScan(line, j, p', q', |line|);
  }

  /** Where a greedy scan of `\s*-+\s*` over `line[from..to]` stops, when the
      character after it, if any, is neither blank nor a dash. */
  lemma PaddingScan(line: string, from: nat, p: nat, q: nat, to: nat)
    requires from <= p < q <= to <= |line|
    requires Run(line, from, p, IsSpace) && Run(line, p, q, IsDash) && Run(line, q, to, IsSpace)
    requires to < |line| ==> !IsSpace(line[to]) && !IsDash(line[to])
    ensures SkipWhile(line, from, IsSpace) == p
    ensures SkipWhile(line, p, IsDash) == q
    ensures SkipWhile(line, q, IsSpace) == to
  {
    assert IsDash(line[p]);
    SkipWhileUnique(line, from, p, IsSpace);
    assert q < |line| ==> !IsDash(line[q]) by {
      if q < to { assert IsSpace(line[q]); }
    }
    SkipWhileUnique(line, p, q, IsDash);
    SkipWhileUnique(line, q, to, IsSpace);
  }

  /** The `for regex in [NUMBER_ONLY_RE, DASHED_NUMBER_RE]` search of
      `page_number_candidates`: the first pattern that matches decides. */
  function PageNumberOfLine(line: string): (r: Option<nat>)
    ensures r.Some? <==> NumberOnly(line).Some? || DashedNumber(line).Some?
    ensures NumberOnly(line).Some? ==> r == NumberOnly(line)
  {
    match NumberOnly(line)
    case Some(n) => Some(n)
    case None => DashedNumber(line)
  }

  // ---------------------------------------------------------------------------
  // line_has_page_number: ^\s*(?:-+\s*)?(<number>)  searched from the start of the line

  /** The end of the match of `line_has_page_number(line, number)`, if any; the
      match always starts at offset 0. */
  function LooseMatch(line: string, number: nat): (r: Option<nat>)
    ensures r.Some? ==> |Decimal(number)| <= r.value <= |line|
  {
    var digits := Decimal(number);
    var a := SkipWhile(line, 0, IsSpace);
    var c := if a < |line| && IsDash(line[a]) then SkipWhile(line, SkipWhile(line, a, IsDash), IsSpace) else a;
    if c + |digits| <= |line| && line[c..c + |digits|] == digits then Some(c + |digits|) else None
  }

  /** `line[..c]` is blank space, optionally followed by dashes and blank space,
      and `str(number)` starts at offset `c`. */
  ghost predicate LooseMatchAt(line: string, number: nat, c: nat)
  {
    var digits := Decimal(number);
    c + |digits| <= |line| && (Run(line, 0, c, IsSpace) || DashPadded(line, 0, c))
    && line[c..c + |digits|] == digits
  }

  /** The scanner finds the one place where the regular expression matches. */
  lemma LooseMatchIff(line: string, number: nat, c: nat)
    ensures LooseMatchAt(line, number, c) <==> LooseMatch(line, number) == Some(c + |Decimal(number)|)
  {
    if LooseMatchAt(line, number, c) {
      LooseMatchFound(line, number, c);
    }
    if LooseMatch(line, number) == Some(c + |Decimal(number)|) {
      LooseMatchSound(line, number, c);
    }
  }

  lemma LooseMatchFound(line: string, number: nat, c: nat)
    requires LooseMatchAt(line, number, c)
    ensures LooseMatch(line, number) == Some(c + |Decimal(number)|)
  {
    var digits := Decimal(number);
    assert line[c] == digits[0];
    if Run(line, 0, c, IsSpace) {
      SkipWhileUnique(line, 0, c, IsSpace);
    } else {
      var p: nat, q: nat :| 0 <= p < q <= c && Run(line, 0, p, IsSpace) && Run(line, p, q, IsDash)
        && Run(line, q, c, IsSpace);
      SkipWhileUnique(line, 0, p, IsSpace);
      SkipWhileUnique(line, p, q, IsDash);
      SkipWhileUnique(line, q, c, IsSpace);
    }
  }

  lemma LooseMatchSound(line: string, number: nat, c: nat)
    requires LooseMatch(line, number) == Some(c + |Decimal(number)|)
    ensures LooseMatchAt(line, number, c)
  {
    var a := SkipWhile(line, 0, IsSpace);
    if a < |line| && IsDash(line[a]) {
      var b := SkipWhile(line, a, IsDash);
      assert DashPadded(line, 0, SkipWhile(line, b, IsSpace));
    }
  }

  /** Each candidate of `s` is on a later line than the one before it. */
  predicate LinesIncrease(s: seq<Candidate>)
  {
    forall k :: 0 < k < |s| ==> s[k - 1].lineIndex < s[k].lineIndex
  }

  /** Candidates of `s` that come later are on later lines. */
  predicate LinesOrdered(s: seq<Candidate>)
  {
    forall j, k :: 0 <= j < k < |s| ==> s[j].lineIndex < s[k].lineIndex
  }

  /** Each candidate of `s` carries a larger number than the one before it. */
  predicate NumbersIncrease(s: seq<Candidate>)
  {
    forall k :: 0 < k < |s| ==> s[k - 1].number < s[k].number
  }

  /** `c` is what a page-number pattern matched on its line: a line that is a
      page number by itself, without a span, or the match of
      `line_has_page_number`, whose span runs from the start of the line to the
      end of the number. */
  predicate Matched(c: Candidate)
  {
    match c.span
    case None => PageNumberOfLine(c.line) == Some(c.number)
    case Some(sp) => sp.start == 0 && LooseMatch(c.line, c.number) == Some(sp.end)
  }

  // ---------------------------------------------------------------------------
  // page_number_candidates

  /** The candidates of `page_number_candidates(lines)`: one for each line that
      is a page number by itself, without a span, in line order. */
  ghost predicate CandidatesOf(lines: seq<string>, candidates: seq<Candidate>)
  {
    && (forall c :: c in candidates ==>
         OfLines(c, lines) && c.span == None && PageNumberOfLine(c.line) == Some(c.number))
    && LinesOrdered(candidates)
    && (forall i :: 0 <= i < |lines| && PageNumberOfLine(lines[i]).Some? ==>
         exists c :: c in candidates && c.lineIndex == i)
  }

  /** `page_number_candidates`. */
  method PageNumberCandidates(lines: seq<string>) returns (candidates: seq<Candidate>)
    ensures CandidatesOf(lines, candidates)
  {
    candidates := [];
    for i := 0 to |lines|
      invariant forall c :: c in candidates ==>
        OfLines(c, lines) && c.lineIndex < i && c.span == None && PageNumberOfLine(c.line) == Some(c.number)
      invariant LinesOrdered(candidates)
      invariant forall i' :: 0 <= i' < i && PageNumberOfLine(lines[i']).Some? ==>
        exists c :: c in candidates && c.lineIndex == i'
    {
      var number := PageNumberOfLine(lines[i]);
      if number.Some? {
        var c := Candidate(number.value, lines[i], i, None);
        candidates := candidates + [c];
        assert c in candidates;
      }
    }
  }
}
